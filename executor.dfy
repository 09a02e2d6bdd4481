/**
 * The cooperative round-robin executor of src/executor.rs. A task is
 * abstracted to an identifier and the number of polls it needs: each poll
 * before the last returns Pending, the last returns Ready.
 */
module Executor {

  type PollCount = n: nat | n >= 1 witness 1

  datatype Task = Task(id: nat, polls: PollCount)

  datatype Poll = Ready | Pending

  /** The answer of one poll of `t`. */
  function PollOf(t: Task): Poll
  {
    if t.polls == 1 then Ready else Pending
  }

  /** The task as it stands after a poll that returned Pending. */
  function Polled(t: Task): (r: Task)
    requires PollOf(t) == Pending
    ensures r.id == t.id && r.polls == t.polls - 1
  {
    t.(polls := t.polls - 1)
  }

  /** The queue after one pop-poll-requeue step (`run_until_idle`). */
  function Step(q: seq<Task>): seq<Task>
  {
    if q == [] then []
    else if PollOf(q[0]) == Pending then q[1..] + [Polled(q[0])]
    else q[1..]
  }

  /** The polls still owed to the tasks of `q`. */
  function TotalPolls(q: seq<Task>): nat
  {
    if q == [] then 0 else q[0].polls + TotalPolls(q[1..])
  }

  /** The polls still owed to the tasks of `q` whose identifier is `id`. */
  function PollsOf(q: seq<Task>, id: nat): nat
  {
    if q == [] then 0 else (if q[0].id == id then q[0].polls else 0) + PollsOf(q[1..], id)
  }

  /** How often `id` occurs in `s`. */
  function Occurrences(s: seq<nat>, id: nat): nat
  {
    if s == [] then 0 else (if s[0] == id then 1 else 0) + Occurrences(s[1..], id)
  }

  lemma {:induction false} TotalPollsAppend(q: seq<Task>, t: Task)
    ensures TotalPolls(q + [t]) == TotalPolls(q) + t.polls
  {
    if q == [] {
      assert q + [t] == [t];
    } else {
      assert (q + [t])[1..] == q[1..] + [t];
      TotalPollsAppend(q[1..], t);
    }
  }

  lemma {:induction false} PollsOfAppend(q: seq<Task>, t: Task, id: nat)
    ensures PollsOf(q + [t], id) == PollsOf(q, id) + (if t.id == id then t.polls else 0)
  {
    if q == [] {
      assert q + [t] == [t];
    } else {
      assert (q + [t])[1..] == q[1..] + [t];
      PollsOfAppend(q[1..], t, id);
    }
  }

  /** A step consumes exactly one owed poll, if there is a task. */
  lemma StepConsumesOnePoll(q: seq<Task>)
    requires q != []
    ensures TotalPolls(Step(q)) == TotalPolls(q) - 1
  {
    if PollOf(q[0]) == Pending {
      TotalPollsAppend(q[1..], Polled(q[0]));
    }
  }

  /** The identifiers of the tasks `run` polls, in the order it polls them. */
  function Schedule(q: seq<Task>): seq<nat>
    decreases TotalPolls(q)
  {
    if q == [] then []
    else
      StepConsumesOnePoll(q);
      [q[0].id] + Schedule(Step(q))
  }

  /** `run_until_idle` on an empty queue changes nothing. */
  lemma StepEmpty()
    ensures Step([]) == []
  {
  }

  /**
   * A task leaves the queue exactly when its poll returns Ready; otherwise it
   * goes to the back, behind the tasks that were waiting.
   */
  lemma StepLeavesOnlyWhenReady(q: seq<Task>)
    requires q != []
    ensures |Step(q)| == |q| - 1 <==> PollOf(q[0]) == Ready
    ensures PollOf(q[0]) == Pending ==> Step(q)[..|q| - 1] == q[1..] && Step(q)[|q| - 1] == Polled(q[0])
  {
  }

  /** `run` polls `Σ polls` times. */
  lemma {:induction false} ScheduleLength(q: seq<Task>)
    ensures |Schedule(q)| == TotalPolls(q)
    decreases TotalPolls(q)
  {
    if q != [] {
      StepConsumesOnePoll(q);
      ScheduleLength(Step(q));
    }
  }

  /** Every task is polled exactly as often as it needs to be. */
  lemma {:induction false} ScheduleCounts(q: seq<Task>, id: nat)
    ensures Occurrences(Schedule(q), id) == PollsOf(q, id)
    decreases TotalPolls(q)
  {
    if q != [] {
      StepConsumesOnePoll(q);
      ScheduleCounts(Step(q), id);
      assert Schedule(q)[1..] == Schedule(Step(q));
      if PollOf(q[0]) == Pending {
        PollsOfAppend(q[1..], Polled(q[0]), id);
      }
    }
  }

  lemma {:induction false} TotalPollsAtLeastLength(q: seq<Task>)
    ensures TotalPolls(q) >= |q|
  {
    if q != [] {
      TotalPollsAtLeastLength(q[1..]);
    }
  }

  /** Round robin: the first |q| polls visit the queued tasks once each, front to back. */
  lemma {:induction false} ScheduleRoundRobin(q: seq<Task>, i: nat)
    requires i < |q|
    ensures i < |Schedule(q)| && Schedule(q)[i] == q[i].id
    decreases TotalPolls(q)
  {
    ScheduleLength(q);
    TotalPollsAtLeastLength(q);
    if i > 0 {
      StepConsumesOnePoll(q);
      ScheduleRoundRobin(Step(q), i - 1);
    }
  }

  /** T1 needing one poll and T2 needing three are polled as [T1, T2, T2, T2]. */
  lemma TwoTaskExample()
    ensures Schedule([Task(1, 1), Task(2, 3)]) == [1, 2, 2, 2]
  {
    var q0 := [Task(1, 1), Task(2, 3)];
    assert Step(q0) == [Task(2, 3)];
    assert Step([Task(2, 3)]) == [Task(2, 2)];
    assert Step([Task(2, 2)]) == [Task(2, 1)];
    assert Step([Task(2, 1)]) == [];
  }

  /** `Executor`: the task queue, and the identifiers of the tasks polled so far. */
  class Executor {
    var tasks: seq<Task>
    ghost var polled: seq<nat>

    /** `Executor::new`. */
    constructor ()
      ensures tasks == [] && polled == []
    {
      tasks := [];
      polled := [];
    }

    /** `spawn`: the task joins the back of the queue. */
    method Spawn(task: Task)
      modifies this
      ensures tasks == old(tasks) + [task] && polled == old(polled)
    {
      tasks := tasks + [task];
    }

    /** `run_until_idle`: one pop-poll-requeue step, if there is a task. */
    method RunUntilIdle()
      modifies this
      ensures tasks == Step(old(tasks))
      ensures polled == old(polled) + (if old(tasks) == [] then [] else [old(tasks)[0].id])
    {
      if tasks != [] {
        var task := tasks[0];
        tasks := tasks[1..];
        polled := polled + [task.id];
        if PollOf(task) == Pending {
          tasks := tasks + [Polled(task)];
        }
      }
    }

    /** `run`: pop, poll and requeue until the queue is empty. */
    method Run()
      modifies this
      ensures tasks == []
      ensures polled == old(polled) + Schedule(old(tasks))
    {
      while tasks != []
        invariant polled + Schedule(tasks) == old(polled) + Schedule(old(tasks))
        decreases TotalPolls(tasks)
      {
        ghost var before := tasks;
        StepConsumesOnePoll(tasks);
        RunUntilIdle();
        assert Schedule(before) == [before[0].id] + Schedule(tasks);
      }
    }
  }
}
