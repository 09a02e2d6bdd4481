/**
 * The older, time-only clock of src/time.rs: its own tick counter and a
 * `Time` record whose rollover stops at hours, the `init_pit` programming of
 * the interval timer, and its timer handler. Its `ChainedPics` and
 * `InterruptIndex` are the same definitions as src/pic.rs and
 * src/interrupts.rs, so the ones of `Pic` and `Interrupts` are used.
 */
module TimeOfDay {
  import opened Types
  import opened Ports
  import Pic
  import Interrupts
  import Datetime

  datatype Time = Time(hours: u8, minutes: u8, seconds: u8)

  /** The value `CURRENT_TIME` starts with: 00:00:00. */
  const Midnight: Time := Time(0, 0, 0)

  predicate Valid(t: Time)
  {
    t.hours < 24 && t.minutes < 60 && t.seconds < 60
  }

  /** None of the handler's `+= 1` steps overflows a `u8`. */
  predicate NoOverflow(t: Time)
  {
    t.seconds < 0xFF && (t.seconds + 1 >= 60 ==> t.minutes < 0xFF && (t.minutes + 1 >= 60 ==> t.hours < 0xFF))
  }

  /** What one qualifying tick of the handler does to the time. */
  function Rollover(t: Time): Time
    requires NoOverflow(t)
  {
    var seconds := t.seconds + 1;
    if seconds < 60 then t.(seconds := seconds)
    else
      var minutes := t.minutes + 1;
      if minutes < 60 then t.(seconds := 0, minutes := minutes)
      else
        var hours := t.hours + 1;
        if hours < 24 then Time(hours, 0, 0) else Time(0, 0, 0)
  }

  /** Seconds since midnight. */
  function SecondOfDay(t: Time): nat
  {
    (t.hours * 60 + t.minutes) * 60 + t.seconds
  }

  /** On a valid time the rollover keeps every field in range and adds one second modulo a day. */
  lemma RolloverIsNextSecond(t: Time)
    requires Valid(t)
    ensures NoOverflow(t) && Valid(Rollover(t))
    ensures SecondOfDay(Rollover(t)) == (SecondOfDay(t) + 1) % 86400
  {
    var n := SecondOfDay(t) + 1;
    if t.seconds < 59 || t.minutes < 59 || t.hours < 23 {
      assert n < 86400 && SecondOfDay(Rollover(t)) == n;
      ModSmall(n, 86400);
    } else {
      assert n == 86400 && Rollover(t) == Midnight;
    }
  }

  lemma ModSmall(n: nat, d: nat)
    requires n < d
    ensures n % d == n
  {
  }

  /** 23:59:59 rolls over to 00:00:00. */
  lemma LastSecondOfDay()
    ensures NoOverflow(Time(23, 59, 59)) && Rollover(Time(23, 59, 59)) == Midnight
  {
  }

  /** The time-only rollover agrees with the calendar clock's on the time fields. */
  lemma {:induction false} AgreesWithCalendar(m: Datetime.Moment)
    requires Datetime.NoOverflow(m)
    ensures NoOverflow(Time(m.hours, m.minutes, m.seconds))
    ensures var n := Datetime.Advance(m);
      Rollover(Time(m.hours, m.minutes, m.seconds)) == Time(n.hours, n.minutes, n.seconds)
  {
  }

  /** The PIT's command and channel 0 data ports. */
  const PIT_COMMAND_PORT: u16 := 0x43
  const PIT_CHANNEL0_PORT: u16 := 0x40

  /** Channel 0, low byte then high byte, mode 2 (rate generator). */
  const PIT_MODE: u8 := 0x34

  /** The reload value: 1193182 Hz / 1193 is close to 1 kHz. */
  const PIT_RELOAD: u16 := 1193

  /** The writes `init_pit` performs, in order. */
  function PitSequence(): seq<PortOp>
  {
    [Out(PIT_COMMAND_PORT, PIT_MODE), Out(PIT_CHANNEL0_PORT, PIT_RELOAD % 0x100), Out(PIT_CHANNEL0_PORT, PIT_RELOAD / 0x100)]
  }

  method InitPit(bus: PortBus)
    modifies bus
    ensures bus.log == old(bus.log) + PitSequence()
  {
    bus.Write(PIT_COMMAND_PORT, PIT_MODE);
    bus.Write(PIT_CHANNEL0_PORT, PIT_RELOAD % 0x100);  // frequency & 0xFF
    bus.Write(PIT_CHANNEL0_PORT, PIT_RELOAD / 0x100);  // frequency >> 8
  }

  /** `init_pit` writes 0x34 to 0x43, then 0xA9 and 0x04 to 0x40, which the PIT reassembles to 1193. */
  lemma {:induction false} PitProgramming()
    ensures PitSequence() == [Out(0x43, 0x34), Out(0x40, 0xA9), Out(0x40, 0x04)]
    ensures WritesTo(PitSequence(), 0x40) == [0xA9, 0x04]
    ensures 0xA9 + 0x100 * 0x04 == PIT_RELOAD
  {
    assert PitSequence() == [PitSequence()[0]] + [PitSequence()[1], PitSequence()[2]];
    WritesToAppend([PitSequence()[0]], [PitSequence()[1], PitSequence()[2]], 0x40);
    assert [PitSequence()[1], PitSequence()[2]] == [PitSequence()[1]] + [PitSequence()[2]];
    WritesToAppend([PitSequence()[1]], [PitSequence()[2]], 0x40);
  }

  /** The statics of src/time.rs: its own `TICKS`, `CURRENT_TIME` and `PICS`. */
  class TimeKeeper {
    var ticks: nat
    var hours: u8
    var minutes: u8
    var seconds: u8
    const pics: Pic.ChainedPics
    const bus: PortBus

    function Value(): Time
      reads this
    {
      Time(hours, minutes, seconds)
    }

    constructor (bus: PortBus)
      ensures ticks == 0 && Value() == Midnight && this.bus == bus
      ensures pics == Pic.New(Pic.PIC_1_OFFSET, Pic.PIC_2_OFFSET)
    {
      ticks := 0;
      hours, minutes, seconds := 0, 0, 0;
      this.bus := bus;
      pics := Pic.New(Pic.PIC_1_OFFSET, Pic.PIC_2_OFFSET);
    }

    /** `pit_interrupt_handler` of src/time.rs. */
    method PitInterrupt()
      requires (ticks + 1) % 1000 == 0 ==> NoOverflow(Value())
      modifies this, bus
      ensures ticks == old(ticks) + 1
      ensures Value() == if ticks % 1000 == 0 then Rollover(old(Value())) else old(Value())
      ensures bus.log == old(bus.log) + pics.EoiSequence(Interrupts.InterruptIndex.Timer.AsU8())
    {
      ticks := ticks + 1;

      if ticks % 1000 == 0 {
        seconds := seconds + 1;

        if seconds >= 60 {
          seconds := 0;
          minutes := minutes + 1;
          if minutes >= 60 {
            minutes := 0;
            hours := hours + 1;
            if hours >= 24 {
              hours := 0;
            }
          }
        }
      }

      pics.NotifyEndOfInterrupt(bus, Interrupts.InterruptIndex.Timer.AsU8());
    }

    /** `get_time`: a copy of the record. */
    method GetTime() returns (t: Time)
      ensures t == Value()
    {
      t := Time(hours, minutes, seconds);
    }

    /** `set_time`: overwrites the three fields, without any range check. */
    method SetTime(h: u8, m: u8, s: u8)
      modifies this
      ensures Value() == Time(h, m, s) && ticks == old(ticks)
    {
      hours := h;
      minutes := m;
      seconds := s;
    }
  }
}
