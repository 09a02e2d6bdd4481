/**
 * x86 port I/O (`x86_64::instructions::port::Port` and the `in`/`out`
 * instructions) as a log: every `out`, and the keyboard handler's read of
 * port 0x60, is appended in order.
 */
module Ports {
  import opened Types

  datatype PortOp =
    | Out(port: u16, value: u8)  // `Port::write` / `out dx, al`
    | In(port: u16)              // `Port::read` whose value is not used

  /** The values written to `port`, in the order they were written. */
  function WritesTo(log: seq<PortOp>, port: u16): (values: seq<u8>)
    ensures |values| <= |log|
  {
    if log == [] then []
    else
      var rest := WritesTo(log[1..], port);
      if log[0].Out? && log[0].port == port then [log[0].value] + rest else rest
  }

  /** Projection onto one port distributes over concatenation of logs. */
  lemma {:induction false} WritesToAppend(a: seq<PortOp>, b: seq<PortOp>, port: u16)
    ensures WritesTo(a + b, port) == WritesTo(a, port) + WritesTo(b, port)
  {
    if a == [] {
      assert a + b == b;
    } else {
      assert (a + b)[1..] == a[1..] + b;
      WritesToAppend(a[1..], b, port);
    }
  }

  /** The I/O ports of the machine, seen as the sequence of accesses made to them. */
  class PortBus {
    var log: seq<PortOp>

    constructor ()
      ensures log == []
    {
      log := [];
    }

    method Write(port: u16, value: u8)
      modifies this
      ensures log == old(log) + [Out(port, value)]
    {
      log := log + [Out(port, value)];
    }

    method Read(port: u16)
      modifies this
      ensures log == old(log) + [In(port)]
    {
      log := log + [In(port)];
    }
  }
}
