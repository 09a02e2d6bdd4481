/**
 * The driver for the cascaded pair of Intel 8259A programmable interrupt
 * controllers (src/pic.rs): the ICW1-ICW4 initialisation sequence and the
 * non-specific end-of-interrupt command (OCW2 = 0x20).
 */
module Pic {
  import opened Types
  import opened Ports

  const PIC_1_OFFSET: u8 := 32
  const PIC_2_OFFSET: u8 := PIC_1_OFFSET + 8

  /** ICW1: edge triggered, cascade mode, ICW4 needed. */
  const ICW1: u8 := 0x11
  /** ICW3 for the master: a slave hangs on IRQ line 2 (bit 2). */
  const ICW3_MASTER: u8 := 4
  /** ICW3 for the slave: its cascade identity is 2. */
  const ICW3_SLAVE: u8 := 2
  /** ICW4: 8086/88 mode. */
  const ICW4: u8 := 0x01
  /** OCW2: non-specific end of interrupt. */
  const EOI: u8 := 0x20

  /** The four ports of the two controllers. */
  datatype ChainedPics = ChainedPics(masterCommand: u16, masterData: u16, slaveCommand: u16, slaveData: u16)
  {
    /** The writes `initialize` performs, in order. */
    function InitSequence(): seq<PortOp>
    {
      [ Out(masterCommand, ICW1), Out(slaveCommand, ICW1),
        Out(masterData, PIC_1_OFFSET), Out(slaveData, PIC_2_OFFSET),
        Out(masterData, ICW3_MASTER), Out(slaveData, ICW3_SLAVE),
        Out(masterData, ICW4), Out(slaveData, ICW4) ]
    }

    /** The writes `notify_end_of_interrupt(irq)` performs, in order. */
    function EoiSequence(irq: u8): seq<PortOp>
    {
      (if irq >= 8 then [Out(slaveCommand, EOI)] else []) + [Out(masterCommand, EOI)]
    }

    method Initialize(bus: PortBus)
      modifies bus
      ensures bus.log == old(bus.log) + InitSequence()
    {
      bus.Write(masterCommand, ICW1);
      bus.Write(slaveCommand, ICW1);

      bus.Write(masterData, PIC_1_OFFSET);
      bus.Write(slaveData, PIC_2_OFFSET);

      bus.Write(masterData, ICW3_MASTER);
      bus.Write(slaveData, ICW3_SLAVE);

      bus.Write(masterData, ICW4);
      bus.Write(slaveData, ICW4);
    }

    method NotifyEndOfInterrupt(bus: PortBus, irq: u8)
      modifies bus
      ensures bus.log == old(bus.log) + EoiSequence(irq)
    {
      if irq >= 8 {
        bus.Write(slaveCommand, EOI);
      }
      bus.Write(masterCommand, EOI);
    }
  }

  /** `ChainedPics::new`: the offsets are accepted and not used. */
  function New(offset1: u8, offset2: u8): (pics: ChainedPics)
    ensures pics.masterCommand == 0x20 && pics.masterData == 0x21
    ensures pics.slaveCommand == 0xA0 && pics.slaveData == 0xA1
  {
    ChainedPics(0x20, 0x21, 0xA0, 0xA1)
  }

  /** The port assignment does not depend on the offsets passed to `new`. */
  lemma NewIgnoresOffsets(a1: u8, a2: u8, b1: u8, b2: u8)
    ensures New(a1, a2) == New(b1, b2)
  {
  }

  /** The slave's vectors follow the master's eight, and both clear the CPU exceptions 0-31. */
  lemma OffsetsLayout()
    ensures PIC_2_OFFSET == PIC_1_OFFSET + 8 == 40
    ensures PIC_1_OFFSET >= 32 && PIC_2_OFFSET >= 32
  {
  }

  /** An interrupt from the slave (line 8 or above) is acknowledged at the slave, then at the master. */
  lemma EoiFromSlave(offset1: u8, offset2: u8, irq: u8)
    requires irq >= 8
    ensures New(offset1, offset2).EoiSequence(irq) == [Out(0xA0, 0x20), Out(0x20, 0x20)]
  {
  }

  /** An interrupt from the master is acknowledged with a single write to port 0x20. */
  lemma EoiFromMaster(offset1: u8, offset2: u8, irq: u8)
    requires irq < 8
    ensures New(offset1, offset2).EoiSequence(irq) == [Out(0x20, 0x20)]
  {
  }

  /** The projection of an eight-write log onto a port, write by write. */
  lemma WritesToEight(s: seq<PortOp>, p: u16)
    requires |s| == 8
    ensures WritesTo(s, p) ==
      WritesTo([s[0]], p) + WritesTo([s[1]], p) + WritesTo([s[2]], p) + WritesTo([s[3]], p) +
      WritesTo([s[4]], p) + WritesTo([s[5]], p) + WritesTo([s[6]], p) + WritesTo([s[7]], p)
  {
    assert s == [s[0]] + [s[1]] + [s[2]] + [s[3]] + [s[4]] + [s[5]] + [s[6]] + [s[7]];
    WritesToAppend([s[0]] + [s[1]] + [s[2]] + [s[3]] + [s[4]] + [s[5]] + [s[6]], [s[7]], p);
    WritesToAppend([s[0]] + [s[1]] + [s[2]] + [s[3]] + [s[4]] + [s[5]], [s[6]], p);
    WritesToAppend([s[0]] + [s[1]] + [s[2]] + [s[3]] + [s[4]], [s[5]], p);
    WritesToAppend([s[0]] + [s[1]] + [s[2]] + [s[3]], [s[4]], p);
    WritesToAppend([s[0]] + [s[1]] + [s[2]], [s[3]], p);
    WritesToAppend([s[0]] + [s[1]], [s[2]], p);
    WritesToAppend([s[0]], [s[1]], p);
  }

  /**
   * The initialisation is the 8259A protocol seen per controller: each command
   * port receives ICW1 alone, each data port receives ICW2 (its vector offset),
   * ICW3 (cascade wiring) and ICW4, in that order; and ICW1 reaches both command
   * ports before any data port is written.
   */
  lemma InitProtocol(offset1: u8, offset2: u8)
    ensures New(offset1, offset2).InitSequence() == [
      Out(0x20, 0x11), Out(0xA0, 0x11), Out(0x21, 32), Out(0xA1, 40),
      Out(0x21, 4), Out(0xA1, 2), Out(0x21, 1), Out(0xA1, 1) ]
    ensures WritesTo(New(offset1, offset2).InitSequence(), 0x20) == [ICW1]
    ensures WritesTo(New(offset1, offset2).InitSequence(), 0xA0) == [ICW1]
    ensures WritesTo(New(offset1, offset2).InitSequence(), 0x21) == [PIC_1_OFFSET, ICW3_MASTER, ICW4]
    ensures WritesTo(New(offset1, offset2).InitSequence(), 0xA1) == [PIC_2_OFFSET, ICW3_SLAVE, ICW4]
    ensures forall i | 0 <= i < 2 :: New(offset1, offset2).InitSequence()[i].port in {0x20, 0xA0}
    ensures forall i | 2 <= i < 8 :: New(offset1, offset2).InitSequence()[i].port in {0x21, 0xA1}
  {
    var s := New(offset1, offset2).InitSequence();
    WritesToEight(s, 0x20);
    WritesToEight(s, 0xA0);
    WritesToEight(s, 0x21);
    WritesToEight(s, 0xA1);
  }
}
