/**
 * The interrupt vectors and handlers of src/interrupts.rs, run one call at a
 * time: the timer handler counts ticks and advances the calendar clock every
 * 1000th tick, the keyboard handler drains the keyboard controller, and both
 * end with one end-of-interrupt to the PIC pair.
 */
module Interrupts {
  import opened Types
  import opened Ports
  import Pic
  import Datetime

  /** The two hardware vectors, placed at the master PIC's offset. */
  datatype InterruptIndex = Timer | Keyboard
  {
    /** `InterruptIndex::as_u8`: the vector number, which is also what is passed as the EOI's irq. */
    function AsU8(): (vector: u8)
      ensures Pic.PIC_1_OFFSET <= vector < Pic.PIC_2_OFFSET
      ensures vector - Pic.PIC_1_OFFSET == (if this == Timer then 0 else 1)
    {
      match this
      case Timer => Pic.PIC_1_OFFSET
      case Keyboard => Pic.PIC_1_OFFSET + 1
    }
  }

  /** The handlers that can be installed in the interrupt descriptor table. */
  datatype Handler = PitInterruptHandler | KeyboardInterruptHandler

  /** The number of timer interrupts each clock update waits for (about one second at 1 kHz). */
  const TICKS_PER_UPDATE: nat := 1000

  /** The keyboard controller's data port. */
  const KEYBOARD_DATA_PORT: u16 := 0x60

  /**
   * The statics the handlers share: `TICKS`, `CURRENT_TIME`, `PICS` and the IDT,
   * with the port bus they write to.
   */
  class Kernel {
    var ticks: nat
    /** How many times a handler has advanced the clock. */
    ghost var updates: nat
    var idt: map<nat, Handler>
    const clock: Datetime.DateTime
    const pics: Pic.ChainedPics
    const bus: PortBus

    /** Every 1000th tick since boot, and no other, has advanced the clock. */
    ghost predicate Valid()
      reads this
    {
      updates == ticks / TICKS_PER_UPDATE
    }

    /** Boot state: `TICKS` starts at zero and `PICS` is `ChainedPics::new(PIC_1_OFFSET, PIC_2_OFFSET)`. */
    constructor (clock: Datetime.DateTime, bus: PortBus)
      ensures Valid()
      ensures ticks == 0 && idt == map[]
      ensures this.clock == clock && this.bus == bus
      ensures pics == Pic.New(Pic.PIC_1_OFFSET, Pic.PIC_2_OFFSET)
    {
      ticks := 0;
      updates := 0;
      idt := map[];
      this.clock := clock;
      this.bus := bus;
      pics := Pic.New(Pic.PIC_1_OFFSET, Pic.PIC_2_OFFSET);
    }

    /** `pit_interrupt_handler`. */
    method PitInterrupt()
      requires Valid()
      requires (ticks + 1) % TICKS_PER_UPDATE == 0 ==> Datetime.NoOverflow(clock.Value())
      modifies this, clock, bus
      ensures Valid()
      ensures ticks == old(ticks) + 1
      ensures clock.Value() ==
        if ticks % TICKS_PER_UPDATE == 0 then Datetime.Advance(old(clock.Value())) else old(clock.Value())
      ensures updates == old(updates) + (if ticks % TICKS_PER_UPDATE == 0 then 1 else 0)
      ensures bus.log == old(bus.log) + pics.EoiSequence(InterruptIndex.Timer.AsU8())
      ensures idt == old(idt)
    {
      ticks := ticks + 1;
      UpdatesStep(ticks - 1);

      if ticks % TICKS_PER_UPDATE == 0 {
        clock.Update();
        updates := updates + 1;
      }

      pics.NotifyEndOfInterrupt(bus, InterruptIndex.Timer.AsU8());
    }

    /** `keyboard_interrupt_handler`: one read of the data port, then the EOI. */
    method KeyboardInterrupt()
      modifies bus
      ensures bus.log == old(bus.log) + [In(KEYBOARD_DATA_PORT)] + pics.EoiSequence(InterruptIndex.Keyboard.AsU8())
    {
      bus.Read(KEYBOARD_DATA_PORT);
      pics.NotifyEndOfInterrupt(bus, InterruptIndex.Keyboard.AsU8());
    }

    /** `init_idt`: install both handlers, then initialise the PICs (loading the IDT has no modelled effect). */
    method InitIdt()
      modifies this, bus
      ensures idt == old(idt)[InterruptIndex.Timer.AsU8() := PitInterruptHandler][InterruptIndex.Keyboard.AsU8() := KeyboardInterruptHandler]
      ensures bus.log == old(bus.log) + pics.InitSequence()
      ensures ticks == old(ticks) && updates == old(updates)
    {
      idt := idt[InterruptIndex.Timer.AsU8() := PitInterruptHandler];
      idt := idt[InterruptIndex.Keyboard.AsU8() := KeyboardInterruptHandler];
      pics.Initialize(bus);
    }
  }

  /** Crossing a multiple of 1000 is what moves `ticks / 1000`. */
  lemma UpdatesStep(t: nat)
    ensures (t + 1) / TICKS_PER_UPDATE == t / TICKS_PER_UPDATE + (if (t + 1) % TICKS_PER_UPDATE == 0 then 1 else 0)
  {
  }

  /** How many of `n` consecutive timer interrupts, starting from tick count `t0`, advance the clock. */
  function UpdatesDuring(t0: nat, n: nat): nat
  {
    if n == 0 then 0
    else UpdatesDuring(t0, n - 1) + (if (t0 + n) % TICKS_PER_UPDATE == 0 then 1 else 0)
  }

  /** That count is the number of multiples of 1000 in (t0, t0 + n]. */
  lemma {:induction false} UpdatesDuringCount(t0: nat, n: nat)
    ensures UpdatesDuring(t0, n) == (t0 + n) / TICKS_PER_UPDATE - t0 / TICKS_PER_UPDATE
  {
    if n > 0 {
      UpdatesDuringCount(t0, n - 1);
      UpdatesStep(t0 + n - 1);
    }
  }

  /** The vectors are 32 and 33; both are at least 8, so both EOIs go to the slave and then the master. */
  lemma VectorsAndEois()
    ensures InterruptIndex.Timer.AsU8() == 32 && InterruptIndex.Keyboard.AsU8() == 33
    ensures Pic.New(Pic.PIC_1_OFFSET, Pic.PIC_2_OFFSET).EoiSequence(InterruptIndex.Timer.AsU8()) == [Out(0xA0, 0x20), Out(0x20, 0x20)]
    ensures Pic.New(Pic.PIC_1_OFFSET, Pic.PIC_2_OFFSET).EoiSequence(InterruptIndex.Keyboard.AsU8()) == [Out(0xA0, 0x20), Out(0x20, 0x20)]
  {
  }
}
