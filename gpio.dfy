/** The memory-mapped GPIO block of the Raspberry Pi 4: function-select, set, clear and level registers. */
module Gpio {

  /** Registers are 32 bits wide. */
  type Reg = bv32

  /** The function-select register holding `pin`, ten pins to a register. */
  function FselIndex(pin: nat): nat { pin / 10 }

  /** The bit where the 3-bit function-select field of `pin` starts. */
  function FselShift(pin: nat): (shift: Reg)
    ensures shift <= 27
  {
    ((pin % 10) * 3) as Reg
  }

  /** The mask with the three bits of a field starting at `shift` set. */
  function FieldMask(shift: Reg): Reg
    requires shift <= 29
  {
    0x7 << shift
  }

  /** The 3-bit field of `v` starting at `shift`. */
  function Field(v: Reg, shift: Reg): Reg
    requires shift <= 29
  {
    (v >> shift) & 0x7
  }

  /** `(v & !(0b111 << shift)) | ((mode & 0b111) << shift)`, the new function-select register. */
  function SetField(v: Reg, shift: Reg, mode: Reg): Reg
    requires shift <= 27
  {
    (v & !(0x7 << shift)) | ((mode & 0x7) << shift)
  }

  /** After the update the field holds the low three bits of `mode`. */
  lemma SetFieldSets(v: Reg, shift: Reg, mode: Reg)
    requires shift <= 27
    ensures Field(SetField(v, shift, mode), shift) == mode & 0x7
  {
  }

  /** Every bit outside the field keeps its value. */
  lemma SetFieldKeeps(v: Reg, shift: Reg, mode: Reg)
    requires shift <= 27
    ensures SetField(v, shift, mode) & !FieldMask(shift) == v & !FieldMask(shift)
  {
  }

  /** Setting a field twice to the same mode is setting it once. */
  lemma SetFieldIdempotent(v: Reg, shift: Reg, mode: Reg)
    requires shift <= 27
    ensures SetField(SetField(v, shift, mode), shift, mode) == SetField(v, shift, mode)
  {
  }

  /** The last write to a field wins. */
  lemma SetFieldOverwrite(v: Reg, shift: Reg, first: Reg, second: Reg)
    requires shift <= 27
    ensures SetField(SetField(v, shift, first), shift, second) == SetField(v, shift, second)
  {
  }

  /** Fields of different pins of one register are independent: setting one leaves the other's value. */
  lemma SetFieldOther(v: Reg, shift: Reg, other: Reg, mode: Reg)
    requires shift <= 27 && other <= 27 && shift % 3 == 0 && other % 3 == 0 && shift != other
    ensures Field(SetField(v, shift, mode), other) == Field(v, other)
  {
  }

  /** The bit of `pin` within its 32-pin bank, `pin % 32`. */
  function PinBit(pin: nat): (bit: Reg)
    ensures bit < 32
  {
    (pin % 32) as Reg
  }

  /** The one-bit mask `1 << (pin % 32)` that `write` and `read` use for `pin`. */
  function PinMask(pin: nat): Reg
  {
    1 << PinBit(pin)
  }

  /** A pin mask has exactly the bit of its own pin set. */
  lemma PinMaskBit(pin: nat, bit: Reg)
    requires bit < 32
    ensures (PinMask(pin) >> bit) & 1 == (if bit == PinBit(pin) then 1 else 0)
  {
  }

  /** The GPIO block: six function-select registers, two set, two clear and two level registers. */
  class GpioBlock {
    const fsel: array<Reg>
    /** The `set` registers (`set` is a Dafny keyword). */
    const gpset: array<Reg>
    const clr: array<Reg>
    const lev: array<Reg>

    /** The register file has the shape of the `#[repr(C)]` struct: fixed lengths, four separate arrays. */
    predicate Valid()
      reads this
    {
      && fsel.Length == 6 && gpset.Length == 2 && clr.Length == 2 && lev.Length == 2
      && gpset != clr && clr != lev && gpset != lev
    }

    /** `Gpio::new`: the register block, modelled as fresh registers; `levels` stands for the pin levels. */
    constructor (levels: seq<Reg>)
      requires |levels| == 2
      ensures Valid() && fresh(fsel) && fresh(gpset) && fresh(clr) && fresh(lev)
      ensures fsel[..] == seq(6, _ => 0) && gpset[..] == [0, 0] && clr[..] == [0, 0] && lev[..] == levels
    {
      fsel := new Reg[6](_ => 0);
      gpset := new Reg[2](_ => 0);
      clr := new Reg[2](_ => 0);
      lev := new Reg[2](i requires 0 <= i < 2 => levels[i]);
    }

    /** `set_mode`: only the 3-bit field of `pin` in `fsel[pin / 10]` changes, and it becomes `mode & 0b111`. */
    method SetMode(pin: nat, mode: Reg)
      requires Valid() && pin < 60
      modifies fsel
      ensures fsel[..] == old(fsel[..])[FselIndex(pin) := SetField(old(fsel[FselIndex(pin)]), FselShift(pin), mode)]
    {
      var reg := pin / 10;
      var shift := FselShift(pin);
      fsel[reg] := SetField(fsel[reg], shift, mode);
    }

    /** `write`: a true value stores the pin mask into `gpset[pin / 32]`, a false one into `clr[pin / 32]`. */
    method Write(pin: nat, value: bool)
      requires Valid() && pin < 64
      modifies gpset, clr
      ensures value ==> gpset[..] == old(gpset[..])[pin / 32 := PinMask(pin)] && clr[..] == old(clr[..])
      ensures !value ==> clr[..] == old(clr[..])[pin / 32 := PinMask(pin)] && gpset[..] == old(gpset[..])
    {
      if value {
        gpset[pin / 32] := PinMask(pin);
      } else {
        clr[pin / 32] := PinMask(pin);
      }
    }

    /** `read`: the level bit of `pin`. */
    function Read(pin: nat): (high: bool)
      requires Valid() && pin < 64
      reads this, lev
      ensures high <==> (lev[pin / 32] >> PinBit(pin)) & 1 == 1
    {
      lev[pin / 32] & PinMask(pin) != 0
    }
  }
}
