/**
 * The VGA text-mode framebuffer (the bytes at 0xb8000): two bytes per cell,
 * the character then its colour attribute, 80 cells to a row.
 */
module Vga {
  import opened Types
  import Str
  import opened Constants

  /** The size of the 80x25 text screen in bytes. */
  const SCREEN_BYTES: nat := 4000

  /** The byte offset of cell (row, col) on a screen `width` cells wide. */
  function Offset(row: nat, col: nat, width: nat): nat
  {
    (row * width + col) * 2
  }

  /** One cell written: character at `offset`, colour at `offset + 1`. */
  function PutCell(screen: seq<u8>, offset: nat, character: u8, color: u8): (result: seq<u8>)
    requires offset + 1 < |screen|
    ensures |result| == |screen|
    ensures result[offset] == character && result[offset + 1] == color
    ensures forall i | 0 <= i < |screen| && i != offset && i != offset + 1 :: result[i] == screen[i]
  {
    screen[offset := character][offset + 1 := color]
  }

  /** `write_char`: writes cell (row, col) of the 80-column screen and nothing else. */
  method WriteChar(fb: array<u8>, row: nat, col: nat, character: u8, color: u8)
    requires Offset(row, col, 80) + 1 < fb.Length
    modifies fb
    ensures fb[..] == PutCell(old(fb[..]), Offset(row, col, 80), character, color)
  {
    var offset := Offset(row, col, 80);
    fb[offset] := character;
    fb[offset + 1] := color;
  }

  /** The screen with its first `n` bytes zeroed. */
  function Cleared(screen: seq<u8>, n: nat): (result: seq<u8>)
    requires n <= |screen|
    ensures |result| == |screen|
    ensures forall i | 0 <= i < |screen| :: result[i] == if i < n then 0 else screen[i]
  {
    seq(|screen|, i requires 0 <= i < |screen| => if i < n then 0 else screen[i])
  }

  /** `clear_screen`: zeroes exactly the bytes of a `width` x `height` screen. */
  method ClearScreen(fb: array<u8>, width: u16, height: u16)
    requires width * height * 2 <= fb.Length
    modifies fb
    ensures fb[..] == Cleared(old(fb[..]), width * height * 2)
  {
    var n := width * height * 2;
    for i := 0 to n
      invariant forall k | 0 <= k < fb.Length :: fb[k] == if k < i then 0 else old(fb[k])
    {
      fb[i] := 0;
    }
  }

  predicate IsLineBuffer(buffer: array2<u8>)
  {
    buffer.Length0 == ROWS && buffer.Length1 == COLS
  }

  /**
   * What `print_buffer` leaves at byte `i` of the screen, given the byte
   * that was there: a non-zero buffer cell with attribute 0x07; otherwise, on
   * the status row 24, `_` in the status-bar colour; otherwise the old byte.
   */
  function PrintedByte(before: u8, i: nat, buffer: array2<u8>, statusColor: u8): u8
    requires IsLineBuffer(buffer)
    reads buffer
  {
    if i >= SCREEN_BYTES then before
    else
      var row, col := (i / 2) / 80, (i / 2) % 80;
      if buffer[row, col] != 0 then (if i % 2 == 0 then buffer[row, col] else 0x07)
      else if row == 24 then (if i % 2 == 0 then '_' as int else statusColor)
      else before
  }

  function Printed(screen: seq<u8>, buffer: array2<u8>, statusColor: u8): (result: seq<u8>)
    requires IsLineBuffer(buffer)
    reads buffer
    ensures |result| == |screen|
    ensures forall i | 0 <= i < |screen| :: result[i] == PrintedByte(screen[i], i, buffer, statusColor)
  {
    seq(|screen|, i reads buffer requires 0 <= i < |screen| => PrintedByte(screen[i], i, buffer, statusColor))
  }

  lemma CellBytes(row: nat, col: nat)
    requires row < ROWS && col < COLS
    ensures var o := Offset(row, col, 80);
      o / 2 / 80 == row && o / 2 % 80 == col && (o + 1) / 2 == o / 2 && o % 2 == 0 && (o + 1) % 2 == 1
      && o + 1 < SCREEN_BYTES
  {
  }

  /** `print_buffer`: draws the 25x80 line buffer onto the screen, the status row included. */
  method PrintBuffer(fb: array<u8>, buffer: array2<u8>, statusColor: u8)
    requires IsLineBuffer(buffer) && SCREEN_BYTES <= fb.Length
    modifies fb
    ensures fb[..] == Printed(old(fb[..]), buffer, statusColor)
  {
    for row := 0 to ROWS
      invariant forall i | 0 <= i < fb.Length ::
        fb[i] == if i < row * 160 then PrintedByte(old(fb[i]), i, buffer, statusColor) else old(fb[i])
    {
      for col := 0 to COLS
        invariant forall i | 0 <= i < fb.Length ::
          fb[i] == if i < row * 160 + col * 2 then PrintedByte(old(fb[i]), i, buffer, statusColor) else old(fb[i])
      {
        var o := Offset(row, col, 80);
        CellBytes(row, col);
        if row == 24 {
          fb[o] := '_' as int;
          fb[o + 1] := statusColor;
        }
        if buffer[row, col] != 0 {
          fb[o] := buffer[row, col];
          fb[o + 1] := 0x07;
        }
      }
    }
  }

  /**
   * Cell by cell, the screen `print_buffer` leaves: a non-zero buffer cell
   * shows its byte in attribute 0x07; a zero cell on row 24 shows `_` in the
   * status-bar colour; any other zero cell keeps what the screen had.
   */
  lemma PrintedCells(screen: seq<u8>, buffer: array2<u8>, statusColor: u8, row: nat, col: nat)
    requires IsLineBuffer(buffer) && SCREEN_BYTES <= |screen|
    requires row < ROWS && col < COLS
    ensures var result, o := Printed(screen, buffer, statusColor), Offset(row, col, 80);
      if buffer[row, col] != 0 then result[o] == buffer[row, col] && result[o + 1] == 0x07
      else if row == 24 then result[o] == '_' as int && result[o + 1] == statusColor
      else result[o] == screen[o] && result[o + 1] == screen[o + 1]
  {
    CellBytes(row, col);
  }

  /** Bytes written to consecutive cells of one row, starting at (row, col). */
  function PutRun(screen: seq<u8>, row: nat, col: nat, bytes: seq<u8>, color: u8): (result: seq<u8>)
    requires Offset(row, col + |bytes|, 80) <= |screen|
    ensures |result| == |screen|
  {
    if bytes == [] then screen
    else
      var last := |bytes| - 1;
      PutCell(PutRun(screen, row, col, bytes[..last], color), Offset(row, col + last, 80), bytes[last], color)
  }

  /** A run of bytes lands cell by cell, and nothing outside the run changes. */
  lemma {:induction false} PutRunCells(screen: seq<u8>, row: nat, col: nat, bytes: seq<u8>, color: u8)
    requires Offset(row, col + |bytes|, 80) <= |screen|
    ensures var result := PutRun(screen, row, col, bytes, color);
      (forall j | 0 <= j < |bytes| ::
        result[Offset(row, col + j, 80)] == bytes[j] && result[Offset(row, col + j, 80) + 1] == color)
      && (forall i | 0 <= i < |screen| && !(Offset(row, col, 80) <= i < Offset(row, col + |bytes|, 80)) ::
        result[i] == screen[i])
  {
    if bytes != [] {
      var last := |bytes| - 1;
      PutRunCells(screen, row, col, bytes[..last], color);
      var prev := PutRun(screen, row, col, bytes[..last], color);
      var result := PutRun(screen, row, col, bytes, color);
      var o := Offset(row, col + last, 80);
      assert result == PutCell(prev, o, bytes[last], color);
      forall j | 0 <= j < |bytes|
        ensures result[Offset(row, col + j, 80)] == bytes[j] && result[Offset(row, col + j, 80) + 1] == color
      {
        if j < last {
          assert bytes[..last][j] == bytes[j];
        }
      }
      forall i | 0 <= i < |screen| && !(Offset(row, col, 80) <= i < Offset(row, col + |bytes|, 80))
        ensures result[i] == screen[i]
      {
        assert i != o && i != o + 1;
      }
    }
  }

  /** `write_string`: the UTF-8 bytes of `s` written to consecutive cells from (row, col). */
  method WriteString(fb: array<u8>, row: nat, col: nat, s: string, color: u8)
    requires Offset(row, col + |Str.Encode(s)|, 80) <= fb.Length
    modifies fb
    ensures fb[..] == PutRun(old(fb[..]), row, col, Str.Encode(s), color)
  {
    var bytes := Str.Encode(s);
    for i := 0 to |bytes|
      invariant fb[..] == PutRun(old(fb[..]), row, col, bytes[..i], color)
    {
      assert bytes[..i + 1][..i] == bytes[..i];
      WriteChar(fb, row, col + i, bytes[i], color);
    }
    assert bytes[..|bytes|] == bytes;
  }
}
