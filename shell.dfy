/**
 * The shell of src/main.rs: the key de-duplication of `get_key`, the prompt
 * of `print_prompt`, the line editor `print_key` over the `BUFFER`,
 * `CURRENT_ROW` and `CURRENT_COL` statics, and the layout of `print_centered`.
 * The keyboard map `SCANCODE_MAP` is a parameter `keymap`, and the line that
 * `command_fn` is given on Enter is the parameter `line`.
 */
module Shell {
  import opened Types
  import opened Constants
  import Str
  import Vga
  import Datetime
  import Commands

  // ---------------------------------------------------------------------------
  // get_key

  /** The `LAST_SCANCODE` static of `get_key`. */
  class Keyboard {
    var last: u8

    constructor ()
      ensures last == 0
    {
      last := 0;
    }

    /** `get_key`, given the byte it reads from port 0x60: a key only when the scancode changed. */
    method GetKey(scancode: u8) returns (key: Option<u8>)
      modifies this
      ensures key.Some? <==> scancode != old(last)
      ensures key.Some? ==> key.value == scancode
      ensures last == scancode
    {
      if scancode != last {
        last := scancode;
        key := Some(scancode);
      } else {
        key := None;
      }
    }
  }

  /** The keys `get_key` reports for successive port reads, starting with `last` as the recorded scancode. */
  function Presses(last: u8, scans: seq<u8>): (keys: seq<u8>)
    ensures |keys| <= |scans|
    decreases |scans|
  {
    if scans == [] then []
    else if scans[0] != last then [scans[0]] + Presses(scans[0], scans[1..])
    else Presses(last, scans[1..])
  }

  /** A run of identical reads yields at most one key, so no key follows itself, and the first differs from `last`. */
  lemma {:induction false} PressesChange(last: u8, scans: seq<u8>)
    ensures var keys := Presses(last, scans);
      (keys != [] ==> keys[0] != last)
      && forall i | 0 <= i < |keys| - 1 :: keys[i] != keys[i + 1]
    decreases |scans|
  {
    if scans != [] {
      PressesChange(if scans[0] != last then scans[0] else last, scans[1..]);
    }
  }

  /** Holding a key down (the same scancode read again and again) reports it at most once. */
  lemma {:induction false} PressesHeld(last: u8, s: u8, n: nat)
    ensures Presses(last, seq(n, _ => s)) == if n > 0 && s != last then [s] else []
    decreases n
  {
    if n > 0 {
      var scans := seq(n, _ => s);
      assert scans[1..] == seq(n - 1, _ => s);
      PressesHeld(s, s, n - 1);
      if s == last {
        PressesHeld(last, s, n - 1);
      }
    }
  }

  // ---------------------------------------------------------------------------
  // print_prompt

  /** `msg` is in row `row` of the line buffer from column `col` on, and every other cell is as before. */
  twostate predicate Placed(buffer: array2<u8>, row: nat, col: nat, msg: seq<u8>)
    requires Vga.IsLineBuffer(buffer)
    reads buffer
  {
    forall r, c | 0 <= r < ROWS && 0 <= c < COLS ::
      buffer[r, c] == if r == row && col <= c < col + |msg| then msg[c - col] else old(buffer[r, c])
  }

  /** `print_prompt`: writes `$: ` into the line buffer at (row, col), shows the buffer, and returns the column after it. */
  method PrintPrompt(buffer: array2<u8>, fb: array<u8>, row: nat, col: nat, statusColor: u8) returns (next: nat)
    requires Commands.Screen(buffer, fb)
    requires row < ROWS && col + |MSG| <= COLS
    modifies buffer, fb
    ensures next == col + |MSG|
    ensures Placed(buffer, row, col, MSG)
    ensures fb[..] == Vga.Printed(old(fb[..]), buffer, statusColor)
  {
    for i := 0 to |MSG|
      invariant forall r, c | 0 <= r < ROWS && 0 <= c < COLS ::
        buffer[r, c] == if r == row && col <= c < col + i then MSG[c - col] else old(buffer[r, c])
      invariant fb[..] == old(fb[..])
    {
      buffer[row, col + i] := MSG[i];
    }
    Vga.PrintBuffer(fb, buffer, statusColor);
    next := col + |MSG|;
  }

  // ---------------------------------------------------------------------------
  // print_key

  /** A cell of the line buffer, or the position of the cursor (`CURRENT_ROW`, `CURRENT_COL`). */
  datatype Position = Position(row: nat, col: nat)

  /** What a key does in `print_key`. */
  datatype Key = Backspace | Enter | Insert(character: char) | Ignored

  /** Scancode 0x0E is backspace; otherwise the keyboard map decides, and `'\n'` is Enter. */
  function Classify(key: u8, keymap: u8 -> Option<char>): Key
  {
    if key == 0x0E then Backspace
    else match keymap(key)
      case None => Ignored
      case Some(character) => if character == '\n' then Enter else Insert(character)
  }

  /** `character as u8`: the low byte of the scalar value. */
  function LowByte(character: char): u8
  {
    (character as int % 256) as u8
  }

  /** The command of the line ends the machine (`reboot`, `shutdown`): `print_key` never continues after it. */
  predicate Halts(k: Key, line: string)
  {
    k == Enter && Commands.OutcomeOf(Commands.Dispatched(line)) in {Commands.Rebooted, Commands.PoweredOff}
  }

  /** The cursor (`CURRENT_ROW`, `CURRENT_COL`) after key `k`, for a line that does not halt; `clear`: the line was `clear`. */
  function Moved(k: Key, clear: bool, row: nat, col: nat): Position
  {
    match k
    case Backspace => if col > |MSG| then Position(row, col - 1) else Position(row, col)
    case Insert(_) =>
      if col < COLS then (if col > COLS - 2 then Position(row + 1, 1) else Position(row, col + 1)) else Position(row, col)
    case Enter => if clear then Position(0, |MSG|) else Position(row + 2, |MSG|)
    case Ignored => Position(row, col)
  }

  /** The editor never moves the cursor past column 79, and Enter always leaves it just after the prompt. */
  lemma MovedColumn(k: Key, clear: bool, row: nat, col: nat)
    requires col < COLS
    ensures Moved(k, clear, row, col).col < COLS
    ensures k == Enter ==> Moved(k, clear, row, col).col == 3
    ensures k.Insert? ==> Moved(k, clear, row, col).col >= 1
    ensures k == Backspace && col >= |MSG| ==> Moved(k, clear, row, col).col >= |MSG|
  {
  }

  /** Typing moves one cell right, except that a key typed in column 79 lands in column 0 of the next row. */
  lemma MovedInsert(character: char, row: nat, col: nat)
    requires col < COLS
    ensures Moved(Insert(character), false, row, col) == if col == COLS - 1 then Position(row + 1, 1) else Position(row, col + 1)
  {
  }

  /** The cell of the line buffer that `print_key` changes when it stores a typed character. */
  function InsertCell(row: nat, col: nat): Position
  {
    if col > COLS - 2 then Position(row + 1, 0) else Position(row, col)
  }

  /** What `print_key` may index without a panic: the cells it writes, and the rows `command_fn` and the prompt use. */
  predicate Accepts(k: Key, line: string, row: nat, col: nat)
  {
    match k
    case Backspace => col > |MSG| ==> row < ROWS && col < COLS
    case Insert(_) => col < COLS ==> InsertCell(row, col).row < ROWS
    case Enter =>
      || Commands.Dispatched(line) == Commands.Clear
      || (Halts(k, line) && row + 1 < ROWS)
      || row + 2 < ROWS
    case Ignored => true
  }

  /**
   * Cell (r, c) of the line buffer after key `k` in a line that does not halt,
   * given what it held before; on Enter, `clear` says whether the line was
   * `clear` and `reply` is what its command wrote otherwise.
   */
  function CellAfter(k: Key, clear: bool, reply: seq<u8>, row: nat, col: nat, r: nat, c: nat, before: u8): u8
  {
    match k
    case Backspace => if col > |MSG| && r == row && (c == col || c == col - 1) then 0 else before
    case Insert(character) =>
      if col < COLS && Position(r, c) == InsertCell(row, col) then LowByte(character) else before
    case Enter =>
      if clear then (if r == 0 && c < |MSG| then MSG[c] else 0)
      else if r == row + 2 && c < |MSG| then MSG[c]
      else if r == row + 1 && c < |reply| then reply[c]
      else before
    case Ignored => before
  }

  /** The line buffer holds, cell by cell, what `CellAfter` says. */
  twostate predicate Edited(buffer: array2<u8>, k: Key, clear: bool, reply: seq<u8>, row: nat, col: nat)
    requires Vga.IsLineBuffer(buffer)
    reads buffer
  {
    forall r, c | 0 <= r < ROWS && 0 <= c < COLS ::
      buffer[r, c] == CellAfter(k, clear, reply, row, col, r, c, old(buffer[r, c]))
  }

  /** Backspace: only after the prompt, blanks the cursor cell and the one before it and steps back. */
  method EraseKey(buffer: array2<u8>, cursor: Cursor)
    requires Vga.IsLineBuffer(buffer) && Accepts(Backspace, [], cursor.row, cursor.col)
    modifies buffer, cursor
    ensures Edited(buffer, Backspace, false, [], old(cursor.row), old(cursor.col))
    ensures Position(cursor.row, cursor.col) == Moved(Backspace, false, old(cursor.row), old(cursor.col))
  {
    if cursor.col > |MSG| {
      buffer[cursor.row, cursor.col] := 0;
      cursor.col := cursor.col - 1;
      buffer[cursor.row, cursor.col] := 0;
    }
  }

  /** A printable key: in a row with room, wraps from column 79 to the next row, stores the byte and steps right. */
  method InsertKey(buffer: array2<u8>, cursor: Cursor, character: char)
    requires Vga.IsLineBuffer(buffer) && Accepts(Insert(character), [], cursor.row, cursor.col)
    modifies buffer, cursor
    ensures Edited(buffer, Insert(character), false, [], old(cursor.row), old(cursor.col))
    ensures Position(cursor.row, cursor.col) == Moved(Insert(character), false, old(cursor.row), old(cursor.col))
  {
    if cursor.col < COLS {
      if cursor.col > COLS - 2 {
        cursor.col := 0;
        cursor.row := cursor.row + 1;
      }
      buffer[cursor.row, cursor.col] := LowByte(character);
      cursor.col := cursor.col + 1;
    }
  }

  /** Row `row` of the line buffer, or a blank row when there is none (only `clear` runs there). */
  function CurrentLine(buffer: array2<u8>, row: nat): (line: seq<u8>)
    requires Vga.IsLineBuffer(buffer)
    reads buffer
    ensures |line| == COLS
  {
    if row < ROWS then Commands.Line(buffer, row) else seq(COLS, _ => 0)
  }

  /** What the command of `line` writes below the current line on Enter, in clock state `now`. */
  function KeyReply(k: Key, line: string, now: Datetime.Moment, current: seq<u8>): (reply: seq<u8>)
    requires |current| == COLS
    ensures |reply| <= 20
  {
    var c := Commands.Dispatched(line);
    if k == Enter && c != Commands.Clear then Commands.Reply(c, now, current) else []
  }

  /** The screen after Enter, before the final redraw: the command's output, then the buffer printed over it. */
  function EnterScreen(screen: seq<u8>, clear: bool, reply: seq<u8>, row: nat, buffer: array2<u8>,
                       statusColor: u8): (result: seq<u8>)
    requires Vga.IsLineBuffer(buffer) && Vga.SCREEN_BYTES <= |screen| && |reply| <= COLS
    requires !clear ==> row + 2 <= ROWS
    reads buffer
    ensures |result| == |screen|
  {
    if clear then Vga.Printed(Vga.Cleared(screen, Vga.SCREEN_BYTES), buffer, statusColor)
    else Vga.Printed(Vga.PutRun(screen, row + 1, 0, reply, 0x07), buffer, statusColor)
  }

  /** Enter: runs the line, then (unless the machine is gone) moves down two rows or to the top and prints the prompt. */
  method EnterKey(buffer: array2<u8>, fb: array<u8>, clock: Datetime.DateTime, cursor: Cursor,
                  line: string, statusColor: u8) returns (halted: bool)
    requires Commands.Screen(buffer, fb) && Accepts(Enter, line, cursor.row, cursor.col)
    modifies buffer, fb, clock, cursor
    ensures halted <==> Halts(Enter, line)
    ensures var clear := Commands.Dispatched(line) == Commands.Clear;
      var reply := KeyReply(Enter, line, old(clock.Value()), old(CurrentLine(buffer, cursor.row)));
      && (clear ==> clock.Value() == old(clock.Value()))
      && (!clear ==>
           clock.Value() == Commands.ClockAfter(Commands.Dispatched(line), old(clock.Value()),
                                                old(CurrentLine(buffer, cursor.row))))
      && (halted ==>
           && old(cursor.row) + 1 < ROWS && Commands.Wrote(buffer, fb, old(cursor.row), reply)
           && cursor.row == old(cursor.row) && cursor.col == old(cursor.col))
      && (!halted ==>
           && Position(cursor.row, cursor.col) == Moved(Enter, clear, old(cursor.row), old(cursor.col))
           && Edited(buffer, Enter, clear, reply, old(cursor.row), old(cursor.col))
           && fb[..] == EnterScreen(old(fb[..]), clear, reply, old(cursor.row), buffer, statusColor))
  {
    var row := cursor.row;
    ghost var clear := Commands.Dispatched(line) == Commands.Clear;
    ghost var reply := KeyReply(Enter, line, clock.Value(), CurrentLine(buffer, row));
    var outcome := Commands.CommandFn(buffer, fb, clock, cursor, row, line);
    Commands.OutcomeCases(Commands.Dispatched(line));
    if outcome.Rebooted? || outcome.PoweredOff? {
      return true;
    }
    halted := false;
    if !outcome.reset {
      cursor.row := row + 2;
    } else {
      cursor.row := 0;
    }
    cursor.col := 0;
    label commanded:
    var col := PrintPrompt(buffer, fb, cursor.row, cursor.col, statusColor);
    cursor.col := col;
    forall r, c | 0 <= r < ROWS && 0 <= c < COLS
      ensures buffer[r, c] == CellAfter(Enter, clear, reply, row, old(cursor.col), r, c, old(buffer[r, c]))
    {
      if clear {
        assert old@commanded(buffer[r, c]) == 0;
      } else {
        assert old@commanded(buffer[r, c]) == if r == row + 1 && c < |reply| then reply[c] else old(buffer[r, c]);
      }
    }
  }

  /** The screen `print_key` ends with: cleared, the line buffer printed over it, and the cursor `_` drawn. */
  function Redrawn(screen: seq<u8>, buffer: array2<u8>, row: nat, col: nat, width: u16, height: u16,
                   statusColor: u8): (result: seq<u8>)
    requires Vga.IsLineBuffer(buffer)
    requires width * height * 2 <= |screen| && (row * width + col) * 2 + 1 < |screen|
    reads buffer
    ensures |result| == |screen|
  {
    Vga.PutCell(Vga.Printed(Vga.Cleared(screen, width * height * 2), buffer, statusColor),
                (row * width + col) * 2, '_' as int, 0x07)
  }

  /** What byte `i` of an 80x25 redraw shows: the cell's character, the status bar of row 24, or blank. */
  function ShownByte(i: nat, buffer: array2<u8>, statusColor: u8): u8
    requires Vga.IsLineBuffer(buffer) && i < Vga.SCREEN_BYTES
    reads buffer
  {
    Vga.PrintedByte(0, i, buffer, statusColor)
  }

  /**
   * When the cleared area covers the text screen, the redraw shows only the
   * line buffer and the cursor, whatever was on the screen before.
   */
  lemma RedrawnShows(screen: seq<u8>, buffer: array2<u8>, row: nat, col: nat, width: u16, height: u16,
                     statusColor: u8, i: nat)
    requires Vga.IsLineBuffer(buffer)
    requires width * height * 2 <= |screen| && (row * width + col) * 2 + 1 < |screen|
    requires Vga.SCREEN_BYTES <= width * height * 2 && i < Vga.SCREEN_BYTES
    ensures var result := Redrawn(screen, buffer, row, col, width, height, statusColor);
      result[i] ==
        if i == (row * width + col) * 2 then '_' as int
        else if i == (row * width + col) * 2 + 1 then 0x07
        else ShownByte(i, buffer, statusColor)
  {
  }

  method Redraw(fb: array<u8>, buffer: array2<u8>, row: nat, col: nat, width: u16, height: u16, statusColor: u8)
    requires Commands.Screen(buffer, fb)
    requires width * height * 2 <= fb.Length && (row * width + col) * 2 + 1 < fb.Length
    modifies fb
    ensures fb[..] == Redrawn(old(fb[..]), buffer, row, col, width, height, statusColor)
  {
    Vga.ClearScreen(fb, width, height);
    Vga.PrintBuffer(fb, buffer, statusColor);
    var offset := (row * width + col) * 2;
    fb[offset] := '_' as int;
    fb[offset + 1] := 0x07;
  }

  /** The redraw at the cursor after key `k` fits in the framebuffer. */
  predicate RedrawFits(k: Key, clear: bool, row: nat, col: nat, width: u16, height: u16, length: nat)
  {
    var next := Moved(k, clear, row, col);
    width * height * 2 <= length && (next.row * width + next.col) * 2 + 1 < length
  }

  /**
   * `print_key`: edits the line buffer for one key, runs the line on Enter,
   * and redraws the screen with the cursor; returns whether the line's command
   * (`reboot`, `shutdown`) ended the machine instead.
   */
  method PrintKey(key: u8, keymap: u8 -> Option<char>, line: string, width: u16, height: u16, statusColor: u8,
                  buffer: array2<u8>, fb: array<u8>, clock: Datetime.DateTime, cursor: Cursor)
    returns (halted: bool)
    requires Commands.Screen(buffer, fb)
    requires Accepts(Classify(key, keymap), line, cursor.row, cursor.col)
    requires !Halts(Classify(key, keymap), line) ==>
      RedrawFits(Classify(key, keymap), Commands.Dispatched(line) == Commands.Clear, cursor.row, cursor.col, width, height, fb.Length)
    modifies buffer, fb, clock, cursor
    ensures halted <==> Halts(Classify(key, keymap), line)
    ensures var k := Classify(key, keymap);
      var clear := k == Enter && Commands.Dispatched(line) == Commands.Clear;
      var reply := KeyReply(k, line, old(clock.Value()), old(CurrentLine(buffer, cursor.row)));
      && clock.Value() ==
           (if k == Enter && !clear
            then Commands.ClockAfter(Commands.Dispatched(line), old(clock.Value()), old(CurrentLine(buffer, cursor.row)))
            else old(clock.Value()))
      && (halted ==>
           && old(cursor.row) + 1 < ROWS && Commands.Wrote(buffer, fb, old(cursor.row), reply)
           && cursor.row == old(cursor.row) && cursor.col == old(cursor.col))
      && (!halted ==>
           && Position(cursor.row, cursor.col) == Moved(k, clear, old(cursor.row), old(cursor.col))
           && Edited(buffer, k, clear, reply, old(cursor.row), old(cursor.col))
           && fb[..] == Redrawn(if k == Enter then EnterScreen(old(fb[..]), clear, reply, old(cursor.row), buffer, statusColor)
                                else old(fb[..]),
                                buffer, cursor.row, cursor.col, width, height, statusColor))
  {
    var k := Classify(key, keymap);
    match k {
      case Backspace =>
        EraseKey(buffer, cursor);
      case Insert(character) =>
        InsertKey(buffer, cursor, character);
      case Enter =>
        halted := EnterKey(buffer, fb, clock, cursor, line, statusColor);
        if halted {
          return;
        }
      case Ignored =>
    }
    halted := false;
    Redraw(fb, buffer, cursor.row, cursor.col, width, height, statusColor);
  }

  // ---------------------------------------------------------------------------
  // print_centered

  /** The lines `print_centered` lays out: the pieces of `msg` between `\n` bytes, the first MAX_LINES of them. */
  function KeptLines(msg: seq<u8>): (lines: seq<seq<u8>>)
    ensures 1 <= |lines| <= MAX_LINES
    ensures |lines| == if |Str.Split(msg, 0x0A)| < MAX_LINES then |Str.Split(msg, 0x0A)| else MAX_LINES
    ensures forall k | 0 <= k < |lines| :: lines[k] == Str.Split(msg, 0x0A)[k]
  {
    var parts := Str.Split(msg, 0x0A);
    if |parts| <= MAX_LINES then parts else parts[..MAX_LINES]
  }

  /** `height / 2 - (line_count as u16 / 2)`; the `u16` subtraction must not underflow. */
  function StartRow(height: u16, count: nat): nat
    requires count / 2 <= height / 2
  {
    height / 2 - count / 2
  }

  /** `(width / 2).saturating_sub(line_len / 2)`, where `line_len` is the length cut to `u16`. */
  function StartCol(width: u16, len: nat): nat
  {
    var half := (len % 0x1_0000) / 2;
    if half <= width / 2 then width / 2 - half else 0
  }

  /** The framebuffer offset of the first byte of line `k`. */
  function LineOffset(width: u16, startRow: nat, k: nat, len: nat): nat
  {
    ((startRow + k) * width + StartCol(width, len)) * 2
  }

  /** A line no wider than the screen sits in the middle of its row: half of it on each side of column width / 2. */
  lemma CenteredColumns(width: u16, len: nat)
    requires len <= width
    ensures StartCol(width, len) + len / 2 == width / 2
    ensures StartCol(width, len) + len <= width
  {
  }

  /** A line wider than twice the screen's middle starts at column 0. */
  lemma WideLine(width: u16, len: nat)
    requires len < 0x1_0000 && width / 2 < len / 2
    ensures StartCol(width, len) == 0
  {
  }

  /** No more lines than the screen has rows are centred vertically, and all of them fit. */
  lemma CenteredRows(height: u16, count: nat)
    requires count <= height
    ensures count / 2 <= height / 2
    ensures StartRow(height, count) + count / 2 == height / 2
    ensures StartRow(height, count) + count <= height
  {
  }

  /** `bytes[j]` at `offset + 2j` with `color` after it, as `print_centered` writes one line. */
  function PutBytes(screen: seq<u8>, offset: nat, bytes: seq<u8>, color: u8): (result: seq<u8>)
    requires offset + 2 * |bytes| <= |screen|
    ensures |result| == |screen|
  {
    if bytes == [] then screen
    else
      var last := |bytes| - 1;
      Vga.PutCell(PutBytes(screen, offset, bytes[..last], color), offset + 2 * last, bytes[last], color)
  }

  /** The bytes of a line land two apart from its offset, and nothing outside its span changes. */
  lemma {:induction false} PutBytesCells(screen: seq<u8>, offset: nat, bytes: seq<u8>, color: u8)
    requires offset + 2 * |bytes| <= |screen|
    ensures var result := PutBytes(screen, offset, bytes, color);
      (forall j | 0 <= j < |bytes| :: result[offset + 2 * j] == bytes[j] && result[offset + 2 * j + 1] == color)
      && (forall i | 0 <= i < |screen| && !(offset <= i < offset + 2 * |bytes|) :: result[i] == screen[i])
  {
    if bytes != [] {
      var last := |bytes| - 1;
      PutBytesCells(screen, offset, bytes[..last], color);
      var result := PutBytes(screen, offset, bytes, color);
      forall j | 0 <= j < |bytes|
        ensures result[offset + 2 * j] == bytes[j] && result[offset + 2 * j + 1] == color
      {
        if j < last {
          assert bytes[..last][j] == bytes[j];
        }
      }
    }
  }

  /** Every laid-out line fits in the framebuffer. */
  predicate LinesFit(lines: seq<seq<u8>>, width: u16, startRow: nat, length: nat)
  {
    forall k | 0 <= k < |lines| :: LineOffset(width, startRow, k, |lines[k]|) + 2 * |lines[k]| <= length
  }

  /** The screen after the first `n` lines have been written, each in yellow (0x0e). */
  function CenteredUpTo(screen: seq<u8>, lines: seq<seq<u8>>, width: u16, startRow: nat, n: nat): (result: seq<u8>)
    requires n <= |lines| && LinesFit(lines, width, startRow, |screen|)
    ensures |result| == |screen|
  {
    if n == 0 then screen
    else
      PutBytes(CenteredUpTo(screen, lines, width, startRow, n - 1),
               LineOffset(width, startRow, n - 1, |lines[n - 1]|), lines[n - 1], 0x0e)
  }

  /** A byte outside the span of every line is never written. */
  lemma {:induction false} CenteredOutside(screen: seq<u8>, lines: seq<seq<u8>>, width: u16, startRow: nat, n: nat,
                                           i: nat)
    requires n <= |lines| && LinesFit(lines, width, startRow, |screen|) && i < |screen|
    requires forall k | 0 <= k < n ::
      !(LineOffset(width, startRow, k, |lines[k]|) <= i < LineOffset(width, startRow, k, |lines[k]|) + 2 * |lines[k]|)
    ensures CenteredUpTo(screen, lines, width, startRow, n)[i] == screen[i]
  {
    if n > 0 {
      CenteredOutside(screen, lines, width, startRow, n - 1, i);
      PutBytesCells(CenteredUpTo(screen, lines, width, startRow, n - 1),
                    LineOffset(width, startRow, n - 1, |lines[n - 1]|), lines[n - 1], 0x0e);
    }
  }

  /** The last line written shows whole, in yellow. */
  lemma CenteredLast(screen: seq<u8>, lines: seq<seq<u8>>, width: u16, startRow: nat, n: nat, j: nat)
    requires 0 < n <= |lines| && LinesFit(lines, width, startRow, |screen|) && j < |lines[n - 1]|
    ensures var offset := LineOffset(width, startRow, n - 1, |lines[n - 1]|);
      var result := CenteredUpTo(screen, lines, width, startRow, n);
      result[offset + 2 * j] == lines[n - 1][j] && result[offset + 2 * j + 1] == 0x0e
  {
    PutBytesCells(CenteredUpTo(screen, lines, width, startRow, n - 1),
                  LineOffset(width, startRow, n - 1, |lines[n - 1]|), lines[n - 1], 0x0e);
  }

  /** What `print_centered` needs of its input: no `u16` underflow and every line inside the framebuffer. */
  predicate CenteredFits(msg: seq<u8>, width: u16, height: u16, length: nat)
  {
    var lines := KeptLines(msg);
    |lines| / 2 <= height / 2 && LinesFit(lines, width, StartRow(height, |lines|), length)
  }

  /** The first loop of `print_centered`: copies up to MAX_LINES pieces of the split into a fixed array. */
  method CollectLines(msg: seq<u8>) returns (lines: array<seq<u8>>, lineCount: nat)
    ensures fresh(lines) && lines.Length == MAX_LINES
    ensures lineCount <= MAX_LINES && lines[..lineCount] == KeptLines(msg)
  {
    var parts := Str.Split(msg, 0x0A);
    lines := new seq<u8>[MAX_LINES](_ => []);
    lineCount := 0;
    for p := 0 to |parts|
      invariant lineCount == if p < MAX_LINES then p else MAX_LINES
      invariant forall k | 0 <= k < lineCount :: lines[k] == parts[k]
    {
      if lineCount < MAX_LINES {
        lines[lineCount] := parts[p];
        lineCount := lineCount + 1;
      }
    }
  }

  /** The inner loop of `print_centered`: byte `i` of the line at `(row * width + start_col + i) * 2`, yellow after it. */
  method PutLine(fb: array<u8>, line: seq<u8>, row: nat, width: u16, startCol: nat)
    requires (row * width + startCol) * 2 + 2 * |line| <= fb.Length
    modifies fb
    ensures fb[..] == PutBytes(old(fb[..]), (row * width + startCol) * 2, line, 0x0e)
  {
    ghost var base := (row * width + startCol) * 2;
    for i := 0 to |line|
      invariant fb[..] == PutBytes(old(fb[..]), base, line[..i], 0x0e)
    {
      assert line[..i + 1][..i] == line[..i];
      var offset := (row * width + startCol + i) * 2;
      assert offset == base + 2 * i;
      fb[offset] := line[i];
      fb[offset + 1] := 0x0e;
    }
    assert line[..|line|] == line;
  }

  /** `print_centered`: collects up to MAX_LINES lines, then writes each centred, rows from the middle of the screen. */
  method PrintCentered(fb: array<u8>, msg: seq<u8>, width: u16, height: u16)
    requires CenteredFits(msg, width, height, fb.Length)
    modifies fb
    ensures var lines := KeptLines(msg);
      fb[..] == CenteredUpTo(old(fb[..]), lines, width, StartRow(height, |lines|), |lines|)
  {
    var lines, lineCount := CollectLines(msg);
    ghost var kept := KeptLines(msg);
    var startRow := height / 2 - lineCount / 2;
    assert startRow == StartRow(height, |kept|) && LinesFit(kept, width, startRow, fb.Length);
    for k := 0 to lineCount
      modifies fb
      invariant fb[..] == CenteredUpTo(old(fb[..]), kept, width, startRow, k)
    {
      var line := lines[k];
      assert line == kept[k];
      var lineLen := |line| % 0x1_0000;
      var startCol := if lineLen / 2 <= width / 2 then width / 2 - lineLen / 2 else 0;
      var row := startRow + k;
      assert (row * width + startCol) * 2 == LineOffset(width, startRow, k, |line|);
      PutLine(fb, line, row, width, startCol);
    }
  }
}
