/** The shared constants and the two cursor statics of the shell. */
module Constants {
  import opened Types

  const ROWS: nat := 25
  const COLS: nat := 80
  /** The prompt `$: `, as bytes. */
  const MSG: seq<u8> := [0x24, 0x3A, 0x20]
  /** The most lines of the boot logo that are laid out. */
  const MAX_LINES: nat := 10

  /** The `CURRENT_ROW` and `CURRENT_COL` statics, the position of the next key in the line buffer. */
  class Cursor {
    var row: nat
    var col: nat

    constructor ()
      ensures row == 0 && col == 0
    {
      row, col := 0, 0;
    }
  }
}
