# NeonForge kernel core, modelled in Dafny

NeonForge is a toy x86 kernel written in Rust. This project models its
sequential core and proves properties of it:

- the shell on the VGA text screen: key de-duplication, the line editor, the prompt and the centred boot logo;
- the command dispatcher and its nine commands;
- the calendar clock and the older time-only clock;
- the timer and keyboard interrupt handlers, the 8259A PIC driver and the PIT programming;
- the round-robin task executor;
- the GPIO register block;
- the raw-disk helpers: the ATA READ SECTORS command, the FAT boot-sector check and the free-cluster count.

Hardware is plain state in the model:

- The framebuffer at 0xb8000 is a byte `array`.
- The line buffer `BUFFER` is a 25x80 `array2`.
- I/O ports are a `PortBus` object whose `log` records, in order, every `out` and the keyboard interrupt handler's read of port 0x60.
- The GPIO registers are arrays of `bv32`.
- A disk is a function from sector number to 512 bytes.
- The statics (`CURRENT_ROW`/`CURRENT_COL`, `LAST_SCANCODE`, `TICKS`, `CURRENT_TIME`, `PICS`, the IDT) are fields of classes, and handlers and commands are methods that update them.

Rust `u8`/`u16` arithmetic is modelled with bounded subset types. The `+= 1` steps that would panic on overflow become preconditions, stated through the `NoOverflow` predicates.

Each file models one source file:

| Dafny file | models |
|---|---|
| `types.dfy` | `u8`, `u16`, `u32`, `Option`, `Result` |
| `ports.dfy` | port I/O, as an access log |
| `str.dfy` | the parts of `core::str` the commands rely on |
| `constants.dfy` | `src/constants.rs` |
| `datetime.dfy` | `src/datetime.rs` |
| `time.dfy` | `src/time.rs` |
| `pic.dfy` | `src/pic.rs` |
| `interrupts.dfy` | `src/interrupts.rs` |
| `executor.dfy` | `src/executor.rs` |
| `vga.dfy` | `src/vga.rs` |
| `commands.dfy` | `src/commands.rs` |
| `shell.dfy` | `src/main.rs` |
| `gpio.dfy` | `src/gpio.rs` |
| `disk.dfy` | `test.rs` |

The `core::str` parts are UTF-8, `trim`, `find`, `split`, `parse::<u8/u16>` and `{:0N}` formatting.

Behaviour of the code as written that the model makes explicit:

- The command name is the text before the first space, trimmed, with NUL and ASCII-whitespace bytes removed.
  - A line that starts with a space therefore always runs `error_action` (`Commands.LeadingSpace`).
- `time_set` and `date_set` parse a fixed window of the line: bytes 12..20 and 12..22.
  - `time_set 1:2:3` leaves three NUL bytes in that window. `trim` keeps them, so the command is rejected (`Commands.ShortTimeRejected`).
  - Every time up to 99:99:99 that `time` can print is accepted back (`Commands.TimeRoundTrip`). No range check is made.
- Both interrupt handlers pass the vector number (32 or 33), not the IRQ line, to `notify_end_of_interrupt`. Each handler therefore sends a slave EOI and then a master EOI (`Interrupts.VectorsAndEois`).
- `print_centered` cuts each line length to `u16` before halving it, and the column is computed with a saturating subtraction.
- `read_sector` truncates the sector to `u32` and sends only its low 28 bits. Sectors 2^32 apart read alike (`Disk.SectorWraps`).

## Model

| member | source | states |
|---|---|---|
| Datetime.DaysInMonth | src/datetime.rs:50-76 | 31 days exactly for months 1,3,5,7,8,10,12; 30 for 4,6,9,11 and any month outside 1..12; 29 or 28 for February as the year is a Gregorian leap year or not |
| Datetime.DateTime.constructor | src/datetime.rs:15-22 | the clock starts at 12:00:00 on 01.01.2023 |
| Datetime.DateTime.Update | src/datetime.rs:25-47 | `update` leaves the moment `Advance` gives: one second later, carried through minutes, hours, day, month and year |
| Datetime.DateTime.GetTime | src/datetime.rs:78-81 | returns hours, minutes, seconds of the clock |
| Datetime.DateTime.GetDate | src/datetime.rs:83-86 | returns day, month, year of the clock |
| Datetime.DateTime.SetTime | src/datetime.rs:88-93 | overwrites exactly the three time fields, with no range check |
| Datetime.DateTime.SetDate | src/datetime.rs:95-100 | overwrites exactly the three date fields, with no range check |
| Datetime.MonthsFillYear | src/datetime.rs:50-76 | the twelve month lengths add up to 366 days in a leap year, 365 otherwise |
| Datetime.ValidNoOverflow | src/datetime.rs:25-47 | from an in-range clock with year below 65535, no `+= 1` of `update` overflows |
| Datetime.AdvanceIsNextSecond | src/datetime.rs:25-47 | from an in-range clock, `update` gives an in-range clock exactly one second later on the time line |
| Datetime.OrdinalInjective | src/datetime.rs:5-12 | distinct in-range clocks are distinct seconds of the time line |
| Datetime.AdvanceIsUniqueSuccessor | src/datetime.rs:25-47 | the in-range clock one second later is the one `update` produces, and no other |
| Datetime.AdvanceWithinMinute | src/datetime.rs:25-27 | below 59 seconds `update` only increments the seconds |
| Datetime.EndOfFebruary2024 | src/datetime.rs:33-42 | 23:59:59 28.02.2024 is followed by 00:00:00 29.02.2024 |
| Datetime.EndOfYear | src/datetime.rs:36-42 | 23:59:59 31.12.Y is followed by 00:00:00 01.01.(Y+1) |
| Datetime.InitialValid | src/datetime.rs:15-22 | the initial clock is in range and can be advanced |
| TimeOfDay.RolloverIsNextSecond | src/time.rs:50-62 | on an in-range time the handler's rollover stays in range and adds one second modulo a day |
| TimeOfDay.LastSecondOfDay | src/time.rs:58-60 | 23:59:59 rolls over to 00:00:00 |
| TimeOfDay.AgreesWithCalendar | src/time.rs:50-62 | the time-only rollover agrees with the calendar clock's `update` on the time fields |
| TimeOfDay.InitPit | src/time.rs:83-94 | `init_pit` appends exactly its three port writes to the log |
| TimeOfDay.PitProgramming | src/time.rs:83-94 | the writes are 0x34 to port 0x43, then 0xA9 and 0x04 to port 0x40, and low + 256 * high is the reload value 1193 |
| TimeOfDay.TimeKeeper.constructor | src/time.rs:18-26 | ticks start at 0 and the time at 00:00:00 |
| TimeOfDay.TimeKeeper.PitInterrupt | src/time.rs:45-69 | ticks go up by one; the time rolls over exactly when the new count is a multiple of 1000; then the timer EOI is written |
| TimeOfDay.TimeKeeper.GetTime | src/time.rs:110-113 | returns a copy of the time |
| TimeOfDay.TimeKeeper.SetTime | src/time.rs:115-120 | overwrites exactly the three fields, ticks untouched |
| Pic.ChainedPics.Initialize | src/pic.rs:23-38 | appends exactly the eight ICW writes to the log |
| Pic.ChainedPics.NotifyEndOfInterrupt | src/pic.rs:40-45 | appends exactly the EOI writes for `irq` to the log |
| Pic.New | src/pic.rs:14-21 | the ports are 0x20/0x21 (master) and 0xA0/0xA1 (slave) |
| Pic.NewIgnoresOffsets | src/pic.rs:14-21 | the offsets passed to `new` change nothing |
| Pic.OffsetsLayout | src/pic.rs:3-4 | PIC_2_OFFSET is PIC_1_OFFSET + 8 = 40, and both offsets lie above the CPU exceptions |
| Pic.EoiFromSlave | src/pic.rs:40-45 | for irq >= 8: 0x20 to port 0xA0, then 0x20 to port 0x20 |
| Pic.EoiFromMaster | src/pic.rs:40-45 | for irq < 8: a single 0x20 to port 0x20 |
| Pic.InitProtocol | src/pic.rs:23-38 | `initialize` writes 0x11 to 0x20 and 0xA0, then 32, 4, 1 to 0x21 and 40, 2, 1 to 0xA1, interleaved; ICW1 reaches both command ports before any data-port write |
| Interrupts.InterruptIndex.AsU8 | src/interrupts.rs:13-21 | the vectors lie in the master's range: Timer at offset 0, Keyboard at offset 1 |
| Interrupts.Kernel.constructor | src/interrupts.rs:7-9 | ticks start at 0, the IDT is empty and the PICs are `ChainedPics::new(32, 40)` |
| Interrupts.Kernel.PitInterrupt | src/interrupts.rs:28-40 | ticks go up by one; the clock advances exactly when the new count is a multiple of 1000; exactly one timer EOI follows; the invariant updates == ticks / 1000 is kept |
| Interrupts.Kernel.KeyboardInterrupt | src/interrupts.rs:42-52 | one read of port 0x60, then the keyboard EOI; ticks and clock untouched |
| Interrupts.Kernel.InitIdt | src/interrupts.rs:54-62 | registers the timer handler at 32 and the keyboard handler at 33, then the PIC initialisation writes follow |
| Interrupts.UpdatesStep | src/interrupts.rs:31-34 | one more tick moves ticks / 1000 exactly when it lands on a multiple of 1000 |
| Interrupts.UpdatesDuringCount | src/interrupts.rs:31-34 | over N timer interrupts from tick t0 the clock advances once per multiple of 1000 in (t0, t0 + N] |
| Interrupts.VectorsAndEois | src/interrupts.rs:36-50 | the vectors are 32 and 33, and each handler's EOI is slave-then-master |
| Executor.Polled | src/executor.rs:33-35 | a pending task keeps its identity and owes one poll less |
| Executor.StepConsumesOnePoll | src/executor.rs:30-38 | one step of a non-empty queue consumes exactly one owed poll |
| Executor.StepEmpty | src/executor.rs:30-31 | a step on the empty queue changes nothing |
| Executor.StepLeavesOnlyWhenReady | src/executor.rs:30-38 | the queue shrinks exactly when the front task is ready; a pending one goes to the back, the rest keep their order |
| Executor.ScheduleLength | src/executor.rs:20-28 | `run` polls exactly as often as the tasks need in total |
| Executor.ScheduleCounts | src/executor.rs:20-28 | every task is polled exactly as often as it needs |
| Executor.ScheduleRoundRobin | src/executor.rs:20-28 | the first round polls the queued tasks once each, front to back |
| Executor.TwoTaskExample | src/executor.rs:20-28 | T1 needing one poll and T2 needing three are polled T1, T2, T2, T2 |
| Executor.Executor.constructor | src/executor.rs:10-14 | the queue starts empty |
| Executor.Executor.Spawn | src/executor.rs:16-18 | the task is appended at the back, earlier tasks unchanged |
| Executor.Executor.RunUntilIdle | src/executor.rs:30-38 | one pop-poll-requeue step, polling the front task if there is one |
| Executor.Executor.Run | src/executor.rs:20-28 | returns with an empty queue, having polled tasks in the round-robin schedule |
| Vga.PutCell | src/vga.rs:11-12 | the character at the offset, the colour after it, every other byte unchanged |
| Vga.WriteChar | src/vga.rs:3-14 | `write_char` writes bytes (row * 80 + col) * 2 and +1, nothing else |
| Vga.Cleared | src/vga.rs:16-23 | the first n bytes are 0, the others unchanged |
| Vga.ClearScreen | src/vga.rs:16-23 | `clear_screen(w, h)` zeroes exactly bytes 0 .. w * h * 2 |
| Vga.PrintBuffer | src/vga.rs:25-45 | `print_buffer` leaves exactly the `Printed` screen |
| Vga.PrintedCells | src/vga.rs:29-42 | each non-zero buffer cell is shown with 0x07; a zero cell of row 24 shows `_` in the status colour; any other zero cell keeps the old screen |
| Vga.PutRunCells | src/vga.rs:47-51 | byte j of a run lands at column col + j of the row, and nothing outside the run changes |
| Vga.WriteString | src/vga.rs:47-51 | the UTF-8 bytes of the string go to consecutive cells from (row, col) |
| Str.EncodeAppend | src/commands.rs:62 | UTF-8 encoding distributes over concatenation |
| Str.EncodeCharDecodes | src/commands.rs:62 | one scalar value's encoding decodes back to it |
| Str.DecodeEncode | src/commands.rs:62 | `from_utf8` of `as_bytes` gives the string back |
| Str.EncodeAscii | src/commands.rs:205 | ASCII text encodes byte for byte |
| Str.TrimStartSpec | src/commands.rs:201 | `trim_start` drops a whitespace-only prefix, and what is left does not start with whitespace |
| Str.TrimEndSpec | src/commands.rs:201 | `trim_end` drops a whitespace-only suffix, and what is left does not end with whitespace |
| Str.TrimNoop | src/commands.rs:201 | trimming text with no whitespace at either end changes nothing |
| Str.IndexOf | src/commands.rs:196 | `find` gives the first occurrence, or None when there is none |
| Str.Before | src/commands.rs:196-199 | the prefix before the first separator, or the whole line |
| Str.SplitJoin | src/commands.rs:64 | joining the split pieces gives back the input, and no piece holds the separator |
| Str.JoinOfSplit | src/commands.rs:64 | joining the split pieces with the separator gives back the input |
| Str.SplitPiecesFree | src/commands.rs:64 | no piece of a split holds the separator |
| Str.SplitOfJoin | src/commands.rs:95 | splitting separator-free pieces joined by the separator gives back the pieces |
| Str.ParseZeroPadded | src/commands.rs:67-68 | parsing undoes zero-padded formatting of any value that fits |
| Str.ParsePlusSign | src/commands.rs:98-99 | a leading `+` is accepted |
| Str.ParseRejects | src/commands.rs:98-99 | the empty string, a lone sign, a minus, a NUL after the digits and 256 for `u8` are rejected |
| Str.DecimalLength | src/commands.rs:35 | below 10^k a number has at most k digits |
| Commands.TableComplete | src/commands.rs:211-221 | every command is in the table under a name no other command has |
| Commands.KeptBytes | src/commands.rs:204-209 | every byte kept is neither NUL nor ASCII whitespace, and no more bytes come out than went in |
| Commands.KeptBytesIdentity | src/commands.rs:204-209 | the filter leaves a byte string unchanged exactly when it has no NUL and no ASCII whitespace |
| Commands.KeptBytesIdempotent | src/commands.rs:204-209 | filtering twice is filtering once |
| Commands.KeptBytesOne | src/commands.rs:204-209 | a single byte is kept exactly when it is neither NUL nor ASCII whitespace |
| Commands.KeptBytesAppend | src/commands.rs:204-209 | filtering a concatenation is concatenating the filtered parts, so with KeptBytesOne every name byte is kept, in order, and every other byte dropped |
| Commands.KeptBytesDropsInterior | src/commands.rs:204-209 | a NUL or ASCII whitespace byte between two runs of name bytes is dropped and both runs are kept whole |
| Commands.FilterName | src/commands.rs:204-209 | the loop builds exactly the filtered bytes |
| Commands.ParsedName | src/commands.rs:195-209 | the name looked up holds only name bytes |
| Commands.LookupIn | src/commands.rs:223-233 | a found entry is in the table and has the name; when none is found, no entry has it |
| Commands.LookupExact | src/commands.rs:223-233 | a name is found exactly when it is a command's name, and then it is that command |
| Commands.FindCommand | src/commands.rs:223-233 | the dispatch loop returns the first table entry with the name |
| Commands.ParsedWord | src/commands.rs:195-209 | a single ASCII word with no space, NUL or whitespace is its own name |
| Commands.ParsedSpaceFree | src/commands.rs:195-209 | for an ASCII line with no space and no whitespace at its ends, the name is the filtered bytes of the whole line |
| Commands.ParsedDropsInterior | src/commands.rs:195-209 | a NUL, tab, line feed, form feed or carriage return inside a word is dropped from the name and every other byte kept |
| Commands.DispatchWord | src/commands.rs:223-236 | such a word runs the command of that name, or `error_action` |
| Commands.HelloSelected | src/commands.rs:223-236 | the line `hello` runs `hello_action` |
| Commands.HellRejected | src/commands.rs:223-236 | the line `hell` runs `error_action` |
| Commands.TabInName | src/commands.rs:195-236 | the line `hel\tlo` runs `hello_action`, the tab being filtered out |
| Commands.LeadingSpace | src/commands.rs:196-201 | a line that starts with a space runs `error_action` |
| Commands.FormatTimeLength | src/commands.rs:35 | the `time` reply is at most 11 bytes, exactly 8 for fields below 100 |
| Commands.FormatDateLength | src/commands.rs:48 | the `date` reply is at most 13 bytes, exactly 10 for a two-digit day and month and a four-digit year |
| Commands.SplitTime | src/commands.rs:35 | the `time` reply splits at `:` into its three zero-padded fields |
| Commands.SplitDate | src/commands.rs:48 | the `date` reply splits at `.` into its three zero-padded fields |
| Commands.WindowOfDigits | src/commands.rs:93 | a window of digit-edged text decodes and trims to that text |
| Commands.TimeRoundTrip | src/commands.rs:89-101 | what `time` prints for fields below 100 fills the 8-byte window and `time_set` parses it back to the same fields |
| Commands.DateRoundTrip | src/commands.rs:58-70 | what `date` prints fills the 10-byte window and `date_set` parses it back |
| Commands.Unpadded | src/commands.rs:93 | a window holding the encoding of unpadded text reads back as that text |
| Commands.ShortTimeRejected | src/commands.rs:91-99 | `1:2:3` followed by three NULs in the window is not a time |
| Commands.OutcomeCases | src/commands.rs:139-192 | only `reboot` and `shutdown` end the machine; of the rest only `clear` returns true |
| Commands.WithTime | src/commands.rs:97-101 | parsed fields become the time and the date is kept; unparsed arguments leave the clock unchanged |
| Commands.WithDate | src/commands.rs:66-70 | parsed fields become the date and the time is kept; unparsed arguments leave the clock unchanged |
| Commands.WriteMessage | src/commands.rs:24-27 | byte i goes to `buffer[row + 1][i]` and to cell (row + 1, i) in 0x07; no other buffer cell or screen byte changes |
| Commands.HelloAction | src/commands.rs:21-30 | writes `HELLO!` below the line and returns false |
| Commands.TimeAction | src/commands.rs:32-43 | writes the zero-padded `HH:MM:SS` of the clock and returns false |
| Commands.DateAction | src/commands.rs:45-56 | writes the zero-padded `DD.MM.YYYY` of the clock and returns false |
| Commands.ApplyTime | src/commands.rs:97-101 | stores parsed time fields into the clock, or leaves it unchanged |
| Commands.ApplyDate | src/commands.rs:66-70 | stores parsed date fields into the clock, or leaves it unchanged |
| Commands.TimeSetAction | src/commands.rs:89-118 | sets the time from window 12..20 and writes `Time set!` when three `u8` fields parse; otherwise writes `Invalid time format!` with the clock unchanged |
| Commands.DateSetAction | src/commands.rs:58-87 | sets the date from window 12..22 and writes `Date set!` when `u8`, `u8`, `u16` fields parse; otherwise writes `Invalid date format!` with the clock unchanged |
| Commands.ErrorAction | src/commands.rs:120-129 | writes `Error: command` and returns false |
| Commands.RebootAction | src/commands.rs:131-137 | writes `Rebooting...`, then the machine resets |
| Commands.ShutdownAction | src/commands.rs:150-156 | writes `Shutting down...`, then the machine powers off |
| Commands.ClearAction | src/commands.rs:177-193 | zeroes the 80x25 screen and every buffer cell, sets the cursor to (0, 0), returns true |
| Commands.RunAction | src/commands.rs:227 | runs the action paired with the command: its reply, clock change and flag |
| Commands.CommandFn | src/commands.rs:195-237 | runs the action for the parsed name (or `error_action`); returns true exactly for `clear`; writes that reply and makes that clock change |
| Constants.Cursor.constructor | src/constants.rs:6-7 | the cursor starts at (0, 0) |
| Shell.Keyboard.constructor | src/main.rs:147 | the last scancode starts at 0 |
| Shell.Keyboard.GetKey | src/main.rs:143-157 | a key is reported exactly when the scancode differs from the last one, it is that scancode, and it is recorded |
| Shell.Presses | src/main.rs:143-157 | a run of reads reports at most one key per read |
| Shell.PressesChange | src/main.rs:149-155 | no reported key equals the one before it, and the first differs from the recorded scancode |
| Shell.PressesHeld | src/main.rs:149-155 | a key held down is reported at most once |
| Shell.PrintPrompt | src/main.rs:124-135 | returns col + 3, writes `$: ` at (row, col..col+3) and no other buffer cell, then the screen shows the buffer |
| Shell.MovedColumn | src/main.rs:161-189 | the cursor never passes column 79, Enter leaves it at 3, and backspace never enters the prompt |
| Shell.MovedInsert | src/main.rs:182-189 | typing steps one column right; in column 79 the character goes to column 0 of the next row |
| Shell.EraseKey | src/main.rs:161-167 | after the prompt, backspace zeroes the cursor cell and the one before and moves back one; otherwise nothing changes |
| Shell.InsertKey | src/main.rs:182-189 | with col < 80, stores the character (wrapping from column 79 to the next row) and moves right |
| Shell.EnterKey | src/main.rs:169-180 | runs the line; reboot and shutdown stop; otherwise row + 2 (or 0 after `clear`), the prompt, and col 3 |
| Shell.Redraw | src/main.rs:197-209 | clears, prints the buffer and draws `_` in 0x07 at the cursor |
| Shell.RedrawnShows | src/main.rs:197-209 | when the cleared area covers the screen, the redraw shows only the buffer and the cursor |
| Shell.PrintKey | src/main.rs:159-211 | one key: the edit, the cursor move and the command run its kind calls for, then the redraw at the new cursor |
| Shell.KeptLines | src/main.rs:65-74 | at most 10 lines, the first pieces of the message between line feeds |
| Shell.CenteredColumns | src/main.rs:79-80 | a line no wider than the screen is centred: half on each side of width / 2 |
| Shell.WideLine | src/main.rs:79-80 | a line wider than the screen's middle starts at column 0 |
| Shell.CenteredRows | src/main.rs:76 | start_row = h/2 - lines/2 centres the lines vertically, and they fit |
| Shell.PutBytesCells | src/main.rs:83-90 | byte j of a line lands at offset + 2j with its colour after it; nothing outside the line changes |
| Shell.CenteredOutside | src/main.rs:78-91 | bytes outside every line's span are never written |
| Shell.CenteredLast | src/main.rs:78-91 | the last line written shows whole, in yellow 0x0e |
| Shell.CollectLines | src/main.rs:65-74 | the first loop stores exactly the kept lines |
| Shell.PutLine | src/main.rs:83-90 | the inner loop writes the line's bytes two apart in 0x0e |
| Shell.PrintCentered | src/main.rs:64-92 | each kept line is written at its centred row and column, in order |
| Gpio.SetFieldSets | src/gpio.rs:20 | after `set_mode` the pin's 3-bit field holds mode & 7 |
| Gpio.SetFieldKeeps | src/gpio.rs:20 | every bit outside the field keeps its value |
| Gpio.SetFieldIdempotent | src/gpio.rs:20 | setting the same mode twice is setting it once |
| Gpio.SetFieldOverwrite | src/gpio.rs:20 | the last mode written wins |
| Gpio.SetFieldOther | src/gpio.rs:20 | another pin's field in the same register keeps its value |
| Gpio.PinMaskBit | src/gpio.rs:26 | the pin mask has exactly the pin's own bit set |
| Gpio.GpioBlock.constructor | src/gpio.rs:4-15 | the block has 6 function-select, 2 set, 2 clear and 2 level registers |
| Gpio.GpioBlock.SetMode | src/gpio.rs:17-21 | only `fsel[pin / 10]` changes, to the register with the pin's field set to the mode |
| Gpio.GpioBlock.Write | src/gpio.rs:23-29 | true stores the pin mask into `set[pin / 32]` and leaves `clr`; false stores it into `clr[pin / 32]` and leaves `set` |
| Gpio.GpioBlock.Read | src/gpio.rs:31-33 | true exactly when bit pin % 32 of `lev[pin / 32]` is set |
| Disk.JoinSplit | test.rs:40-42 | splitting a word into low and high byte and joining them gives the word |
| Disk.SplitJoin | test.rs:75 | `from_le_bytes` of two bytes splits back into the same bytes |
| Disk.LE16Zero | test.rs:75-76 | an entry is zero exactly when both its bytes are |
| Disk.LbaDigits | test.rs:26-32 | the low 28 bits of the LBA are its three low bytes and the low nibble of its top byte |
| Disk.SectorCommandEncodes | test.rs:24-33 | ports 0x1F6, 0x1F2, 0x1F3, 0x1F4, 0x1F5, 0x1F7 in order; 0xE in the high nibble of 0x1F6, count 1, command 0x20; the registers carry the LBA modulo 2^28 |
| Disk.SectorWraps | test.rs:21 | sectors 2^32 apart send the same command |
| Disk.SendReadCommand | test.rs:24-33 | appends exactly the six command writes |
| Disk.ReadSector | test.rs:20-44 | sends the command for `sector as u32`; afterwards the buffer holds that sector, word i as bytes 2i (low) and 2i+1 (high) |
| Disk.ParseBpbBytes | test.rs:52-56 | the BPB parse reads only bytes 11-16, 22 and 23 |
| Disk.CheckBootSectorCases | test.rs:52-63 | Ok exactly when bytes 11 and 12 are 0x00 0x02 (512 little-endian); otherwise Err("Unsupported sector size") |
| Disk.InitializeFilesystem | test.rs:46-64 | reads sector 0 and returns the boot-sector check of it |
| Disk.ZeroEntries | test.rs:74-79 | the count of zero entries is at most the number of entries |
| Disk.ZeroEntriesSet | test.rs:74-79 | the count is the size of the set of zero-entry indices |
| Disk.FreeEntries | test.rs:70-80 | at most 256 free entries per sector |
| Disk.ScanCommands | test.rs:70-73 | six register writes per sector read |
| Disk.CountFree | test.rs:74-79 | the inner loop adds exactly the number of zero entries of the buffer |
| Disk.ScanTable | test.rs:70-80 | reads the sectors in order and counts their zero entries |
| Disk.CalculateFreeSpace | test.rs:66-84 | reads sectors 1..9 in order and returns 2048 times the number of zero entries in them |
| Disk.FreeSpaceBound | test.rs:70-83 | the result is at most 9 * 256 * 2048 |
| Disk.ZeroEntriesAllFree | test.rs:74-79 | an all-zero sector has all its entries free |
| Disk.ZeroEntriesNoneFree | test.rs:74-79 | a sector with no zero byte has no free entry |

## Left out

- Inline assembly:
  - the keyboard-controller reset of `reboot_action` and the APM power-off of `shutdown_action` are not modelled;
  - both actions end with an `Outcome` that says the machine is gone.
- `is_raspberry_pi_4` (src/gpio.rs:36-48) is not modelled: it reads a CPU system register.
- `inb` and `inw` (test.rs:8-18) are not modelled, and neither is the BSY poll loop (test.rs:36):
  - the data words come from the `Drive` function;
  - status and data-port reads are not entered in the port log.
- `Shell.Keyboard.GetKey` receives the scancode as a parameter: the read of port 0x60 in `get_key` (src/main.rs:144-145) is not entered in the port log.
- Concurrency is not modelled: `spin::Mutex` locking, atomic orderings and interrupt pre-emption. Handlers run one whole call at a time.
- `delay`, `print_loading_animation` and the boot and main loops of `_start` (src/main.rs:27-57, 94-122, 137-141) are not modelled: they are timing and top-level control flow.
- No separate model of `src/pit.rs`: its three port writes are the ones `init_pit` of src/time.rs makes, which is modelled.
- `src/task.rs` is not modelled: a task is an identifier plus the number of polls it needs before it is ready.
- `SCANCODE_MAP` (the `eng` module, not part of this model) is the parameter `keymap` of `Shell.PrintKey`.
- `COLOR_STATUS_BAR` is the parameter `statusColor`, since src/constants.rs does not define it.
- The line given to `command_fn` is a parameter of `Shell.PrintKey`:
  - src/main.rs:171 passes two arguments to a function of three, so the line it means is not determined by the source.
- Loading the IDT and `enable_interrupts` are not modelled: they have no state visible to the rest of the model.
- The `keyboard_interrupt_handler`, `init_idt`, `InterruptIndex` and `ChainedPics` copies in src/time.rs are not modelled separately: they are identical to those of src/interrupts.rs and src/pic.rs, which are.
- GPIO:
  - the MMIO base address `GPIO_BASE` is not modelled, and `Gpio::new` gives a fresh, zeroed register block;
  - the pin levels are given when the block is made.
- Only the byte and word positions of the BPB matter to the model. The BPB fields that `initialize_filesystem` parses but never uses (sectors per cluster, reserved sectors, number of FATs, FAT size) are parsed and then ignored.
- Datetime.DateTime.Update: an overflowing `+= 1` (possible only after `set_time`/`set_date` stored out-of-range values) panics in Rust; the model requires `NoOverflow` instead.
- TimeOfDay.TimeKeeper.PitInterrupt: the same overflow panic is a precondition.
- Interrupts.Kernel.PitInterrupt: `TICKS` is an unbounded counter, so the `usize` wrap after 2^64 ticks is not modelled.
- Shell.PrintKey: an out-of-range `CURRENT_ROW` index panics in Rust; the model requires the indices to be in range (`Accepts`).
- Shell.PrintCentered: the `u16` row sum and the pointer offsets are unbounded; the model requires every line inside the framebuffer (`CenteredFits`).
- Interrupts.Kernel.KeyboardInterrupt: the scancode it reads is discarded, as in the source, so only the read itself is logged.
