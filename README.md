# PurpleHaxOS console and IDT, modelled in Dafny

This project models the two pieces of the PurpleHaxOS kernel that hold state
with real rules: the VGA text console of `kernel/console.c`, and the 64-bit
interrupt descriptor table that `kernel/idt.c` builds and loads.

- `vga_text.dfy` (module `VgaText`) models the screen as a value: 2000 16-bit
  cells in row-major order, 80 columns by 25 rows, and the cursor
  (`cursor_row`, `cursor_col`). Each console operation is a function of the
  old screen. Its lemmas state what each operation promises: the cursor stays
  on the grid, one cell changes, a scroll moves every row up, and 81 bytes wrap
  exactly once.
- `number_format.dfy` (module `NumberFormat`) gives the text the two number
  formatters emit: `0x` plus hexadecimal digits, and decimal digits. Each is
  paired with the base-16 or base-10 value it reads back as.
- `console.dfy` (module `VgaConsole`) is the console itself. It is a class
  `Console` whose `buffer` array stands for the frame buffer at `0xB8000` and
  whose fields `row` and `col` are the cursor globals. Every method runs the
  source's loops on the array and is proved to leave exactly the state the
  `VgaText` functions describe.
- `idt.dfy` (module `Idt`) models the packed `struct idt_entry` and
  `struct idt_ptr`, the byte image of each (16 bytes and 10 bytes), the gate `idt_set_gate` writes, and the
  class `InterruptTable`. That class holds the 256-entry table and the
  descriptor, and carries a ghost trace of stores and of the `lidt` load.

C `char` is `VgaText.Byte` (0..255). The target is x86-64, where `char` is
signed, so a byte of 0x80 or more is sign-extended when `vga_entry` widens it
to 16 bits, and its ones overwrite the colour byte. `VgaEntry` models this
cast as the compiler performs it. A C string is the memory from its pointer
on. It must contain a NUL, which is what C demands of the caller.

## Model

| member | source | states |
|---|---|---|
| VgaText.VgaEntry | kernel/console.c:13-15 | the low byte of the cell is the character; the high byte is the colour for bytes below 0x80 and 0xFF for bytes from 0x80 up (signed `char` sign-extends) |
| VgaText.PutAt | kernel/console.c:17-20 | a position with row >= 25 or column >= 80 leaves every cell as it was; otherwise cell (row, col) becomes `vga_entry(c, color)` and every other cell is unchanged |
| VgaText.Cleared | kernel/console.c:22-28 | all 2000 cells are a space in colour 0x05 and the cursor is (0, 0) |
| VgaText.Scroll | kernel/console.c:33-44 | row r (0..23) afterwards is the old row r + 1, and row 24 is all blank |
| VgaText.Newline | kernel/console.c:30-46 | the column becomes 0; below the last row the buffer is unchanged and the row goes up by one; on the last row the buffer is scrolled and the cursor is (24, 0); the cursor is on the grid afterwards, even when entered with column 80 from putc |
| VgaText.Putc | kernel/console.c:48-58 | from a cursor on the grid, putc leaves the cursor on the grid |
| VgaText.WriteStr | kernel/console.c:60-64 | feeding a byte string to putc one byte after another keeps the cursor on the grid |
| VgaText.CStr | kernel/console.c:60-64 | the C string is the bytes before the first NUL: a prefix of the memory, followed by a NUL, containing none |
| VgaText.CStrOfTerminated | kernel/console.c:81-82 | a buffer holding a NUL-free text, a NUL and anything after it is read as exactly that text |
| VgaText.PutcStoresAtCursor | kernel/console.c:53-57 | a byte other than newline is stored at the cursor in colour 0x05 and no other cell changes; the cursor moves right, or to the start of the next row after column 79, scrolling if that was row 24 |
| VgaText.PutcNewline | kernel/console.c:49-52 | a newline stores no cell: without a scroll the buffer is unchanged and the cursor goes to (row + 1, 0); on row 24 the rows move up, the last row is blank and the cursor is (24, 0) |
| VgaText.WriteStrAppend | kernel/console.c:60-64 | writing a and then b is the same as writing a + b |
| VgaText.WriteWithinRow | kernel/console.c:53-57 | bytes other than newline that fit in the rest of the row land side by side from the cursor, the cursor ends just after them, and no other cell changes |
| VgaText.WrapAfterEightyColumns | kernel/console.c:53-57 | from (r, 0) with r < 24, 81 bytes without a newline fill row r, and the 81st lands at (r + 1, 0), leaving the cursor at (r + 1, 1) |
| NumberFormat.HexChar | kernel/console.c:72 | the lookup in "0123456789ABCDEF" gives an uppercase hex digit whose value is the index |
| NumberFormat.Nibble | kernel/console.c:77-78 | `(value >> 4k) & 0xF` is below 16 and is digit k of the value in base 16: the value shifted right by 4k bits is the value shifted by 4(k + 1) bits, times 16, plus the nibble |
| NumberFormat.NibbleChar | kernel/console.c:77-79 | the digit for nibble k of the value is a hex digit worth `(value >> 4k) & 0xF` |
| NumberFormat.HexDigits | kernel/console.c:76-80 | the loop's digits are 16 uppercase hex digits |
| NumberFormat.HexDigitAt | kernel/console.c:77-79 | digit i is HEX[(value >> ((15 - i) * 4)) & 0xF] |
| NumberFormat.ShiftIsNibbles | kernel/console.c:77-78 | shifting right by 4k bits is dividing by 16^k |
| NumberFormat.Pow16Of16 | kernel/console.c:71 | sixteen nibbles span exactly the range of a uint64_t |
| NumberFormat.HexDigitsPrefixValue | kernel/console.c:76-80 | the first k digits read in base 16 are worth the top k nibbles of the value |
| NumberFormat.HexDigitsValue | kernel/console.c:76-80 | the 16 digits read in base 16 are the value, most significant first |
| NumberFormat.Hex64Text | kernel/console.c:71-83 | the intended output is exactly 18 characters: "0x" and then 16 hex digits whose base-16 value is the input |
| NumberFormat.Hex64AsWritten | kernel/console.c:71-83 | the output as written is 17 characters, "0x" and then 15 hex digits, worth the input divided by 16 |
| NumberFormat.Hex64AsWrittenLosesLastDigit | kernel/console.c:81 | as written, printing 1 shows digits worth 0, which differs from the intended text |
| NumberFormat.DecChar | kernel/console.c:93 | `'0' + d` is a decimal digit worth d |
| NumberFormat.DecDigits | kernel/console.c:92-99 | the digits of a positive number are all decimal digits, at least one, with no leading zero |
| NumberFormat.DecDigitsLast | kernel/console.c:93-94 | the last digit is value % 10, and the ones before it are the digits of value / 10 |
| NumberFormat.DecDigitsValue | kernel/console.c:92-99 | the digits read in base 10 are the number |
| NumberFormat.Pow10Of20 | kernel/console.c:92 | 10^20 exceeds every uint64_t |
| NumberFormat.DecDigitsLength | kernel/console.c:92 | a number below 10^k has at most k digits |
| NumberFormat.DecDigitsFitUint64 | kernel/console.c:86-92 | a uint64_t has at most 20 decimal digits, so the 31-digit bound of the loop never cuts a number short |
| NumberFormat.DecText | kernel/console.c:88-99 | the printed text is at least one decimal digit, and it starts with '0' exactly when the value is 0 |
| NumberFormat.DecTextValue | kernel/console.c:85-100 | the output is "0" exactly for 0; otherwise it has no leading zero; it is at most 20 decimal digits and its base-10 value is the input |
| VgaConsole.CollectDecDigits | kernel/console.c:92-95 | the first loop leaves all the digits of the value in the buffer, least significant first, and no more than 20 of them |
| VgaConsole.Console.constructor | kernel/console.c:7-11 | the console starts with the cursor at (0, 0) over the frame buffer's existing contents |
| VgaConsole.Console.PutAt | kernel/console.c:17-20 | the frame buffer becomes `VgaText.PutAt` of the old buffer |
| VgaConsole.Console.Clear | kernel/console.c:22-28 | after the loop, buffer and cursor are `VgaText.Cleared` |
| VgaConsole.Console.NewlineInternal | kernel/console.c:30-46 | the nested copy loops and the blanking loop leave buffer and cursor as `VgaText.Newline` of the old state |
| VgaConsole.Console.Putc | kernel/console.c:48-58 | the new buffer and cursor are `VgaText.Putc` of the old ones, and the cursor stays on the grid |
| VgaConsole.Console.Write | kernel/console.c:60-64 | the loop feeds the bytes before the first NUL to putc in order |
| VgaConsole.Console.WriteLine | kernel/console.c:66-69 | the string and then exactly one newline |
| VgaConsole.Console.WriteHex64 | kernel/console.c:71-83 | as written, the 18-byte buffer emits `Hex64AsWritten`: "0x" and the top 15 digits |
| VgaConsole.Console.WriteHex64Corrected | kernel/console.c:71-83 | with the NUL after the 16th digit, all of `Hex64Text` is emitted |
| VgaConsole.Console.WriteDec | kernel/console.c:85-100 | "0" for 0; otherwise the digits are collected back to front and emitted reversed, so the screen shows `DecText(value)` |
| Idt.Gate | kernel/idt.c:33-42 | the gate's three offset fields reassemble to the handler address; selector 0x18, IST 0, reserved 0, type/attribute byte exactly 0x8E: present, DPL 0, type 0xE |
| Idt.Encode | kernel/idt.c:10-18 | the packed entry is 16 bytes |
| Idt.DecodeEncode | kernel/idt.c:10-18 | reading the packed little-endian image back field by field gives the entry |
| Idt.GateImage | kernel/idt.c:10-18 | in the gate's image, offset bits 15..0 are in bytes 0-1, bits 31..16 in bytes 6-7 and bits 63..32 in bytes 8-11; the selector is in bytes 2-3 and the type/attribute byte 0x8E at byte 5 |
| Idt.Le64 | kernel/idt.c:20-23 | eight little-endian bytes read as a 64-bit value are written back as the same bytes |
| Idt.Le64Bytes64 | kernel/idt.c:20-23 | a 64-bit value written as eight little-endian bytes reads back as itself |
| Idt.EncodePtr | kernel/idt.c:20-23 | the packed descriptor is 10 bytes: a 16-bit limit and a 64-bit base with no padding |
| Idt.DecodePtrEncodePtr | kernel/idt.c:20-23 | reading the packed descriptor back, the limit from bytes 0-1 and the base from bytes 2-9, gives the descriptor |
| Idt.LimitCoversTable | kernel/idt.c:25-63 | the descriptor limit is 256 * 16 - 1 = 4095, the offset of the table's last byte |
| Idt.ZeroTable | kernel/idt.c:50-58 | the zeroing loop leaves 256 entries, every field of every one of them 0 |
| Idt.InitialTable | kernel/idt.c:48-61 | the table idt_init leaves has 256 entries: entry 0 is the gate for the stub and entries 1..255 are zero |
| Idt.PresentCountOnly | kernel/idt.c:50-61 | a table where only one slot may be present has at most that one present |
| Idt.InitialTableGates | kernel/idt.c:31-61 | after idt_init exactly one entry, vector 0, is present; its offset is the stub's address, with selector 0x18 and attributes 0x8E; entries 1..255 are entirely zero |
| Idt.InterruptTable.constructor | kernel/idt.c:28-29 | the static table starts zero-filled, and nothing has been loaded |
| Idt.InterruptTable.SetGate | kernel/idt.c:33-42 | only entry vec changes, and it becomes `Gate(handler_addr)`; one store event is recorded |
| Idt.InterruptTable.Lidt | kernel/idt.c:66 | lidt records a snapshot of the table and the descriptor at that moment |
| Idt.InterruptTable.Init | kernel/idt.c:48-66 | the table ends as `InitialTable(isr0)` and the descriptor as (4095, &idt[0]); in the events of this call every entry and the descriptor are stored before the one lidt, which comes last, and its snapshot is the final table and descriptor |

## Left out

- kernel/panic.c, kernel/kernel.c and kernel/console.h are not part of this model. `panic` writes a blank line, a banner, the caller's message and "System halted.", then halts; `kernel_main` writes two fixed strings and halts; and the header only declares functions.
- `isr0_handler`, the one-line forward to `panic`, is not modelled because it only diverges. The address of `isr0_stub` comes from assembly and is the unconstrained parameter of `Idt.InterruptTable.Init`.
- The `lidt` instruction is not modelled as a CPU action. It is the ghost event `Idt.InterruptTable.Lidt`.
- The success message `idt_init` prints after `lidt` is left out. It is diagnostic output only.
- The frame buffer is `volatile` memory-mapped I/O at 0xB8000. Here it is an ordinary array, and what the hardware shows is out of scope.
- The address of the table, `&idt[0]`, is chosen by the linker. Here it is the constructor parameter `tableAddress`.
- Idt.InterruptTable.SetGate: requires `0 <= vec < 256`, because the C function has no bounds check and a vector outside the table writes past it, which this model does not represent.
- VgaConsole.Console.Write: requires a NUL in the memory, because C reads past the end of the string otherwise, which this model does not represent.
- Idt.InterruptTable.Init: the trace counts one store event per entry, for its seven field stores, and one per descriptor field. The order of the individual field stores within an entry is not recorded.
- `kernel_main` takes no argument and reads no boot information (kernel/kernel.c:23-32), so the kernel has no boot-information parser to model.

## Findings

| source | as written | input that shows it | evidently intended | confidence | as-written member | corrected member |
|---|---|---|---|---|---|---|
| kernel/console.c:73-82 | `buf` has 18 bytes; the loop writes the 16 digits to `buf[2..17]` and then `buf[17] = 0` overwrites the least significant digit, so only "0x" and 15 digits are printed | value 1 prints "0x000000000000000" (17 characters, worth 0) | "0x0000000000000001": 18 characters whose hex value is the input, with the NUL in a 19th byte | high (not executed) | VgaConsole.Console.WriteHex64, NumberFormat.Hex64AsWrittenLosesLastDigit | VgaConsole.Console.WriteHex64Corrected, NumberFormat.Hex64Text |
