/** The VGA text screen driven by kernel/console.c, as values: an 80x25 grid of
    16-bit cells (character in the low byte, colour in the high byte), the
    cursor, and what each console operation does to them. The class in
    console.dfy runs the source's loops on a real array and is proved to
    follow these functions. */
module VgaText {

  /** One C `char`, as the byte it is. */
  newtype Byte = x: int | 0 <= x < 256

  const NUL: Byte := 0
  const NEWLINE: Byte := '\n' as Byte
  const SPACE: Byte := ' ' as Byte

  /** VGA_DEFAULT_COLOR: purple on black. */
  const DEFAULT_COLOR: Byte := 0x05

  /** vga_entry: the character cast to 16 bits, or'ed with the colour shifted
      into the high byte. `char` is signed on x86-64, so a byte of 0x80 or more
      is sign-extended by the cast and its ones overwrite the colour byte. */
  function VgaEntry(c: Byte, color: Byte): (cell: bv16)
    ensures cell & 0xFF == c as bv16
    ensures c < 0x80 ==> cell >> 8 == color as bv16
    ensures c >= 0x80 ==> cell >> 8 == 0xFF
  {
    var widened: bv16 := if c < 0x80 then c as bv16 else 0xFF00 | c as bv16;
    widened | (color as bv16 << 8)
  }

  /** The cell that clearing and scrolling write: a space in the default colour. */
  const BLANK: bv16 := VgaEntry(SPACE, DEFAULT_COLOR)

  /** The screen contents and the cursor (cursor_row, cursor_col). */
  datatype Screen = Screen(cells: seq<bv16>, row: nat, col: nat)

  /** 2000 cells and a cursor inside the grid: what every operation keeps. */
  predicate Valid(s: Screen) {
    |s.cells| == 2000 && s.row < 25 && s.col < 80
  }

  /** The cell at row `r`, column `k` of the row-major grid. */
  function Cell(cells: seq<bv16>, r: nat, k: nat): bv16
    requires |cells| == 2000 && r < 25 && k < 80
  {
    cells[r * 80 + k]
  }

  /** console_put_at: store one cell, unless the position is off the grid. */
  function PutAt(cells: seq<bv16>, c: Byte, color: Byte, row: nat, col: nat): (t: seq<bv16>)
    requires |cells| == 2000
    ensures |t| == 2000
    ensures row >= 25 || col >= 80 ==> t == cells
    ensures row < 25 && col < 80 ==> Cell(t, row, col) == VgaEntry(c, color)
    ensures forall r, k :: 0 <= r < 25 && 0 <= k < 80 && (r != row || k != col) ==>
      Cell(t, r, k) == Cell(cells, r, k)
  {
    if row >= 25 || col >= 80 then cells else cells[row * 80 + col := VgaEntry(c, color)]
  }

  /** console_clear: every cell blank, cursor home. */
  function Cleared(): (s: Screen)
    ensures Valid(s) && s.row == 0 && s.col == 0
    ensures forall r, k :: 0 <= r < 25 && 0 <= k < 80 ==> Cell(s.cells, r, k) == BLANK
  {
    Screen(seq(2000, _ => BLANK), 0, 0)
  }

  /** The scroll in console_newline_internal: each row moves up by one and the
      last row is blanked. */
  function Scroll(cells: seq<bv16>): (t: seq<bv16>)
    requires |cells| == 2000
    ensures |t| == 2000
    ensures forall r, k :: 0 <= r < 24 && 0 <= k < 80 ==> Cell(t, r, k) == Cell(cells, r + 1, k)
    ensures forall k :: 0 <= k < 80 ==> Cell(t, 24, k) == BLANK
  {
    cells[80..] + seq(80, _ => BLANK)
  }

  /** console_newline_internal: column 0 of the next row, scrolling when the
      cursor was on the last row. The column may be 80 here: putc calls it
      right after running off the end of a row. */
  function Newline(s: Screen): (t: Screen)
    requires |s.cells| == 2000 && s.row < 25
    ensures Valid(t) && t.col == 0
    ensures s.row < 24 ==> t.row == s.row + 1 && t.cells == s.cells
    ensures s.row == 24 ==> t.row == 24 && t.cells == Scroll(s.cells)
  {
    var row := s.row + 1;
    if row >= 25 then Screen(Scroll(s.cells), 24, 0) else Screen(s.cells, row, 0)
  }

  /** console_putc: a newline only moves the cursor; any other byte is stored
      at the cursor, which then advances and wraps after column 79. */
  function Putc(s: Screen, c: Byte): (t: Screen)
    requires Valid(s)
    ensures Valid(t)
  {
    if c == NEWLINE then Newline(s)
    else
      var written := Screen(PutAt(s.cells, c, DEFAULT_COLOR, s.row, s.col), s.row, s.col + 1);
      if written.col >= 80 then Newline(written) else written
  }

  /** Feeding `str` to console_putc one byte after the other, in order. */
  function WriteStr(s: Screen, str: seq<Byte>): (t: Screen)
    requires Valid(s)
    ensures Valid(t)
    decreases |str|
  {
    if str == [] then s else Putc(WriteStr(s, str[..|str| - 1]), str[|str| - 1])
  }

  /** The C string at the start of `mem`: the bytes before the first NUL. */
  function CStr(mem: seq<Byte>): (s: seq<Byte>)
    requires NUL in mem
    ensures |s| < |mem| && mem[|s|] == NUL && s == mem[..|s|] && NUL !in s
  {
    if mem[0] == NUL then [] else [mem[0]] + CStr(mem[1..])
  }

  /** The C string stored in a buffer of `s`, a NUL and anything after it is `s`. */
  lemma {:induction false} CStrOfTerminated(s: seq<Byte>, rest: seq<Byte>)
    requires NUL !in s
    ensures CStr(s + [NUL] + rest) == s
  {
    if s != [] {
      assert (s + [NUL] + rest)[1..] == s[1..] + [NUL] + rest;
      CStrOfTerminated(s[1..], rest);
    }
  }

  /** A byte other than newline is stored at the cursor and nothing else
      changes; the cursor moves one column right, or to the start of the
      next row after column 79, scrolling if that was the last row. */
  lemma PutcStoresAtCursor(s: Screen, c: Byte)
    requires Valid(s) && c != NEWLINE
    ensures var t := Putc(s, c);
      var stored := PutAt(s.cells, c, DEFAULT_COLOR, s.row, s.col);
      (s.col < 79 ==> t == Screen(stored, s.row, s.col + 1)) &&
      (s.col == 79 && s.row < 24 ==> t == Screen(stored, s.row + 1, 0)) &&
      (s.col == 79 && s.row == 24 ==> t == Screen(Scroll(stored), 24, 0))
  {
  }

  /** A newline stores no cell. Without a scroll the buffer is unchanged and
      the cursor goes to column 0 of the next row; with one, row r shows the
      old row r + 1, the last row is blank and the cursor is at (24, 0). */
  lemma PutcNewline(s: Screen)
    requires Valid(s)
    ensures var t := Putc(s, NEWLINE);
      (s.row < 24 ==> t == Screen(s.cells, s.row + 1, 0)) &&
      (s.row == 24 ==>
         t.row == 24 && t.col == 0 &&
         (forall r, k :: 0 <= r < 24 && 0 <= k < 80 ==> Cell(t.cells, r, k) == Cell(s.cells, r + 1, k)) &&
         (forall k :: 0 <= k < 80 ==> Cell(t.cells, 24, k) == BLANK))
  {
  }

  /** Writing one more byte is one more console_putc. */
  lemma WriteStrSnoc(s: Screen, str: seq<Byte>, c: Byte)
    requires Valid(s)
    ensures WriteStr(s, str + [c]) == Putc(WriteStr(s, str), c)
  {
    assert (str + [c])[..|str|] == str;
  }

  /** Writing `a` then `b` is writing `a + b`. */
  lemma {:induction false} WriteStrAppend(s: Screen, a: seq<Byte>, b: seq<Byte>)
    requires Valid(s)
    ensures WriteStr(s, a + b) == WriteStr(WriteStr(s, a), b)
    decreases |b|
  {
    if b == [] {
      assert a + b == a;
    } else {
      var b' := b[..|b| - 1];
      assert (a + b)[..|a + b| - 1] == a + b';
      WriteStrAppend(s, a, b');
    }
  }

  /** Bytes other than newline that fit in the rest of the row land side by
      side from the cursor on, and no other cell changes. */
  lemma {:induction false} WriteWithinRow(s: Screen, str: seq<Byte>)
    requires Valid(s) && s.col + |str| < 80 && NEWLINE !in str
    ensures var t := WriteStr(s, str);
      t.row == s.row && t.col == s.col + |str| &&
      (forall k :: 0 <= k < |str| ==> Cell(t.cells, s.row, s.col + k) == VgaEntry(str[k], DEFAULT_COLOR)) &&
      (forall r, k :: 0 <= r < 25 && 0 <= k < 80 && (r != s.row || k < s.col || k >= s.col + |str|) ==>
        Cell(t.cells, r, k) == Cell(s.cells, r, k))
    decreases |str|
  {
    if str != [] {
      var init := str[..|str| - 1];
      WriteWithinRow(s, init);
      var u := WriteStr(s, init);
      PutcStoresAtCursor(u, str[|str| - 1]);
    }
  }

  /** Writing 81 bytes without a newline from column 0 of a row above the last
      wraps exactly once: the first 80 fill that row and the 81st lands at
      column 0 of the next row. */
  lemma WrapAfterEightyColumns(s: Screen, str: seq<Byte>)
    requires Valid(s) && s.row < 24 && s.col == 0
    requires |str| == 81 && NEWLINE !in str
    ensures var t := WriteStr(s, str);
      t.row == s.row + 1 && t.col == 1 &&
      (forall k :: 0 <= k < 80 ==> Cell(t.cells, s.row, k) == VgaEntry(str[k], DEFAULT_COLOR)) &&
      Cell(t.cells, s.row + 1, 0) == VgaEntry(str[80], DEFAULT_COLOR)
  {
    var first := str[..79];
    WriteWithinRow(s, first);
    var u := WriteStr(s, first);
    PutcStoresAtCursor(u, str[79]);
    var v := Putc(u, str[79]);
    assert str[..80] == first + [str[79]];
    WriteStrAppend(s, first, [str[79]]);
    assert v == WriteStr(s, str[..80]);
    PutcStoresAtCursor(v, str[80]);
  }
}
