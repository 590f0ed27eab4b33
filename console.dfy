/** kernel/console.c: the VGA text console. The frame buffer at 0xB8000 is an
    array of 2000 cells and the cursor globals are the fields `row` and `col`.
    Every method is proved to change the state exactly as the functions of
    vga_text.dfy say. */
module VgaConsole {
  import opened VgaText
  import opened NumberFormat

  /** The first loop of console_write_dec: the digits of `value`, least
      significant first, into `buf`, at most 31 of them. */
  method CollectDecDigits(value: U64, buf: array<Byte>) returns (n: nat)
    requires value > 0 && buf.Length == 32
    modifies buf
    ensures n == |DecDigits(value)| <= 20
    ensures forall k :: 0 <= k < n ==> buf[k] == DecDigits(value)[n - 1 - k]
  {
    ghost var digits := DecDigits(value);
    DecDigitsFitUint64(value);
    var i := 0;
    var v: nat := value;
    while v > 0 && i < 32 - 1
      invariant 0 <= i <= |digits| <= 20
      invariant forall k :: 0 <= k < i ==> buf[k] == digits[|digits| - 1 - k]
      invariant v > 0 ==> DecDigits(v) == digits[..|digits| - i]
      invariant v == 0 ==> i == |digits|
      decreases v
    {
      DecDigitsLast(v);
      buf[i] := DecChar(v % 10);
      i := i + 1;
      v := v / 10;
    }
    n := i;
  }

  class Console {
    /** VGA_BUFFER: the text-mode frame buffer, row-major, 80 cells a row. */
    const buffer: array<bv16>
    /** cursor_row and cursor_col. */
    var row: nat
    var col: nat

    ghost predicate Valid()
      reads this
    {
      buffer.Length == 2000 && row < 25 && col < 80
    }

    ghost function State(): Screen
      reads this, buffer
    {
      Screen(buffer[..], row, col)
    }

    /** The console at boot: both cursor globals start at 0 and the frame
        buffer holds whatever was on the screen before. */
    constructor (screen: seq<bv16>)
      requires |screen| == 2000
      ensures Valid() && State() == Screen(screen, 0, 0) && fresh(buffer)
    {
      buffer := new bv16[2000](i => if 0 <= i < |screen| then screen[i] else 0);
      row, col := 0, 0;
      new;
      assert buffer[..] == screen;
    }

    /** console_put_at. */
    method PutAt(c: Byte, color: Byte, r: nat, k: nat)
      requires buffer.Length == 2000
      modifies buffer
      ensures buffer[..] == VgaText.PutAt(old(buffer[..]), c, color, r, k)
    {
      if r >= 25 || k >= 80 {
        return;
      }
      buffer[r * 80 + k] := VgaEntry(c, color);
    }

    /** console_clear. */
    method Clear()
      requires buffer.Length == 2000
      modifies this, buffer
      ensures Valid() && State() == Cleared()
    {
      for i := 0 to 2000
        modifies buffer
        invariant forall j :: 0 <= j < i ==> buffer[j] == BLANK
      {
        buffer[i] := VgaEntry(SPACE, DEFAULT_COLOR);
      }
      row, col := 0, 0;
      assert buffer[..] == Cleared().cells;
    }

    /** console_newline_internal. The column may be 80 when putc calls it. */
    method NewlineInternal()
      requires buffer.Length == 2000 && row < 25
      modifies this, buffer
      ensures Valid() && State() == Newline(old(State()))
    {
      col := 0;
      row := row + 1;
      if row >= 25 {
        for r := 1 to 25
          modifies buffer
          invariant forall i :: 0 <= i < (r - 1) * 80 ==> buffer[i] == old(buffer[i + 80])
          invariant forall i :: (r - 1) * 80 <= i < 2000 ==> buffer[i] == old(buffer[i])
        {
          for k := 0 to 80
            modifies buffer
            invariant forall i :: 0 <= i < (r - 1) * 80 + k ==> buffer[i] == old(buffer[i + 80])
            invariant forall i :: (r - 1) * 80 + k <= i < 2000 ==> buffer[i] == old(buffer[i])
          {
            buffer[(r - 1) * 80 + k] := buffer[r * 80 + k];
          }
        }
        for k := 0 to 80
          modifies buffer
          invariant forall i :: 0 <= i < 1920 ==> buffer[i] == old(buffer[i + 80])
          invariant forall i :: 1920 <= i < 1920 + k ==> buffer[i] == BLANK
        {
          buffer[(25 - 1) * 80 + k] := VgaEntry(SPACE, DEFAULT_COLOR);
        }
        row := 24;
        assert buffer[..] == Scroll(old(buffer[..]));
      }
    }

    /** console_putc. */
    method Putc(c: Byte)
      requires Valid()
      modifies this, buffer
      ensures Valid() && State() == VgaText.Putc(old(State()), c)
    {
      if c == NEWLINE {
        NewlineInternal();
        return;
      }
      PutAt(c, DEFAULT_COLOR, row, col);
      col := col + 1;
      if col >= 80 {
        NewlineInternal();
      }
    }

    /** console_write: `s` is the memory from the string pointer on, so it
        holds the terminating NUL. */
    method Write(s: seq<Byte>)
      requires Valid() && NUL in s
      modifies this, buffer
      ensures Valid() && State() == WriteStr(old(State()), CStr(s))
    {
      var i := 0;
      while s[i] != NUL
        invariant i <= |CStr(s)| && s[..i] == CStr(s)[..i]
        invariant Valid() && State() == WriteStr(old(State()), s[..i])
        decreases |s| - i
      {
        Putc(s[i]);
        assert s[..i + 1][..i] == s[..i];
        i := i + 1;
      }
      assert s[..i] == CStr(s);
    }

    /** console_write_line: the string, then one newline. */
    method WriteLine(s: seq<Byte>)
      requires Valid() && NUL in s
      modifies this, buffer
      ensures Valid() && State() == WriteStr(old(State()), CStr(s) + [NEWLINE])
    {
      Write(s);
      Putc(NEWLINE);
      assert (CStr(s) + [NEWLINE])[..|CStr(s)|] == CStr(s);
    }

    /** console_write_hex64 as written: the digits go to buf[2..17], and then
        buf[17] is set to NUL, over the last digit. */
    method WriteHex64(value: U64)
      requires Valid()
      modifies this, buffer
      ensures Valid() && State() == WriteStr(old(State()), Hex64AsWritten(value))
    {
      var buf := new Byte[18];
      buf[0] := '0' as Byte;
      buf[1] := 'x' as Byte;
      for i := 0 to 16
        modifies buf
        invariant buf[0] == '0' as Byte && buf[1] == 'x' as Byte
        invariant forall j :: 0 <= j < i ==> buf[2 + j] == HexDigits(value)[j]
      {
        var shift := (15 - i) * 4;
        var nibble := value / Pow(2, shift) % 16;
        HexDigitAt(value, i);
        buf[2 + i] := HexChar(nibble);
      }
      buf[18 - 1] := NUL;
      ghost var text := Hex64AsWritten(value);
      assert buf[..] == text + [NUL] + [];
      CStrOfTerminated(text, []);
      Write(buf[..]);
    }

    /** console_write_hex64 with room for the terminator: a 19-byte buffer,
        NUL at buf[18], so all 16 digits are written. */
    method WriteHex64Corrected(value: U64)
      requires Valid()
      modifies this, buffer
      ensures Valid() && State() == WriteStr(old(State()), Hex64Text(value))
    {
      var buf := new Byte[19];
      buf[0] := '0' as Byte;
      buf[1] := 'x' as Byte;
      for i := 0 to 16
        modifies buf
        invariant buf[0] == '0' as Byte && buf[1] == 'x' as Byte
        invariant forall j :: 0 <= j < i ==> buf[2 + j] == HexDigits(value)[j]
      {
        var shift := (15 - i) * 4;
        var nibble := value / Pow(2, shift) % 16;
        HexDigitAt(value, i);
        buf[2 + i] := HexChar(nibble);
      }
      buf[19 - 1] := NUL;
      ghost var text := Hex64Text(value);
      assert buf[..] == text + [NUL] + [];
      CStrOfTerminated(text, []);
      Write(buf[..]);
    }

    /** console_write_dec: the digits are collected least significant first in
        a 32-byte buffer (at most 31 of them), then emitted back to front. */
    method WriteDec(value: U64)
      requires Valid()
      modifies this, buffer
      ensures Valid() && State() == WriteStr(old(State()), DecText(value))
    {
      ghost var start := State();
      var buf := new Byte[32];
      var i := 0;
      if value == 0 {
        Putc('0' as Byte);
        WriteStrSnoc(start, [], '0' as Byte);
        return;
      }
      ghost var digits := DecDigits(value);
      i := CollectDecDigits(value, buf);
      ghost var n := i;
      while i > 0
        invariant 0 <= i <= n == |digits|
        invariant forall k :: 0 <= k < n ==> buf[k] == digits[n - 1 - k]
        invariant Valid() && State() == WriteStr(start, digits[..n - i])
      {
        i := i - 1;
        Putc(buf[i]);
        assert digits[..n - i] == digits[..n - i - 1] + [buf[i]];
        WriteStrSnoc(start, digits[..n - i - 1], buf[i]);
      }
      assert digits[..n] == digits;
    }
  }
}
