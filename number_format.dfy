/** The digit strings that console_write_hex64 and console_write_dec emit
    (kernel/console.c), as functions of the number, with their base-16 and
    base-10 values. */
module NumberFormat {
  import opened VgaText

  /** A C `uint64_t`. */
  type U64 = x: nat | x < 0x1_0000_0000_0000_0000

  function Pow(b: nat, n: nat): (p: nat)
    ensures b > 0 ==> p > 0
  {
    if n == 0 then 1 else b * Pow(b, n - 1)
  }

  /** 16^16 == 2^64: the 16 nibbles of a uint64_t. */
  lemma Pow16Of16()
    ensures Pow(16, 16) == 0x1_0000_0000_0000_0000
  {
    assert Pow(16, 4) == 0x1_0000;
    assert Pow(16, 8) == 0x1_0000_0000;
    assert Pow(16, 12) == 0x1_0000_0000_0000;
  }

  /** 10^20, above the largest uint64_t. */
  lemma Pow10Of20()
    ensures Pow(10, 20) == 100_000_000_000_000_000_000
  {
    assert Pow(10, 5) == 100_000;
    assert Pow(10, 10) == 10_000_000_000;
    assert Pow(10, 15) == 1_000_000_000_000_000;
  }

  /** `>> (4 * k)` on an unsigned value is division by 16^k. */
  lemma {:induction false} ShiftIsNibbles(k: nat)
    ensures Pow(2, 4 * k) == Pow(16, k)
  {
    if k > 0 {
      ShiftIsNibbles(k - 1);
      var n := 4 * (k - 1);
      assert Pow(2, n + 2) == 4 * Pow(2, n);
      assert Pow(2, n + 4) == 16 * Pow(2, n);
    }
  }

  lemma MulLeft(x: int, y: int, d: int)
    ensures x <= y && d >= 0 ==> x * d <= y * d
  {
    assert y * d - x * d == (y - x) * d;
  }

  /** Euclidean division is determined by any quotient/remainder pair. */
  lemma DivUnique(a: int, d: int, q: int, r: int)
    requires d > 0 && 0 <= r < d && a == q * d + r
    ensures a / d == q
  {
    var q0 := a / d;
    if q0 < q {
      MulLeft(q0 + 1, q, d);
      assert false;
    } else if q < q0 {
      MulLeft(q + 1, q0, d);
      assert false;
    }
  }

  lemma DivDiv(a: nat, p: nat, m: nat)
    requires p > 0 && m > 0
    ensures a / p / m == a / (p * m)
  {
    var q := a / p;
    var q2 := q / m;
    var r := (q % m) * p + a % p;
    MulLeft(q % m, m - 1, p);
    assert r < p * m;
    assert a == q2 * (p * m) + r by {
      assert a == q * p + a % p;
      assert q == q2 * m + q % m;
      assert q * p == q2 * (p * m) + (q % m) * p;
    }
    DivUnique(a, p * m, q2, r);
  }

  // ---- hexadecimal ----

  predicate IsHexDigit(b: Byte) {
    '0' as Byte <= b <= '9' as Byte || 'A' as Byte <= b <= 'F' as Byte
  }

  /** The HEX table "0123456789ABCDEF" looked up at `d`. */
  function HexChar(d: nat): (b: Byte)
    requires d < 16
    ensures IsHexDigit(b) && HexDigitValue(b) == d
  {
    if d < 10 then ('0' as int + d) as Byte else ('A' as int + d - 10) as Byte
  }

  /** The value of a digit '0'..'9', 'A'..'F'. */
  function HexDigitValue(b: Byte): int {
    if b <= '9' as Byte then b as int - '0' as int else b as int - 'A' as int + 10
  }

  /** Nibble `k` (counting from the least significant) of `v`:
      `(v >> (4 * k)) & 0xF`. */
  function Nibble(v: nat, k: nat): (n: nat)
    ensures n < 16
    ensures v / Pow(16, k) == v / Pow(16, k + 1) * 16 + n
  {
    var p := Pow(16, k);
    assert Pow(16, k + 1) == p * 16;
    DivDiv(v, p, 16);
    v / p % 16
  }

  /** `HEX[(v >> (4 * k)) & 0xF]`: the digit that shows nibble `k` of `v`. */
  function NibbleChar(v: nat, k: nat): (b: Byte)
    ensures IsHexDigit(b) && HexDigitValue(b) == Nibble(v, k)
  {
    HexChar(Nibble(v, k))
  }

  /** The 16 hex digits of `v`, most significant first. */
  function HexDigits(v: U64): (ds: seq<Byte>)
    ensures |ds| == 16 && forall i :: 0 <= i < 16 ==> IsHexDigit(ds[i])
  {
    seq(16, i requires 0 <= i < 16 => NibbleChar(v, 15 - i))
  }

  /** Digit `i` of HexDigits is HEX[(v >> ((15 - i) * 4)) & 0xF]. */
  lemma HexDigitAt(v: U64, i: nat)
    requires i < 16
    ensures HexDigits(v)[i] == HexChar(v / Pow(2, (15 - i) * 4) % 16)
  {
    ShiftIsNibbles(15 - i);
  }

  /** The base-16 value of a digit string, most significant digit first. */
  function HexValue(ds: seq<Byte>): int {
    if ds == [] then 0 else HexValue(ds[..|ds| - 1]) * 16 + HexDigitValue(ds[|ds| - 1])
  }

  /** The first k digits are worth the top k nibbles of `v`. */
  lemma {:induction false} HexDigitsPrefixValue(v: U64, k: nat)
    requires k <= 16
    ensures HexValue(HexDigits(v)[..k]) == v / Pow(16, 16 - k)
  {
    var ds := HexDigits(v);
    if k == 0 {
      Pow16Of16();
      DivUnique(v, Pow(16, 16), 0, v);
    } else {
      var p := Pow(16, 16 - k);
      var q := v / p;
      assert Pow(16, 16 - (k - 1)) == p * 16;
      HexDigitsPrefixValue(v, k - 1);
      DivDiv(v, p, 16);
      assert HexValue(ds[..k - 1]) == q / 16;
      assert ds[..k][..k - 1] == ds[..k - 1];
      assert HexDigitValue(ds[k - 1]) == q % 16;
    }
  }

  /** The 16 digits, read back in base 16, give `v`. */
  lemma HexDigitsValue(v: U64)
    ensures HexValue(HexDigits(v)) == v
  {
    HexDigitsPrefixValue(v, 16);
    assert HexDigits(v)[..16] == HexDigits(v);
  }

  /** What console_write_hex64 is evidently meant to emit: "0x" and 16 digits. */
  function Hex64Text(v: U64): (s: seq<Byte>)
    ensures |s| == 18 && s[..2] == ['0' as Byte, 'x' as Byte]
    ensures forall i :: 2 <= i < 18 ==> IsHexDigit(s[i])
    ensures HexValue(s[2..]) == v
  {
    var s := ['0' as Byte, 'x' as Byte] + HexDigits(v);
    assert s[2..] == HexDigits(v);
    HexDigitsValue(v);
    s
  }

  /** What console_write_hex64 emits as written: buf[17] is first set to the
      last digit and then overwritten by the NUL, so only 15 digits remain. */
  function Hex64AsWritten(v: U64): (s: seq<Byte>)
    ensures |s| == 17 && s[..2] == ['0' as Byte, 'x' as Byte]
    ensures forall i :: 2 <= i < 17 ==> IsHexDigit(s[i])
    ensures HexValue(s[2..]) == v / 16
  {
    var s := ['0' as Byte, 'x' as Byte] + HexDigits(v)[..15];
    assert s[2..] == HexDigits(v)[..15];
    HexDigitsPrefixValue(v, 15);
    s
  }

  /** Printing 1 as written shows "0x000000000000000", which reads as 0. */
  lemma Hex64AsWrittenLosesLastDigit()
    ensures HexValue(Hex64AsWritten(1)[2..]) == 0
    ensures Hex64AsWritten(1) != Hex64Text(1)
  {
  }

  // ---- decimal ----

  predicate IsDecDigit(b: Byte) {
    '0' as Byte <= b <= '9' as Byte
  }

  /** `'0' + d`. */
  function DecChar(d: nat): (b: Byte)
    requires d < 10
    ensures IsDecDigit(b) && b as int - '0' as int == d
  {
    ('0' as int + d) as Byte
  }

  /** The decimal digits of a positive `v`, most significant first. */
  function DecDigits(v: nat): (ds: seq<Byte>)
    requires v > 0
    ensures |ds| > 0 && ds[0] != '0' as Byte
    ensures forall i :: 0 <= i < |ds| ==> IsDecDigit(ds[i])
    decreases v
  {
    if v < 10 then [DecChar(v)] else DecDigits(v / 10) + [DecChar(v % 10)]
  }

  /** The last digit of `v` is `v % 10` and the ones before it are the digits
      of `v / 10`. */
  lemma DecDigitsLast(v: nat)
    requires v > 0
    ensures var ds := DecDigits(v);
      ds[|ds| - 1] == DecChar(v % 10) &&
      (v < 10 ==> |ds| == 1) &&
      (v >= 10 ==> ds[..|ds| - 1] == DecDigits(v / 10))
  {
  }

  /** console_write_dec's output: "0" for zero, the digits otherwise. */
  function DecText(v: U64): (s: seq<Byte>)
    ensures |s| > 0 && forall i :: 0 <= i < |s| ==> IsDecDigit(s[i])
    ensures s[0] == '0' as Byte <==> v == 0
  {
    if v == 0 then ['0' as Byte] else DecDigits(v)
  }

  /** The base-10 value of a digit string, most significant digit first. */
  function DecValue(ds: seq<Byte>): int {
    if ds == [] then 0 else DecValue(ds[..|ds| - 1]) * 10 + (ds[|ds| - 1] as int - '0' as int)
  }

  lemma {:induction false} DecDigitsValue(v: nat)
    requires v > 0
    ensures DecValue(DecDigits(v)) == v
    decreases v
  {
    if v >= 10 {
      DecDigitsValue(v / 10);
      var ds := DecDigits(v);
      assert ds[..|ds| - 1] == DecDigits(v / 10);
    }
  }

  /** A number below 10^k has at most k digits. */
  lemma {:induction false} DecDigitsLength(v: nat, k: nat)
    requires 0 < v < Pow(10, k)
    ensures |DecDigits(v)| <= k
    decreases v
  {
    if v >= 10 {
      DecDigitsLength(v / 10, k - 1);
    }
  }

  /** A uint64_t has at most 20 decimal digits, so the 31-byte loop bound of
      console_write_dec never cuts the number short. */
  lemma DecDigitsFitUint64(v: U64)
    requires v > 0
    ensures |DecDigits(v)| <= 20
  {
    Pow10Of20();
    DecDigitsLength(v, 20);
  }

  /** "0" for zero; otherwise no leading zero; always at most 20 digits whose
      value is the input. */
  lemma DecTextValue(v: U64)
    ensures |DecText(v)| <= 20 && DecValue(DecText(v)) == v
    ensures forall i :: 0 <= i < |DecText(v)| ==> IsDecDigit(DecText(v)[i])
    ensures v == 0 <==> DecText(v) == ['0' as Byte]
    ensures v > 0 ==> DecText(v)[0] != '0' as Byte
  {
    if v > 0 {
      DecDigitsFitUint64(v);
      DecDigitsValue(v);
    } else {
      assert ['0' as Byte][..0] == [];
    }
  }
}
