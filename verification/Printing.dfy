/**
 * Decimal and hexadecimal printing of framework/base/src/utils.cpp.
 *
 * `Numeral` and `Decimal` say which text a number has; `Parse` reads any text a
 * C library would accept as an integer.  The two are proved inverse to each
 * other on canonical texts, and the in-place loops are proved to write exactly
 * `Decimal` (or `Numeral` in base 16) followed by a NUL.
 */
module Printing {
  import opened Common

  // ---- C++ integer division --------------------------------------------------

  /** `a / b` of C++ for a positive divisor: the quotient is truncated toward zero. */
  function TruncDiv(a: int, b: int): int
    requires b > 0
  {
    if a >= 0 then a / b else -((-a) / b)
  }

  /** `a % b` of C++: takes the sign of `a`. */
  function TruncMod(a: int, b: int): int
    requires b > 0
  {
    a - b * TruncDiv(a, b)
  }

  // ---- Digits ---------------------------------------------------------------

  const DIGITS := "9876543210123456789"
  const DIGITS_HEX := "0123456789ABCDEF"

  predicate IsBase(base: nat) { base == 10 || base == 16 }

  /** `base * n`, kept linear. */
  function Scale(base: nat, n: nat): nat
    requires IsBase(base)
  {
    if base == 10 then 10 * n else 16 * n
  }

  function Quot(n: nat, base: nat): nat
    requires IsBase(base)
  {
    if base == 10 then n / 10 else n / 16
  }

  function Rem(n: nat, base: nat): (r: nat)
    requires IsBase(base)
    ensures r < base && Scale(base, Quot(n, base)) + r == n
  {
    if base == 10 then n % 10 else n % 16
  }

  function DigitChar(d: nat): char
    requires d < 16
  {
    if d < 10 then ('0' as int + d) as char else ('A' as int + (d - 10)) as char
  }

  function DigitValue(c: char, base: nat): Option<nat>
    requires IsBase(base)
  {
    if '0' <= c <= '9' then Some(c as int - '0' as int)
    else if base == 16 && 'A' <= c <= 'F' then Some(c as int - 'A' as int + 10)
    else None
  }

  /** The symmetric table holds the digit of |lsd| at `zero[lsd]`, on both sides of zero. */
  lemma SymmetricTable(lsd: int)
    requires -9 <= lsd <= 9
    ensures DIGITS[9 + lsd] == DigitChar(if lsd < 0 then -lsd else lsd)
  {
    if lsd <= -5 {
      assert lsd == -9 || lsd == -8 || lsd == -7 || lsd == -6 || lsd == -5;
    } else if lsd < 0 {
      assert lsd == -4 || lsd == -3 || lsd == -2 || lsd == -1;
    } else if lsd < 5 {
      assert lsd == 0 || lsd == 1 || lsd == 2 || lsd == 3 || lsd == 4;
    } else {
      assert lsd == 5 || lsd == 6 || lsd == 7 || lsd == 8 || lsd == 9;
    }
  }

  lemma HexTable(d: nat)
    requires d < 16
    ensures DIGITS_HEX[d] == DigitChar(d)
  {
    if d < 8 {
      assert d == 0 || d == 1 || d == 2 || d == 3 || d == 4 || d == 5 || d == 6 || d == 7;
    } else {
      assert d == 8 || d == 9 || d == 10 || d == 11 || d == 12 || d == 13 || d == 14 || d == 15;
    }
  }

  // ---- The text of a number ---------------------------------------------------

  function Numeral(n: nat, base: nat): (s: string)
    requires IsBase(base)
    ensures s != []
  {
    if n < base then [DigitChar(n)] else Numeral(Quot(n, base), base) + [DigitChar(Rem(n, base))]
  }

  function Abs(v: int): nat { if v < 0 then -v else v }

  function Decimal(v: int): string {
    if v < 0 then "-" + Numeral(Abs(v), 10) else Numeral(Abs(v), 10)
  }

  /** The value of a digit string; leading zeros are accepted. */
  function ParseNat(s: string, base: nat): Option<nat>
    requires IsBase(base)
  {
    if s == [] then None
    else
      var d := DigitValue(s[|s| - 1], base);
      if d.None? then None
      else if |s| == 1 then d
      else
        var high := ParseNat(s[..|s| - 1], base);
        if high.None? then None else Some(Scale(base, high.value) + d.value)
  }

  function Parse(s: string): Option<int> {
    if s != [] && s[0] == '-' then
      var m := ParseNat(s[1..], 10);
      if m.None? then None else Some(-(m.value as int))
    else
      var m := ParseNat(s, 10);
      if m.None? then None else Some(m.value)
  }

  predicate CanonicalNat(s: string, base: nat)
    requires IsBase(base)
  {
    ParseNat(s, base).Some? && (|s| > 1 ==> s[0] != '0')
  }

  /** No leading zero, and no sign on zero. */
  predicate Canonical(s: string) {
    if s != [] && s[0] == '-' then CanonicalNat(s[1..], 10) && s != "-0"
    else CanonicalNat(s, 10)
  }

  lemma {:induction false} NumeralCanonical(n: nat, base: nat)
    requires IsBase(base)
    ensures ParseNat(Numeral(n, base), base) == Some(n)
    ensures CanonicalNat(Numeral(n, base), base)
    ensures Numeral(n, base)[0] != '-' && (Numeral(n, base)[0] == '0' <==> n == 0)
  {
    if n >= base {
      var q := Quot(n, base);
      NumeralCanonical(q, base);
      var s := Numeral(n, base);
      assert s[..|s| - 1] == Numeral(q, base);
      assert s[0] == Numeral(q, base)[0];
    }
  }

  /** A value is read back by ParseNat as nonzero unless its text is all zeros. */
  lemma {:induction false} NumeralUnique(s: string, base: nat)
    requires IsBase(base) && CanonicalNat(s, base)
    ensures Numeral(ParseNat(s, base).value, base) == s
    ensures |s| > 1 ==> ParseNat(s, base).value >= base
  {
    var d := DigitValue(s[|s| - 1], base).value;
    assert DigitChar(d) == s[|s| - 1];
    if |s| == 1 {
      assert s == [s[0]];
    } else {
      var t := s[..|s| - 1];
      NumeralUnique(t, base);
      var h := ParseNat(t, base).value;
      var n := ParseNat(s, base).value;
      assert n == Scale(base, h) + d;
      if |t| == 1 {
        assert h != 0 by {
          assert t[0] == s[0];
        }
      }
      assert Quot(n, base) == h && Rem(n, base) == d;
      assert s == t + [s[|s| - 1]];
    }
  }

  lemma DecimalReadsBack(v: int)
    ensures Canonical(Decimal(v)) && Parse(Decimal(v)) == Some(v)
  {
    var m := Numeral(Abs(v), 10);
    NumeralCanonical(Abs(v), 10);
    if v < 0 {
      assert Decimal(v)[1..] == m;
      assert Decimal(v)[1] == m[0];
    }
  }

  lemma DecimalUnique(s: string)
    requires Canonical(s)
    ensures Parse(s).Some? && s == Decimal(Parse(s).value)
  {
    if s != [] && s[0] == '-' {
      NumeralUnique(s[1..], 10);
      if ParseNat(s[1..], 10) == Some(0) {
        NumeralZero(s[1..]);
        assert false;
      }
      assert s == "-" + s[1..];
    } else {
      NumeralUnique(s, 10);
    }
  }

  lemma NumeralZero(s: string)
    requires CanonicalNat(s, 10) && ParseNat(s, 10) == Some(0)
    ensures s == "0"
  {
    NumeralUnique(s, 10);
  }

  /**
   * Printing and parsing are inverse: a text is what `convert` prints for `v`
   * exactly when it is canonical and reads as `v`.
   */
  lemma DecimalExact(s: string, v: int)
    ensures s == Decimal(v) <==> Canonical(s) && Parse(s) == Some(v)
  {
    DecimalReadsBack(v);
    if Canonical(s) {
      DecimalUnique(s);
    }
  }

  /** The same for `convertHex`, whose argument is unsigned. */
  lemma HexExact(s: string, n: nat)
    ensures s == Numeral(n, 16) <==> CanonicalNat(s, 16) && ParseNat(s, 16) == Some(n)
  {
    NumeralCanonical(n, 16);
    if CanonicalNat(s, 16) {
      NumeralUnique(s, 16);
    }
  }

  // ---- Length -----------------------------------------------------------------

  function Pow(base: nat, k: nat): nat
    requires IsBase(base)
  {
    if k == 0 then 1 else Scale(base, Pow(base, k - 1))
  }

  lemma {:induction false} NumeralLength(n: nat, base: nat, k: nat)
    requires IsBase(base) && k >= 1
    ensures |Numeral(n, base)| <= k <==> n < Pow(base, k)
    decreases k
  {
    if k == 1 {
      assert Pow(base, 1) == Scale(base, Pow(base, 0)) == base;
      if n >= base {
        assert |Numeral(Quot(n, base), base)| >= 1;
      }
    } else {
      PowPositive(base, k - 1);
      if n >= base {
        NumeralLength(Quot(n, base), base, k - 1);
      } else {
        assert Pow(base, k) == Scale(base, Pow(base, k - 1));
      }
    }
  }

  lemma {:induction false} PowPositive(base: nat, k: nat)
    requires IsBase(base)
    ensures Pow(base, k) >= 1
  {
    if k > 0 { PowPositive(base, k - 1); }
  }

  lemma {:induction false} PowSum(base: nat, i: nat, j: nat)
    requires IsBase(base)
    ensures Pow(base, i + j) == Pow(base, i) * Pow(base, j)
  {
    if i == 0 {
    } else {
      PowSum(base, i - 1, j);
      var x, y := Pow(base, i - 1), Pow(base, j);
      assert Pow(base, i + j) == Scale(base, x * y);
      if base == 10 {
        assert 10 * (x * y) == (10 * x) * y;
      } else {
        assert 16 * (x * y) == (16 * x) * y;
      }
    }
  }

  lemma Pow10Of20()
    ensures Pow(10, 19) == 10_000_000_000_000_000_000
    ensures Pow(10, 20) == 100_000_000_000_000_000_000
  {
    assert Pow(10, 1) == 10 && Pow(10, 2) == 100 && Pow(10, 3) == 1000 && Pow(10, 4) == 10000;
    PowSum(10, 4, 4);
    PowSum(10, 8, 8);
    PowSum(10, 16, 4);
    assert Pow(10, 20) == Scale(10, Pow(10, 19));
  }

  lemma Pow16Of16()
    ensures Pow(16, 16) == 0x1_0000_0000_0000_0000
  {
    assert Pow(16, 1) == 16 && Pow(16, 2) == 256 && Pow(16, 3) == 4096 && Pow(16, 4) == 65536;
    PowSum(16, 4, 4);
    PowSum(16, 8, 8);
  }

  /** The types `convert` is instantiated at; `long` and `long long` are 64 bits wide. */
  datatype IntType = Int32 | UInt32 | Int64 | UInt64

  predicate InRange(t: IntType, v: int) {
    match t
    case Int32 => -0x8000_0000 <= v < 0x8000_0000
    case UInt32 => 0 <= v < 0x1_0000_0000
    case Int64 => -0x8000_0000_0000_0000 <= v < 0x8000_0000_0000_0000
    case UInt64 => 0 <= v < 0x1_0000_0000_0000_0000
  }

  const MAX_DECIMAL := 20
  const MAX_HEX := 16

  lemma DecimalLength(t: IntType, v: int)
    requires InRange(t, v)
    ensures |Decimal(v)| <= MAX_DECIMAL
  {
    Pow10Of20();
    if v < 0 {
      NumeralLength(Abs(v), 10, 19);
    } else {
      NumeralLength(Abs(v), 10, 20);
    }
  }

  lemma HexLength(n: nat)
    ensures |Numeral(n, 16)| <= MAX_HEX <==> n < 0x1_0000_0000_0000_0000
  {
    Pow16Of16();
    NumeralLength(n, 16, 16);
  }

  // ---- The loops --------------------------------------------------------------

  /** The digits of `n`, least significant first: what the digit loop has left to write. */
  function LowFirst(n: nat, base: nat): string
    requires IsBase(base)
    decreases n
  {
    [DigitChar(Rem(n, base))] + (if n < base then [] else LowFirst(Quot(n, base), base))
  }

  lemma {:induction false} LowFirstReversed(n: nat, base: nat)
    requires IsBase(base)
    ensures Reverse(LowFirst(n, base)) == Numeral(n, base)
    decreases n
  {
    var s := LowFirst(n, base);
    assert Reverse(s) == Reverse(s[1..]) + [s[0]];
    if n >= base {
      LowFirstReversed(Quot(n, base), base);
      assert s[1..] == LowFirst(Quot(n, base), base);
    } else {
      assert s[1..] == [];
    }
  }

  /** `now` is `was` with `text` written over it at `off`. */
  ghost predicate Overwritten(was: seq<char>, off: nat, text: string, now: seq<char>) {
    && |now| == |was| && off + |text| <= |was|
    && forall k {:trigger now[k]} :: 0 <= k < |was| ==>
         now[k] == if off <= k < off + |text| then text[k - off] else was[k]
  }

  /** `*p++ = c`, where `c` is the next character of the text being written. */
  method Put(buf: array<char>, p: nat, c: char, ghost was: seq<char>, ghost off: nat, ghost text: string)
    requires off <= p < off + |text| <= buf.Length
    requires Overwritten(was, off, text[..p - off], buf[..])
    requires c == text[p - off]
    modifies buf
    ensures Overwritten(was, off, text[..p - off + 1], buf[..])
  {
    buf[p] := c;
  }

  lemma SwappedIsReversed(was: seq<char>, lo: nat, hi: nat, now: seq<char>)
    requires lo <= hi <= |was| == |now|
    requires forall k {:trigger now[k]} :: lo <= k < hi ==> now[k] == was[lo + hi - 1 - k]
    requires forall k {:trigger now[k]} :: 0 <= k < lo || hi <= k < |was| ==> now[k] == was[k]
    ensures Overwritten(was, lo, Reverse(was[lo..hi]), now)
  {
  }

  /** std::reverse(buf + lo, buf + hi). */
  method ReverseRange(buf: array<char>, lo: nat, hi: nat)
    requires lo <= hi <= buf.Length
    modifies buf
    ensures Overwritten(old(buf[..]), lo, Reverse(old(buf[lo..hi])), buf[..])
  {
    ghost var was := buf[..];
    var i, j := lo, hi;
    while i < j && i < j - 1
      invariant lo <= i <= j <= hi && i - lo == hi - j
      invariant forall k :: lo <= k < i || j <= k < hi ==> buf[k] == was[lo + hi - 1 - k]
      invariant forall k :: 0 <= k < lo || i <= k < j || hi <= k < buf.Length ==> buf[k] == was[k]
      decreases j - i
    {
      buf[i], buf[j - 1] := buf[j - 1], buf[i];
      i, j := i + 1, j - 1;
    }
    assert old(buf[lo..hi]) == was[lo..hi];
    SwappedIsReversed(was, lo, hi, buf[..]);
  }

  /** What one round of the digit loop finds: the next digit of |i|, then the rest. */
  lemma DigitStep(low: string, n: nat, i: int)
    requires n <= |low| && low[n..] == LowFirst(Abs(i), 10)
    ensures n < |low| && -9 <= TruncMod(i, 10) <= 9
    ensures low[n] == DigitChar(Abs(TruncMod(i, 10)))
    ensures if TruncDiv(i, 10) == 0 then n + 1 == |low| else low[n + 1..] == LowFirst(Abs(TruncDiv(i, 10)), 10)
  {
    assert Abs(TruncMod(i, 10)) == Rem(Abs(i), 10);
    assert Abs(TruncDiv(i, 10)) == Quot(Abs(i), 10);
    assert low[n] == low[n..][0] && low[n + 1..] == low[n..][1..];
  }

  lemma HexDigitStep(low: string, n: nat, i: nat)
    requires n <= |low| && low[n..] == LowFirst(i, 16)
    ensures n < |low|
    ensures low[n] == DigitChar(i % 16)
    ensures if i / 16 == 0 then n + 1 == |low| else low[n + 1..] == LowFirst(i / 16, 16)
  {
    assert low[n] == low[n..][0] && low[n + 1..] == low[n..][1..];
  }

  /** `*p++ = zero[lsd]`: the symmetric table gives the digit of |lsd|. */
  method PutDigit(buf: array<char>, p: nat, lsd: int, ghost was: seq<char>, ghost off: nat, ghost text: string)
    requires off <= p < off + |text| <= buf.Length
    requires Overwritten(was, off, text[..p - off], buf[..])
    requires -9 <= lsd <= 9 && text[p - off] == DigitChar(Abs(lsd))
    modifies buf
    ensures Overwritten(was, off, text[..p - off + 1], buf[..])
  {
    SymmetricTable(lsd);
    Put(buf, p, DIGITS[9 + lsd], was, off, text);
  }

  /** `*p++ = digitsHex[lsd]`. */
  method PutHexDigit(buf: array<char>, p: nat, lsd: nat, ghost was: seq<char>, ghost off: nat, ghost text: string)
    requires off <= p < off + |text| <= buf.Length
    requires Overwritten(was, off, text[..p - off], buf[..])
    requires lsd < 16 && text[p - off] == DigitChar(lsd)
    modifies buf
    ensures Overwritten(was, off, text[..p - off + 1], buf[..])
  {
    HexTable(lsd);
    Put(buf, p, DIGITS_HEX[lsd], was, off, text);
  }

  /** Overwriting a text by its own reversal. */
  lemma ReversedOverwrite(was: seq<char>, off: nat, text: string, mid: seq<char>, now: seq<char>)
    requires Overwritten(was, off, text, mid)
    requires Overwritten(mid, off, Reverse(mid[off..off + |text|]), now)
    ensures Overwritten(was, off, Reverse(text), now)
  {
    assert mid[off..off + |text|] == text;
    forall k {:trigger now[k]} | 0 <= k < |was|
      ensures now[k] == if off <= k < off + |text| then Reverse(text)[k - off] else was[k]
    {
      assert mid[k] == if off <= k < off + |text| then text[k - off] else was[k];
    }
  }

  /** The common tail of both printers: the NUL, then the reversal of the text before it. */
  method Finish(buf: array<char>, off: nat, p: nat, ghost was: seq<char>, ghost text: string) returns (len: nat)
    requires p < buf.Length && p == off + |text|
    requires Overwritten(was, off, text, buf[..])
    modifies buf
    ensures len == |text|
    ensures Overwritten(was[p := '\0'], off, Reverse(text), buf[..])
  {
    buf[p] := '\0';
    ghost var mid := buf[..];
    ReverseRange(buf, off, p);
    ReversedOverwrite(was[p := '\0'], off, text, mid, buf[..]);
    len := p - off;
  }

  /** The characters `convert` writes before it reverses them. */
  ghost function Backward(value: int): (s: string)
    ensures Reverse(s) == Decimal(value)
    ensures LowFirst(Abs(value), 10) <= s
    ensures |s| == |LowFirst(Abs(value), 10)| + if value < 0 then 1 else 0
    ensures value < 0 ==> s[|s| - 1] == '-'
  {
    LowFirstReversed(Abs(value), 10);
    var low := LowFirst(Abs(value), 10);
    if value < 0 then
      assert Reverse(low + ['-']) == ['-'] + Reverse(low);
      low + ['-']
    else
      low
  }

  /** The do-while loop of `convert`: the digits of |value|, least significant first. */
  method WriteDigits(buf: array<char>, off: nat, value: int, ghost text: string) returns (p: nat)
    requires off + |text| <= buf.Length && LowFirst(Abs(value), 10) <= text
    modifies buf
    ensures p == off + |LowFirst(Abs(value), 10)|
    ensures Overwritten(old(buf[..]), off, text[..p - off], buf[..])
  {
    ghost var was := buf[..];
    ghost var low := LowFirst(Abs(value), 10);
    p := off;
    var i, more := value, true;
    while more
      invariant off <= p <= off + |low|
      invariant if more then low[p - off..] == LowFirst(Abs(i), 10) else p == off + |low|
      invariant Overwritten(was, off, text[..p - off], buf[..])
      decreases more, Abs(i)
    {
      DigitStep(low, p - off, i);
      var lsd := TruncMod(i, 10);
      i := TruncDiv(i, 10);
      PutDigit(buf, p, lsd, was, off, text);
      p := p + 1;
      more := i != 0;
    }
  }

  /** Writes the decimal text of `value` and a NUL at `buf + off`, and nothing else. */
  method Convert(buf: array<char>, off: nat, value: int) returns (len: nat)
    requires off + |Decimal(value)| < buf.Length
    modifies buf
    ensures len == |Decimal(value)|
    ensures Overwritten(old(buf[..])[off + len := '\0'], off, Decimal(value), buf[..])
  {
    ghost var was := buf[..];
    ghost var text := Backward(value);
    var p := WriteDigits(buf, off, value, text);
    if value < 0 {
      Put(buf, p, '-', was, off, text);
      p := p + 1;
    }
    assert text[..p - off] == text;
    len := Finish(buf, off, p, was, text);
  }

  /** The same in base 16, for an unsigned value. */
  method ConvertHex(buf: array<char>, off: nat, value: nat) returns (len: nat)
    requires off + |Numeral(value, 16)| < buf.Length
    modifies buf
    ensures len == |Numeral(value, 16)|
    ensures Overwritten(old(buf[..])[off + len := '\0'], off, Numeral(value, 16), buf[..])
  {
    ghost var was := buf[..];
    ghost var low := LowFirst(value, 16);
    LowFirstReversed(value, 16);
    var i: nat, p, more := value, off, true;
    while more
      invariant off <= p <= off + |low|
      invariant if more then low[p - off..] == LowFirst(i, 16) else p == off + |low|
      invariant Overwritten(was, off, low[..p - off], buf[..])
      decreases more, i
    {
      HexDigitStep(low, p - off, i);
      var lsd := i % 16;
      i := i / 16;
      PutHexDigit(buf, p, lsd, was, off, low);
      p := p + 1;
      more := i != 0;
    }
    assert low[..p - off] == low;
    len := Finish(buf, off, p, was, low);
  }
}
