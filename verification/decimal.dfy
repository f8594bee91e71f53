/**
 * Decimal rendering and parsing of integers as Python does it: `str(n)`,
 * the zero-padded format `f"{n:0Wd}"`, the grouped format `f"{n:,}"` and
 * the `int(s)` constructor.
 */
module Decimal {
  import opened Wrappers
  import opened Text

  function DigitChar(d: nat): (c: char)
    requires d < 10
    ensures IsDigit(c)
    ensures DigitValue(c) == d
  {
    ('0' as int + d) as char
  }

  function DigitValue(c: char): (d: nat)
    requires IsDigit(c)
    ensures d < 10
  {
    c as int - '0' as int
  }

  function Pow10(k: nat): (r: nat)
    ensures r >= 1
  {
    if k == 0 then 1 else 10 * Pow10(k - 1)
  }

  /** The value of a string of digits read in base ten (leading zeros allowed). */
  function DigitsVal(s: string): nat
    requires forall i :: 0 <= i < |s| ==> IsDigit(s[i])
    decreases |s|
  {
    if |s| == 0 then 0 else DigitsVal(s[..|s| - 1]) * 10 + DigitValue(s[|s| - 1])
  }

  /** Python's `str(n)` for a non-negative integer: the canonical digit string. */
  function NatToString(n: nat): (r: string)
    ensures IsDigits(r)
    ensures DigitsVal(r) == n
    ensures r[0] == '0' ==> r == "0"
    ensures |r| <= 1 <==> n < 10
    decreases n
  {
    if n < 10 then [DigitChar(n)]
    else
      var r := NatToString(n / 10) + [DigitChar(n % 10)];
      assert r[..|r| - 1] == NatToString(n / 10);
      r
  }

  /** Python's `str(i)` for any integer. */
  function IntToString(i: int): (r: string)
    ensures |r| > 0
    ensures i >= 0 ==> r == NatToString(i)
    ensures i < 0 ==> r[0] == '-' && r[1..] == NatToString(-i)
  {
    if i < 0 then "-" + NatToString(-i) else NatToString(i)
  }

  function Zeros(k: nat): (r: string)
    ensures |r| == k
    ensures forall j :: 0 <= j < k ==> r[j] == '0'
  {
    seq(k, j => '0')
  }

  /** `f"{n:0Wd}"` for a non-negative integer: at least `width` digits. */
  function PadNat(n: nat, width: nat): (r: string)
    ensures IsDigits(r)
    ensures DigitsVal(r) == n
    ensures |r| == if |NatToString(n)| >= width then |NatToString(n)| else width
  {
    var d := NatToString(n);
    var r := if |d| >= width then d else Zeros(width - |d|) + d;
    LeadingZeros(width - |d|, d);
    r
  }

  /**
   * `f"{i:0Wd}"` for any integer: the sign counts toward the width, so
   * `f"{-5:02d}"` is `"-5"` and `f"{-5:03d}"` is `"-05"`.
   */
  function PadInt(i: int, width: nat): (r: string)
    ensures i >= 0 ==> r == PadNat(i, width)
    ensures i < 0 ==> |r| >= 2 && r[0] == '-' && IsDigits(r[1..]) && DigitsVal(r[1..]) == -i
  {
    if i >= 0 then PadNat(i, width)
    else "-" + PadNat(-i, if width >= 1 then width - 1 else 0)
  }

  lemma {:induction false} DigitsValAppend(a: string, b: string)
    requires forall i :: 0 <= i < |a| ==> IsDigit(a[i])
    requires forall i :: 0 <= i < |b| ==> IsDigit(b[i])
    ensures forall i :: 0 <= i < |a + b| ==> IsDigit((a + b)[i])
    ensures DigitsVal(a + b) == DigitsVal(a) * Pow10(|b|) + DigitsVal(b)
    decreases |b|
  {
    if |b| == 0 {
      assert a + b == a;
    } else {
      var b', c := b[..|b| - 1], b[|b| - 1];
      assert (a + b)[..|a + b| - 1] == a + b';
      assert (a + b)[|a + b| - 1] == c;
      DigitsValAppend(a, b');
      ShiftDigit(DigitsVal(a), Pow10(|b'|), DigitsVal(b'), DigitValue(c));
    }
  }

  lemma {:induction false} ShiftDigit(x: int, p: int, y: int, v: int)
    ensures (x * p + y) * 10 + v == x * (10 * p) + (y * 10 + v)
  {
  }

  /** A string of k digits is worth less than 10^k. */
  lemma {:induction false} DigitsValBound(s: string)
    requires forall i :: 0 <= i < |s| ==> IsDigit(s[i])
    ensures DigitsVal(s) < Pow10(|s|)
    decreases |s|
  {
    if |s| > 0 {
      DigitsValBound(s[..|s| - 1]);
    }
  }

  lemma {:induction false} ZerosVal(k: nat)
    ensures DigitsVal(Zeros(k)) == 0
    decreases k
  {
    if k > 0 {
      assert Zeros(k)[..k - 1] == Zeros(k - 1);
      ZerosVal(k - 1);
    }
  }

  /** Leading zeros do not change the value of a digit string. */
  lemma {:induction false} LeadingZeros(k: int, d: string)
    requires forall i :: 0 <= i < |d| ==> IsDigit(d[i])
    ensures k > 0 ==> DigitsVal(Zeros(k) + d) == DigitsVal(d)
  {
    if k > 0 {
      DigitsValAppend(Zeros(k), d);
      ZerosVal(k);
    }
  }

  /** Python's `int(s)` on a string: surrounding whitespace, an optional sign, then digits. */
  function ParseInt(s: string): Option<int> {
    ParseSigned(Strip(s))
  }

  /** An optional sign followed by at least one digit. */
  function ParseSigned(t: string): Option<int> {
    if |t| > 0 && (t[0] == '-' || t[0] == '+') then
      if IsDigits(t[1..]) then Some(Signed(t[0] == '-', t[1..])) else None
    else if IsDigits(t) then Some(Signed(false, t))
    else None
  }

  /** The value of a digit string, negated when `neg` holds. */
  function Signed(neg: bool, d: string): int
    requires IsDigits(d)
  {
    if neg then -(DigitsVal(d) as int) else DigitsVal(d)
  }

  lemma {:induction false} StripDigits(d: string)
    requires IsDigits(d)
    ensures Strip(d) == d
  {
    StripOfStripped(d);
  }

  lemma {:induction false} ParseSignedDigits(d: string)
    requires IsDigits(d)
    ensures ParseSigned(d) == Some(DigitsVal(d))
  {
  }

  /** A string of digits reads back as its digit value. */
  lemma {:induction false} ParseDigits(d: string, v: int)
    requires IsDigits(d) && DigitsVal(d) == v
    ensures ParseInt(d) == Some(v)
  {
    StripDigits(d);
    ParseSignedDigits(d);
    ParseIntVia(d, d, Some(v));
  }

  /** `int(s)` is the signed reading of the stripped string. */
  lemma {:induction false} ParseIntVia(s: string, t: string, r: Option<int>)
    requires Strip(s) == t && ParseSigned(t) == r
    ensures ParseInt(s) == r
  {
  }

  /** `int(str(i)) == i`. */
  lemma {:induction false} ParseIntOfIntToString(i: int)
    ensures ParseInt(IntToString(i)) == Some(i)
  {
    if i >= 0 {
      ParseIntOfNonNegString(i);
    } else {
      ParseIntOfNegString(i);
    }
  }

  lemma {:induction false} ParseIntOfNonNegString(i: int)
    requires i >= 0
    ensures ParseInt(IntToString(i)) == Some(i)
  {
    ParseDigits(IntToString(i), i);
  }

  lemma {:induction false} ParseIntOfNegString(i: int)
    requires i < 0
    ensures ParseInt(IntToString(i)) == Some(i)
  {
    ParseNegString(IntToString(i), -i);
  }

  /** A minus sign followed by digits reads back as the negated digit value. */
  lemma {:induction false} ParseNegString(r: string, v: nat)
    requires |r| >= 2 && r[0] == '-' && IsDigits(r[1..]) && DigitsVal(r[1..]) == v
    ensures ParseInt(r) == Some(-(v as int))
  {
    StripNegString(r);
    ParseSignedNegString(r, v);
    ParseIntVia(r, r, Some(-(v as int)));
  }

  lemma {:induction false} StripNegString(r: string)
    requires |r| >= 2 && r[0] == '-' && IsDigits(r[1..])
    ensures Strip(r) == r
  {
    assert r[|r| - 1] == r[1..][|r| - 2];
    StripOfStripped(r);
  }

  lemma {:induction false} ParseSignedNegString(r: string, v: nat)
    requires |r| >= 2 && r[0] == '-' && IsDigits(r[1..]) && DigitsVal(r[1..]) == v
    ensures ParseSigned(r) == Some(-(v as int))
  {
  }

  /** `int(f"{i:0Wd}") == i` whatever the width. */
  lemma {:induction false} ParseIntOfPadInt(i: int, width: nat)
    ensures ParseInt(PadInt(i, width)) == Some(i)
  {
    if i >= 0 {
      ParseIntOfNonNegPad(i, width);
    } else {
      ParseIntOfNegPad(i, width);
    }
  }

  lemma {:induction false} ParseIntOfNonNegPad(i: int, width: nat)
    requires i >= 0
    ensures ParseInt(PadInt(i, width)) == Some(i)
  {
    ParseDigits(PadInt(i, width), i);
  }

  lemma {:induction false} ParseIntOfNegPad(i: int, width: nat)
    requires i < 0
    ensures ParseInt(PadInt(i, width)) == Some(i)
  {
    ParseNegString(PadInt(i, width), -i);
  }

  // ---------------------------------------------------------------------------
  // Thousands grouping
  // ---------------------------------------------------------------------------

  /** The digit string `d` with a comma inserted before every group of three from the right. */
  function GroupDigits(d: string): string
    decreases |d|
  {
    if |d| <= 3 then d else GroupDigits(d[..|d| - 3]) + "," + d[|d| - 3..]
  }

  /** Python's `f"{i:,}"`. */
  function Grouped(i: int): (r: string)
    ensures RemoveChar(r, ',') == IntToString(i)
  {
    var d := NatToString(if i < 0 then -i else i);
    GroupDigitsUngroup(d);
    if i < 0 then
      RemoveCharAppend("-", GroupDigits(d), ',');
      "-" + GroupDigits(d)
    else GroupDigits(d)
  }

  /** Deleting the grouping commas gives the digits back. */
  lemma {:induction false} GroupDigitsUngroup(d: string)
    requires IsDigits(d)
    ensures RemoveChar(GroupDigits(d), ',') == d
    decreases |d|
  {
    if |d| <= 3 {
      RemoveCharAbsent(d, ',');
    } else {
      var hi, lo := d[..|d| - 3], d[|d| - 3..];
      GroupDigitsUngroup(hi);
      RemoveCharAppend(GroupDigits(hi) + ",", lo, ',');
      RemoveCharAppend(GroupDigits(hi), ",", ',');
      RemoveCharAbsent(lo, ',');
      assert d == hi + lo;
    }
  }
}
