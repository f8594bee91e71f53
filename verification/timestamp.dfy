/**
 * SubRip timestamps `HH:MM:SS,mmm` and their conversion to and from
 * milliseconds, plus the timing-line matchers the stages use.
 */
module Timestamp {
  import opened Wrappers
  import opened Text
  import opened Decimal

  /** The shape `\d{2}:\d{2}:\d{2},\d{3}`. */
  predicate IsTimeStr(t: string) {
    |t| == 12
    && IsDigit(t[0]) && IsDigit(t[1]) && t[2] == ':'
    && IsDigit(t[3]) && IsDigit(t[4]) && t[5] == ':'
    && IsDigit(t[6]) && IsDigit(t[7]) && t[8] == ','
    && IsDigit(t[9]) && IsDigit(t[10]) && IsDigit(t[11])
  }

  /** Hours, minutes, seconds and milliseconds counted in milliseconds. */
  function Millis(h: int, m: int, s: int, ms: int): int {
    h * 3600000 + m * 60000 + s * 1000 + ms
  }

  /** The number of milliseconds a well-formed timestamp spells out, field by field. */
  function TimeValue(t: string): int
    requires IsTimeStr(t)
  {
    Millis(DigitsVal(t[0..2]), DigitsVal(t[3..5]), DigitsVal(t[6..8]), DigitsVal(t[9..12]))
  }

  /**
   * `parse_time_to_ms`: split on `:`, then the third part on `,`, and read
   * the four leading fields with `int()`.  Extra fields are ignored; a missing
   * field (`IndexError`) or a field `int()` rejects (`ValueError`) gives `None`.
   * On `HH:MM:SS,mmm` the value is H·3600000 + M·60000 + S·1000 + mmm.
   */
  function ParseTimeToMs(t: string): (r: Option<int>)
    ensures IsTimeStr(t) ==> r == Some(TimeValue(t))
  {
    WellFormedFields(t);
    var parts := Split(t, ':');
    if |parts| < 3 then None else ParseFields(parts[0], parts[1], parts[2])
  }

  function ParseFields(hours: string, minutes: string, rest: string): Option<int> {
    var sec := Split(rest, ',');
    if |sec| < 2 then None
    else
      var h, m, s, ms := ParseInt(hours), ParseInt(minutes), ParseInt(sec[0]), ParseInt(sec[1]);
      if h.None? || m.None? || s.None? || ms.None? then None
      else Some(Millis(h.value, m.value, s.value, ms.value))
  }

  /** `ms_to_time_str`: floor division into fields, each zero-padded (hours to at least two digits). */
  function MsToTimeStr(ms: int): (r: string)
    ensures 0 <= ms < 100 * 3600000 ==> IsTimeStr(r)
  {
    RenderShape(ms);
    Render(ms / 3600000, ms % 3600000 / 60000, ms % 3600000 % 60000 / 1000, ms % 3600000 % 60000 % 1000)
  }

  /** The four fields joined as `HH:MM:SS,mmm`, hours possibly negative or wider than two digits. */
  function Render(h: int, m: nat, s: nat, f: nat): string {
    PadInt(h, 2) + ":" + PadNat(m, 2) + ":" + PadNat(s, 2) + "," + PadNat(f, 3)
  }

  // ---------------------------------------------------------------------------
  // Round trips
  // ---------------------------------------------------------------------------

  lemma {:induction false} Join3(a: string, b: string, c: string, sep: string)
    ensures Join([a, b, c], sep) == a + sep + b + sep + c
  {
    assert [a, b, c][1..] == [b, c];
    Join2(b, c, sep);
  }

  lemma {:induction false} Join2(a: string, b: string, sep: string)
    ensures Join([a, b], sep) == a + sep + b
  {
    assert [a, b][1..] == [b];
  }

  lemma {:induction false} Split3(a: string, b: string, c: string, ch: char)
    requires !HasChar(a, ch) && !HasChar(b, ch) && !HasChar(c, ch)
    ensures Split(a + [ch] + b + [ch] + c, ch) == [a, b, c]
  {
    Join3(a, b, c, [ch]);
    SplitOfJoin([a, b, c], ch);
  }

  lemma {:induction false} Split2(a: string, b: string, ch: char)
    requires !HasChar(a, ch) && !HasChar(b, ch)
    ensures Split(a + [ch] + b, ch) == [a, b]
  {
    Join2(a, b, [ch]);
    SplitOfJoin([a, b], ch);
  }

  /** The four fields of a well-formed timestamp are digit strings. */
  lemma {:induction false} FieldsAreDigits(t: string)
    requires IsTimeStr(t)
    ensures IsDigits(t[0..2]) && IsDigits(t[3..5]) && IsDigits(t[6..8]) && IsDigits(t[9..12])
  {
  }

  /** How `split(':')` and then `split(',')` cut a well-formed timestamp. */
  lemma {:induction false} FieldsSplit(t: string)
    requires IsTimeStr(t)
    ensures Split(t, ':') == [t[0..2], t[3..5], t[6..12]]
    ensures Split(t[6..12], ',') == [t[6..8], t[9..12]]
  {
    var a, b, c := t[0..2], t[3..5], t[6..12];
    var s, f := t[6..8], t[9..12];
    assert t == a + [':'] + b + [':'] + c;
    assert c == s + [','] + f;
    assert !HasChar(a, ':') && !HasChar(b, ':') && !HasChar(c, ':');
    assert !HasChar(s, ',') && !HasChar(f, ',');
    Split3(a, b, c, ':');
    Split2(s, f, ',');
  }

  /** The fields of `HH:MM:SS,mmm` read as H·3600000 + M·60000 + S·1000 + mmm. */
  lemma {:induction false} WellFormedFields(t: string)
    ensures IsTimeStr(t) ==>
      var parts := Split(t, ':');
      |parts| >= 3 && ParseFields(parts[0], parts[1], parts[2]) == Some(TimeValue(t))
  {
    if IsTimeStr(t) {
      FieldsSplit(t);
      FieldsAreDigits(t);
      var h, m, s, f := t[0..2], t[3..5], t[6..8], t[9..12];
      ParseFieldsOfDigits(h, m, t[6..12], s, f);
    }
  }

  lemma {:induction false} ParseFieldsOfDigits(h: string, m: string, rest: string, s: string, f: string)
    requires IsDigits(h) && IsDigits(m) && IsDigits(s) && IsDigits(f)
    requires Split(rest, ',') == [s, f]
    ensures ParseFields(h, m, rest) == Some(Millis(DigitsVal(h), DigitsVal(m), DigitsVal(s), DigitsVal(f)))
  {
    ParseDigits(h, DigitsVal(h));
    ParseDigits(m, DigitsVal(m));
    ParseDigits(s, DigitsVal(s));
    ParseDigits(f, DigitsVal(f));
    ParseFieldsOf(h, m, rest, s, f, DigitsVal(h), DigitsVal(m), DigitsVal(s), DigitsVal(f));
  }

  /** Below one hundred hours every field renders at its nominal width. */
  lemma {:induction false} RenderShape(ms: int)
    ensures 0 <= ms < 100 * 3600000 ==>
      IsTimeStr(Render(ms / 3600000, ms % 3600000 / 60000, ms % 3600000 % 60000 / 1000, ms % 3600000 % 60000 % 1000))
  {
    if 0 <= ms < 100 * 3600000 {
      RenderIsTimeStr(ms / 3600000, ms % 3600000 / 60000, ms % 3600000 % 60000 / 1000, ms % 3600000 % 60000 % 1000);
    }
  }

  lemma {:induction false} RenderIsTimeStr(h: int, m: nat, s: nat, f: nat)
    requires 0 <= h < 100 && m < 100 && s < 100 && f < 1000
    ensures IsTimeStr(Render(h, m, s, f))
  {
    PadNatWidth(h, 2);
    PadNatWidth(m, 2);
    PadNatWidth(s, 2);
    PadNatWidth(f, 3);
    assert PadInt(h, 2) == PadNat(h, 2);
    ShapeOfFields(PadNat(h, 2), PadNat(m, 2), PadNat(s, 2), PadNat(f, 3));
  }

  /** Two, two, two and three digits joined by `:`, `:` and `,` make a well-formed timestamp. */
  lemma {:induction false} ShapeOfFields(a: string, b: string, c: string, d: string)
    requires |a| == 2 && |b| == 2 && |c| == 2 && |d| == 3
    requires IsDigits(a) && IsDigits(b) && IsDigits(c) && IsDigits(d)
    ensures IsTimeStr(a + ":" + b + ":" + c + "," + d)
  {
    var r := a + ":" + b + ":" + c + "," + d;
    assert r[0] == a[0] && r[1] == a[1] && r[3] == b[0] && r[4] == b[1];
    assert r[6] == c[0] && r[7] == c[1] && r[9] == d[0] && r[10] == d[1] && r[11] == d[2];
  }

  lemma {:induction false} PadNatWidth(n: nat, w: nat)
    requires w >= 1 && n < Pow10(w)
    ensures |PadNat(n, w)| == w
  {
    NatToStringLength(n, w);
  }

  lemma {:induction false} NatToStringLength(n: nat, w: nat)
    requires w >= 1 && n < Pow10(w)
    ensures |NatToString(n)| <= w
    decreases w
  {
    if n >= 10 {
      assert w >= 2;
      NatToStringLength(n / 10, w - 1);
    }
  }

  /** Parsing a rendered timestamp gives back the millisecond count, for every integer. */
  lemma {:induction false} RenderThenParse(ms: int)
    ensures ParseTimeToMs(MsToTimeStr(ms)) == Some(ms)
  {
    var h, m, s, f := ms / 3600000, ms % 3600000 / 60000, ms % 3600000 % 60000 / 1000, ms % 3600000 % 60000 % 1000;
    ParseRender(h, m, s, f);
    MillisOfFields(ms);
  }

  lemma {:induction false} MillisOfFields(ms: int)
    ensures Millis(ms / 3600000, ms % 3600000 / 60000, ms % 3600000 % 60000 / 1000, ms % 3600000 % 60000 % 1000) == ms
  {
  }

  /** Parsing rendered fields gives back the time they add up to. */
  lemma {:induction false} ParseRender(h: int, m: nat, s: nat, f: nat)
    ensures ParseTimeToMs(Render(h, m, s, f)) == Some(Millis(h, m, s, f))
  {
    var hs, ms, ss, fs := PadInt(h, 2), PadNat(m, 2), PadNat(s, 2), PadNat(f, 3);
    var rest := ss + [','] + fs;
    RenderSplit(h, m, s, f);
    ParseIntOfPadInt(h, 2);
    ParseIntOfPadInt(m, 2);
    ParseIntOfPadInt(s, 2);
    ParseIntOfPadInt(f, 3);
    ParseFieldsOf(hs, ms, rest, ss, fs, h, m, s, f);
    ParseTimeToMsOf(Render(h, m, s, f), hs, ms, rest);
  }

  /** How `split(':')` and then `split(',')` cut a rendered time. */
  lemma {:induction false} RenderSplit(h: int, m: nat, s: nat, f: nat)
    ensures Split(Render(h, m, s, f), ':') == [PadInt(h, 2), PadNat(m, 2), PadNat(s, 2) + [','] + PadNat(f, 3)]
    ensures Split(PadNat(s, 2) + [','] + PadNat(f, 3), ',') == [PadNat(s, 2), PadNat(f, 3)]
  {
    var hs, ms, ss, fs := PadInt(h, 2), PadNat(m, 2), PadNat(s, 2), PadNat(f, 3);
    var rest := ss + [','] + fs;
    assert Render(h, m, s, f) == hs + [':'] + ms + [':'] + rest;
    NoColonPadInt(h);
    NoSepAround(ss, fs, ',', ':');
    Split3(hs, ms, rest, ':');
    Split2(ss, fs, ',');
  }

  lemma {:induction false} NoColonPadInt(h: int)
    ensures !HasChar(PadInt(h, 2), ':')
  {
    var hs := PadInt(h, 2);
    if h < 0 {
      assert forall i :: 1 <= i < |hs| ==> hs[i] == hs[1..][i - 1];
    }
  }

  /** Digit strings joined by a separator other than `c` hold no `c`. */
  lemma {:induction false} NoSepAround(a: string, b: string, sep: char, c: char)
    requires IsDigits(a) && IsDigits(b) && sep != c && !IsDigit(c)
    ensures !HasChar(a + [sep] + b, c)
  {
  }

  lemma {:induction false} ParseTimeToMsOf(t: string, a: string, b: string, c: string)
    requires Split(t, ':') == [a, b, c]
    ensures ParseTimeToMs(t) == ParseFields(a, b, c)
  {
  }

  /** `ParseFields` reads each field with `int()` and adds them up. */
  lemma {:induction false} ParseFieldsOf(hs: string, ms: string, rest: string, ss: string, fs: string,
                                         h: int, m: int, s: int, f: int)
    requires Split(rest, ',') == [ss, fs]
    requires ParseInt(hs) == Some(h) && ParseInt(ms) == Some(m)
    requires ParseInt(ss) == Some(s) && ParseInt(fs) == Some(f)
    ensures ParseFields(hs, ms, rest) == Some(Millis(h, m, s, f))
  {
  }

  /** A digit string padded to its own length is itself. */
  lemma {:induction false} PadNatOfDigits(d: string)
    requires IsDigits(d)
    ensures PadNat(DigitsVal(d), |d|) == d
    decreases |d|
  {
    if |d| == 1 {
      PadOneDigit(d);
    } else {
      var d' := d[..|d| - 1];
      PadNatOfDigits(d');
      PadNatOfDigitsStep(d, DigitsVal(d'));
    }
  }

  lemma {:induction false} PadNatOfDigitsStep(d: string, x: nat)
    requires IsDigits(d) && |d| >= 2
    requires x == DigitsVal(d[..|d| - 1]) && PadNat(x, |d| - 1) == d[..|d| - 1]
    ensures PadNat(DigitsVal(d), |d|) == d
  {
    var d', c := d[..|d| - 1], d[|d| - 1];
    DigitsValSnoc(d);
    PadSnoc(d', c, x);
    Snoc(d);
    PadCongr(DigitsVal(d), 10 * x + DigitValue(c), |d|, |d'| + 1, d, d' + [c]);
  }

  lemma {:induction false} Snoc(d: string)
    requires |d| >= 1
    ensures d == d[..|d| - 1] + [d[|d| - 1]]
  {
  }

  lemma {:induction false} PadCongr(n1: nat, n2: nat, w1: nat, w2: nat, r1: string, r2: string)
    requires n1 == n2 && w1 == w2 && r1 == r2 && PadNat(n2, w2) == r2
    ensures PadNat(n1, w1) == r1
  {
  }

  lemma {:induction false} PadOneDigit(d: string)
    requires IsDigits(d) && |d| == 1
    ensures PadNat(DigitsVal(d), 1) == d
  {
    var v := DigitValue(d[0]);
    assert DigitsVal(d) == v by { assert d[..0] == ""; }
    assert DigitChar(v) == d[0];
    assert NatToString(v) == d;
  }

  lemma {:induction false} DigitsValSnoc(d: string)
    requires IsDigits(d) && |d| >= 2
    ensures IsDigits(d[..|d| - 1])
    ensures DigitsVal(d) == 10 * DigitsVal(d[..|d| - 1]) + DigitValue(d[|d| - 1])
  {
  }

  lemma {:induction false} PadSnoc(d': string, c: char, x: nat)
    requires |d'| >= 1 && IsDigit(c) && PadNat(x, |d'|) == d'
    ensures PadNat(10 * x + DigitValue(c), |d'| + 1) == d' + [c]
  {
    var v := DigitValue(c);
    PadNatStep(x, v, |d'|);
    assert DigitChar(v) == c;
  }

  /** Appending a digit to a padded number pads the number times ten plus that digit. */
  lemma {:induction false} PadNatStep(x: nat, v: nat, w: nat)
    requires v < 10 && w >= 1
    ensures PadNat(10 * x + v, w + 1) == PadNat(x, w) + [DigitChar(v)]
  {
    if x == 0 {
      PadDigitStep(v, w);
    } else {
      PadPositiveStep(x, v, w);
    }
  }

  /** The same for a positive number, whose decimal form gains the digit at its end. */
  lemma {:induction false} PadPositiveStep(x: nat, v: nat, w: nat)
    requires 0 < x && v < 10
    ensures PadNat(10 * x + v, w + 1) == PadNat(x, w) + [DigitChar(v)]
  {
    NatToStringSnoc(x, v);
    PadNatAppend(NatToString(x), DigitChar(v), w);
  }

  /** A single digit padded to one more place is the zero padding followed by that digit. */
  lemma {:induction false} PadDigitStep(v: nat, w: nat)
    requires v < 10 && w >= 1
    ensures PadNat(v, w + 1) == PadNat(0, w) + [DigitChar(v)]
  {
    assert NatToString(v) == [DigitChar(v)];
    assert PadNat(0, w) == Zeros(w - 1) + "0";
    assert Zeros(w) == Zeros(w - 1) + "0";
  }

  /** The decimal form of a positive number with one more digit is its own followed by that digit. */
  lemma {:induction false} NatToStringSnoc(x: nat, v: nat)
    requires 0 < x && v < 10
    ensures NatToString(10 * x + v) == NatToString(x) + [DigitChar(v)]
  {
    DivMod10(x, v);
  }

  /** Padding a digit string with one more digit appended, to one more place. */
  lemma {:induction false} PadNatAppend(d: string, c: char, w: nat)
    ensures (if |d + [c]| >= w + 1 then d + [c] else Zeros(w + 1 - |d + [c]|) + (d + [c]))
         == (if |d| >= w then d else Zeros(w - |d|) + d) + [c]
  {
    if |d| < w {
      assert Zeros(w + 1 - |d + [c]|) == Zeros(w - |d|);
    }
  }

  lemma {:induction false} DivMod10(x: nat, v: nat)
    requires v < 10
    ensures (10 * x + v) / 10 == x && (10 * x + v) % 10 == v
  {
  }

  /** Rendering the fields of a time splits it back into those fields. */
  lemma {:induction false} RenderFields(h: nat, m: nat, s: nat, f: nat)
    requires m < 60 && s < 60 && f < 1000
    ensures MsToTimeStr(Millis(h, m, s, f)) == Render(h, m, s, f)
  {
    var n := Millis(h, m, s, f);
    FieldsOf(h, m, s, f);
    assert MsToTimeStr(n) == Render(n / 3600000, n % 3600000 / 60000, n % 3600000 % 60000 / 1000, n % 3600000 % 60000 % 1000);
  }

  /** Rendering a parsed timestamp gives the timestamp back when minutes and seconds are below 60. */
  lemma {:induction false} ParseThenRender(t: string)
    requires IsTimeStr(t)
    requires DigitsVal(t[3..5]) < 60 && DigitsVal(t[6..8]) < 60
    ensures ParseTimeToMs(t) == Some(TimeValue(t))
    ensures MsToTimeStr(TimeValue(t)) == t
  {
    FieldsAreDigits(t);
    var h, m, s, f := DigitsVal(t[0..2]), DigitsVal(t[3..5]), DigitsVal(t[6..8]), DigitsVal(t[9..12]);
    DigitsValBound(t[9..12]);
    RenderFields(h, m, s, f);
    RenderOfDigits(t);
  }

  /** Rendering the digit values of a timestamp's fields spells the timestamp. */
  lemma {:induction false} RenderOfDigits(t: string)
    requires IsTimeStr(t)
    ensures Render(DigitsVal(t[0..2]), DigitsVal(t[3..5]), DigitsVal(t[6..8]), DigitsVal(t[9..12])) == t
  {
    PadNatOfDigits(t[0..2]);
    PadNatOfDigits(t[3..5]);
    PadNatOfDigits(t[6..8]);
    PadNatOfDigits(t[9..12]);
    assert t == t[0..2] + ":" + t[3..5] + ":" + t[6..8] + "," + t[9..12];
  }

  lemma {:induction false} FieldsOf(h: nat, m: nat, s: nat, f: nat)
    requires m < 60 && s < 60 && f < 1000
    ensures var n := Millis(h, m, s, f);
      n / 3600000 == h && n % 3600000 / 60000 == m
      && n % 3600000 % 60000 / 1000 == s && n % 3600000 % 60000 % 1000 == f
  {
    var r := m * 60000 + s * 1000 + f;
    assert r < 3600000;
    var n := h * 3600000 + r;
    assert n / 3600000 == h && n % 3600000 == r;
    var r2 := s * 1000 + f;
    assert r2 < 60000;
    assert r / 60000 == m && r % 60000 == r2;
    assert r2 / 1000 == s && r2 % 1000 == f;
  }

  // ---------------------------------------------------------------------------
  // Timing lines
  // ---------------------------------------------------------------------------

  /** `re.match(r'(T) --> (T)', line)` with `T` the timestamp shape: a prefix match. */
  function StrictTiming(line: string): (r: Option<(string, string)>)
    ensures r.Some? <==> |line| >= 29 && IsTimeStr(line[..12]) && line[12..17] == " --> " && IsTimeStr(line[17..29])
    ensures r.Some? ==> r.value == (line[..12], line[17..29])
  {
    if |line| >= 29 && IsTimeStr(line[..12]) && line[12..17] == " --> " && IsTimeStr(line[17..29])
    then Some((line[..12], line[17..29]))
    else None
  }

  /** `re.match(r'^(T)\s*-->\s*(T)', line)`: whitespace of any length around the arrow. */
  function LooseTiming(line: string): (r: Option<(string, string)>)
    ensures r.Some? ==> |line| >= 12 && IsTimeStr(line[..12]) && r.value.0 == line[..12] && IsTimeStr(r.value.1)
  {
    if |line| >= 12 && IsTimeStr(line[..12]) then
      var a := line[12..];
      var b := a[SpaceRun(a)..];
      if StartsWith(b, "-->") then
        var c := b[3..];
        var d := c[SpaceRun(c)..];
        if |d| >= 12 && IsTimeStr(d[..12]) then Some((line[..12], d[..12])) else None
      else None
    else None
  }

  /** Every line the strict matcher accepts, the loose one accepts with the same two timestamps. */
  lemma {:induction false} LooseOfStrict(line: string)
    requires StrictTiming(line).Some?
    ensures LooseTiming(line) == StrictTiming(line)
  {
    var arrow := line[12..17];
    assert line[12] == arrow[0] == ' ' && line[13] == arrow[1] == '-' && line[14] == arrow[2] == '-';
    assert line[15] == arrow[3] == '>' && line[16] == arrow[4] == ' ';
    assert IsDigit(line[17]) by { assert line[17..29][0] == line[17]; }
    var a := line[12..];
    assert a[0] == line[12] && a[1] == line[13];
    assert SpaceRun(a[1..]) == 0;
    assert SpaceRun(a) == 1;
    var b := a[1..];
    assert b == line[13..];
    assert b[..3] == "-->";
    var c := b[3..];
    assert c == line[16..];
    assert c[0] == line[16] && c[1] == line[17];
    assert SpaceRun(c[1..]) == 0;
    assert SpaceRun(c) == 1;
    assert c[1..][..12] == line[17..29];
  }

  /** `re.match(r'^\d{2}:\d{2}:\d{2}', line)`: the line starts like a timestamp. */
  predicate StartsLikeTime(line: string) {
    |line| >= 8 && IsDigit(line[0]) && IsDigit(line[1]) && line[2] == ':'
    && IsDigit(line[3]) && IsDigit(line[4]) && line[5] == ':' && IsDigit(line[6]) && IsDigit(line[7])
  }
}
