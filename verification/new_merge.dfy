/**
 * The neighbour-fusion repair of new_merge.py.
 *
 * It reads the speech-rate report written for a `.merge3.srt` file: the list
 * of blocks flagged as spoken too fast, and the rate of every block.  Each
 * flagged block, in report order, is fused into a neighbour: the left one
 * when its rate is at least the right one's (a missing neighbour or rate
 * counts as minus infinity), else the right one.  The fused block keeps the
 * survivor's first line, spans from the earlier block's start to the later
 * block's end, and holds the content lines of both.  The surviving blocks are
 * renumbered from 1 and written out.
 */
module NeighbourFusion {
  import opened Wrappers
  import opened Text
  import opened Decimal
  import opened Timestamp
  import opened Blocks
  import Srt
  import opened RateReport

  // ---------------------------------------------------------------------------
  // The list of flagged blocks
  // ---------------------------------------------------------------------------

  /** The text that opens the bracketed list in the report. */
  const ListOpen := SlowLabel + "["

  /** The first character of the label that no other report line contains. */
  const Marker := '\U{E1}'

  /** `[int(x.strip()) for x in items if x.strip().isdigit()]`. */
  function DigitItems(items: seq<string>): seq<nat>
    decreases |items|
  {
    if |items| == 0 then [] else DigitItem(Strip(items[0])) + DigitItems(items[1..])
  }

  /** The number of one stripped item, if it is all digits. */
  function DigitItem(t: string): seq<nat> {
    if IsDigits(t) then [DigitsVal(t)] else []
  }

  /** Items whose first strips to the rendering of `n` read as `n` before the rest. */
  lemma DigitItemsStep(items: seq<string>, n: nat, rest: seq<nat>)
    requires |items| > 0 && Strip(items[0]) == NatToString(n) && DigitItems(items[1..]) == rest
    ensures DigitItems(items) == [n] + rest
  {
    assert DigitItem(NatToString(n)) == [n];
  }

  /**
   * `parse_negative_blocks` on the report's text: the first occurrence of the
   * label and `[` followed, somewhere later, by `]`; the items between that
   * `[` and the first `]` after it that are digits once stripped.  No match
   * gives the empty list.
   */
  function ParseNegatives(content: string): (r: seq<nat>)
    ensures !Contains(content, ListOpen) ==> r == []
  {
    var p := Find(content, ListOpen);
    if p < 0 then [] else ListAfter(content[p + |ListOpen|..])
  }

  /** The digit items before the first `]`, or none when there is no `]`. */
  function ListAfter(rest: string): seq<nat> {
    var q := IndexOfChar(rest, ']');
    if q == |rest| then [] else DigitItems(Split(rest[..q], ','))
  }

  lemma {:induction false} ListAfterOf(body: string, post: string)
    requires forall k :: 0 <= k < |body| ==> body[k] != ']'
    ensures ListAfter(body + "]" + post) == DigitItems(Split(body, ','))
  {
    var rest := body + "]" + post;
    assert rest[|body|] == ']';
    assert forall k :: 0 <= k < |body| ==> rest[k] == body[k];
    assert IndexOfChar(rest, ']') == |body|;
    assert rest[..|body|] == body;
  }

  /** Every number but the first, as it follows `", "` in a rendered list. */
  function Lead(ns: seq<nat>): (r: seq<string>)
    ensures |r| == |ns|
    decreases |ns|
  {
    if |ns| == 0 then [] else [" " + NatToString(ns[0])] + Lead(ns[1..])
  }

  lemma {:induction false} LeadAt(ns: seq<nat>, k: nat)
    requires k < |ns|
    ensures Lead(ns)[k] == " " + NatToString(ns[k])
    decreases k
  {
    if k > 0 {
      LeadAt(ns[1..], k - 1);
    }
  }

  lemma {:induction false} JoinLead(ns: seq<nat>)
    requires |ns| >= 1
    ensures Join(Lead(ns), ",") == " " + Join(NatTexts(ns), ", ")
    decreases |ns|
  {
    if |ns| > 1 {
      JoinLead(ns[1..]);
      var a := NatToString(ns[0]);
      var t := Join(NatTexts(ns[1..]), ", ");
      assert Lead(ns)[1..] == Lead(ns[1..]);
      assert NatTexts(ns)[1..] == NatTexts(ns[1..]);
      assert Join(Lead(ns), ",") == " " + a + "," + (" " + t);
      assert Join(NatTexts(ns), ", ") == a + ", " + t;
    }
  }

  /** The rendered list splits on commas into the numbers, all but the first led by a space. */
  lemma {:induction false} ListPieces(ns: seq<nat>)
    requires |ns| >= 1
    ensures Split(Join(NatTexts(ns), ", "), ',') == [NatToString(ns[0])] + Lead(ns[1..])
  {
    var pieces := [NatToString(ns[0])] + Lead(ns[1..]);
    ListAsPieces(ns, pieces);
    PiecesCommaFree(ns, pieces);
    SplitOfJoin(pieces, ',');
  }

  lemma {:induction false} ListAsPieces(ns: seq<nat>, pieces: seq<string>)
    requires |ns| >= 1 && pieces == [NatToString(ns[0])] + Lead(ns[1..])
    ensures Join(NatTexts(ns), ", ") == Join(pieces, ",")
  {
    if |ns| > 1 {
      JoinLead(ns[1..]);
      assert NatTexts(ns)[1..] == NatTexts(ns[1..]);
      assert pieces[1..] == Lead(ns[1..]);
    }
  }

  lemma {:induction false} PiecesCommaFree(ns: seq<nat>, pieces: seq<string>)
    requires |ns| >= 1 && pieces == [NatToString(ns[0])] + Lead(ns[1..])
    ensures forall k :: 0 <= k < |pieces| ==> !HasChar(pieces[k], ',')
  {
    forall k | 0 <= k < |pieces| ensures !HasChar(pieces[k], ',') {
      var d := NatToString(ns[k]);
      assert IsDigits(d);
      if k > 0 {
        LeadAt(ns[1..], k - 1);
        assert ns[1..][k - 1] == ns[k];
      }
      assert pieces[k] == d || pieces[k] == " " + d;
    }
  }

  lemma {:induction false} StripLead(n: nat)
    ensures Strip(" " + NatToString(n)) == NatToString(n)
  {
    var d := NatToString(n);
    var s := " " + d;
    assert s[1..] == d;
    assert LStrip(s) == LStrip(d);
    DigitsUnspaced(d);
    assert LStrip(d) == d;
  }

  /** A run of digits has no space at either end. */
  lemma {:induction false} DigitsUnspaced(d: string)
    requires IsDigits(d)
    ensures !IsSpace(d[0]) && !IsSpace(d[|d| - 1])
    ensures Strip(d) == d
  {
    assert IsDigit(d[0]) && IsDigit(d[|d| - 1]);
    StripOfStripped(d);
  }

  lemma {:induction false} DigitItemsLead(ns: seq<nat>)
    ensures DigitItems(Lead(ns)) == ns
    decreases |ns|
  {
    if |ns| > 0 {
      StripLead(ns[0]);
      LeadCons(ns);
      DigitItemsLead(ns[1..]);
      DigitItemsStep(Lead(ns), ns[0], ns[1..]);
      ConsHeadTail(ns);
    }
  }

  lemma LeadCons(ns: seq<nat>)
    requires |ns| > 0
    ensures Lead(ns)[0] == " " + NatToString(ns[0]) && Lead(ns)[1..] == Lead(ns[1..])
  {
  }

  lemma ConsHeadTail(ns: seq<nat>)
    requires |ns| > 0
    ensures [ns[0]] + ns[1..] == ns
  {
  }

  /** The items of a rendered list are its numbers. */
  lemma {:induction false} ListItems(ns: seq<nat>)
    ensures DigitItems(Split(Join(NatTexts(ns), ", "), ',')) == ns
  {
    if |ns| == 0 {
      assert Split("", ',') == [""];
      assert Strip("") == "";
    } else {
      ListPieces(ns);
      ListItemsOf(ns, [NatToString(ns[0])] + Lead(ns[1..]));
    }
  }

  lemma {:induction false} ListItemsOf(ns: seq<nat>, pieces: seq<string>)
    requires |ns| >= 1 && pieces == [NatToString(ns[0])] + Lead(ns[1..])
    ensures DigitItems(pieces) == ns
  {
    DigitsUnspaced(NatToString(ns[0]));
    assert pieces[1..] == Lead(ns[1..]);
    DigitItemsLead(ns[1..]);
    DigitItemsStep(pieces, ns[0], ns[1..]);
    ConsHeadTail(ns);
  }

  /** A string without the marker character. */
  predicate Unmarked(s: string) {
    forall k :: 0 <= k < |s| ==> s[k] != Marker
  }

  /** After an unmarked prefix, the first occurrence of the list opening is where it is put. */
  lemma {:induction false} FindAfterUnmarked(pre: string, tail: string)
    requires Unmarked(pre)
    ensures Find(pre + ListOpen + tail, ListOpen) == |pre|
  {
    var s := pre + ListOpen + tail;
    var n := |pre|;
    assert s[n..][..|ListOpen|] == ListOpen;
    ContainsAt(s, ListOpen, n);
    var r := Find(s, ListOpen);
    assert r <= n;
    if r < n {
      NoEarlyOpen(pre, tail, r);
      assert false;
    }
  }

  /** The list opening cannot start inside an unmarked prefix. */
  lemma {:induction false} NoEarlyOpen(pre: string, tail: string, r: nat)
    requires Unmarked(pre) && r < |pre|
    ensures !StartsWith((pre + ListOpen + tail)[r..], ListOpen)
  {
    var s := pre + ListOpen + tail;
    assert ListOpen[1] == Marker;
    assert s[r + 1] == (if r + 1 < |pre| then pre[r + 1] else ListOpen[0]);
  }

  /** `parse_negative_blocks` reads back the list written after the label. */
  lemma {:induction false} NegativesRoundTrip(pre: string, ns: seq<nat>, post: string)
    requires Unmarked(pre)
    ensures ParseNegatives(pre + (SlowLabel + ListText(ns)) + post) == ns
  {
    var body := Join(NatTexts(ns), ", ");
    var tail := body + "]" + post;
    var s := pre + (SlowLabel + ListText(ns)) + post;
    LabelledList(pre, body, post, s);
    FindAfterUnmarked(pre, tail);
    assert s[|pre| + |ListOpen|..] == tail;
    NoBracketInList(ns);
    ListAfterOf(body, post);
    ListItems(ns);
  }

  lemma {:induction false} LabelledList(pre: string, body: string, post: string, s: string)
    requires s == pre + (SlowLabel + ("[" + body + "]")) + post
    ensures s == pre + ListOpen + (body + "]" + post)
  {
  }

  /** A rendered list has no closing bracket inside. */
  lemma {:induction false} NoBracketInList(ns: seq<nat>)
    ensures forall k :: 0 <= k < |Join(NatTexts(ns), ", ")| ==> ListChar(Join(NatTexts(ns), ", ")[k])
    decreases |ns|
  {
    var j := Join(NatTexts(ns), ", ");
    if |ns| == 1 {
      assert j == NatToString(ns[0]);
      assert forall k :: 0 <= k < |j| ==> IsDigit(j[k]);
    } else if |ns| > 1 {
      NoBracketInList(ns[1..]);
      assert NatTexts(ns)[1..] == NatTexts(ns[1..]);
      var d, t := NatToString(ns[0]), Join(NatTexts(ns[1..]), ", ");
      assert j == d + ", " + t;
      forall k | 0 <= k < |j| ensures ListChar(j[k]) {
        if k < |d| {
          assert j[k] == d[k];
        } else if k >= |d| + 2 {
          assert j[k] == t[k - |d| - 2];
        }
      }
    }
  }

  /** A character inside the brackets of a rendered list: a digit, a comma or a space. */
  predicate ListChar(c: char) {
    IsDigit(c) || c == ',' || c == ' '
  }

  /** The line listing the slow blocks is one line. */
  lemma {:induction false} ListLineOneLine(ns: seq<nat>)
    ensures !HasChar(SlowLabel + ListText(ns), '\n')
  {
    var j := Join(NatTexts(ns), ", ");
    NoBracketInList(ns);
    assert !HasChar(j, '\n');
    HasCharAppend("[", j, '\n');
    HasCharAppend("[" + j, "]", '\n');
    HasCharAppend(SlowLabel, ListText(ns), '\n');
  }

  // ---------------------------------------------------------------------------
  // Rates
  // ---------------------------------------------------------------------------

  /**
   * A decimal number `units / 10^scale`: the decimal value a string of digits,
   * point and minus sign spells.  Python's `float` rounds that value to a
   * binary double; the model keeps it exact.
   */
  datatype Num = Num(units: int, scale: nat)

  /** A neighbour's rate: minus infinity when the neighbour or its rate is missing. */
  datatype Rate = NegInf | Finite(n: Num)

  /** Python's `a >= b` on the two rates (`-inf >= -inf` holds). */
  predicate AtLeast(a: Rate, b: Rate) {
    b.NegInf? || (a.Finite? && Shift(a.n.units, b.n.scale) >= Shift(b.n.units, a.n.scale))
  }

  /** `u * 10^s`: both sides of a comparison brought to a common scale. */
  function Shift(u: int, s: nat): int
    decreases s
  {
    if s == 0 then u else 10 * Shift(u, s - 1)
  }

  /** Every character of `s` is a digit. */
  predicate AllDigits(s: string) {
    forall k :: 0 <= k < |s| ==> IsDigit(s[k])
  }

  /**
   * The decimal value a string of digits, points and minus signs spells, or
   * none where Python's `float(x)` raises `ValueError`: an optional leading
   * minus, digits, an optional point and digits, with at least one digit.
   */
  function ParseNum(x: string): (r: Option<Num>)
    ensures r.Some? ==> |x| > 0
  {
    if |x| > 0 && x[0] == '-' then
      match Unsigned(x[1..])
      case None => None
      case Some(n) => Some(Num(-n.units, n.scale))
    else Unsigned(x)
  }

  /** `float` of a string without sign: digits, an optional point and digits, at least one digit. */
  function Unsigned(body: string): (r: Option<Num>)
    ensures r.Some? ==> |body| > 0 && r.value.units >= 0
  {
    var dot := IndexOfChar(body, '.');
    var ip := body[..dot];
    var fp := if dot < |body| then body[dot + 1..] else "";
    if AllDigits(ip) && AllDigits(fp) && |ip| + |fp| > 0 then Some(Num(DigitsVal(ip + fp), |fp|))
    else None
  }

  /** A signed number reads back as the number its unsigned part reads as, with the sign. */
  lemma ParseDecimal(x: string, neg: bool, body: string, n: Num)
    requires |body| > 0 && body[0] != '-' && Unsigned(body) == Some(n) && x == SignText(neg, body)
    ensures n.units >= 0 && ParseNum(x) == Some(Num(WithSign(neg, n.units), n.scale))
  {
    if neg {
      assert x == "-" + body;
      SignedReads(x, body, n);
    } else {
      UnsignedReads(x, n);
    }
  }

  lemma SignedReads(x: string, body: string, n: Num)
    requires x == "-" + body && Unsigned(body) == Some(n)
    ensures ParseNum(x) == Some(Num(-n.units, n.scale))
  {
    assert x[1..] == body;
  }

  lemma UnsignedReads(x: string, n: Num)
    requires |x| > 0 && x[0] != '-' && Unsigned(x) == Some(n)
    ensures ParseNum(x) == Some(n)
  {
  }

  lemma {:induction false} UnsignedDecimal(body: string, ip: string, fp: string, u: nat)
    requires IsDigits(ip) && AllDigits(fp) && body == ip + "." + fp
    requires u == DigitsVal(ip) * Pow10(|fp|) + DigitsVal(fp)
    ensures Unsigned(body) == Some(Num(u, |fp|))
  {
    assert body[|ip|] == '.';
    assert forall j :: 0 <= j < |ip| ==> body[j] == ip[j];
    assert IndexOfChar(body, '.') == |ip|;
    assert body[..|ip|] == ip && body[|ip| + 1..] == fp;
    DigitsValAppend(ip, fp);
  }

  /** The value a rendered `:.2f` number reads back as. */
  lemma {:induction false} ParseFixed2(num: int, den: nat)
    requires den > 0
    ensures ParseNum(Fixed2(num, den)) == Some(Num(Rounded(num, den), 2))
  {
    var ip, fp, h := Fixed2Shape(num, den);
    var body := ip + "." + fp;
    UnsignedDecimal(body, ip, fp, h);
    assert body[0] == ip[0];
    ParseDecimal(Fixed2(num, den), num < 0, body, Num(h, 2));
  }

  /** A rendered `:.2f` number is a sign, the whole digits, a point and two digits. */
  lemma {:induction false} Fixed2Shape(num: int, den: nat) returns (ip: string, fp: string, h: nat)
    requires den > 0
    ensures IsDigits(ip) && AllDigits(fp) && |fp| == 2
    ensures Fixed2(num, den) == SignText(num < 0, ip + "." + fp)
    ensures DigitsVal(ip) * Pow10(|fp|) + DigitsVal(fp) == h
    ensures Rounded(num, den) == WithSign(num < 0, h)
  {
    h := Hundredths(Magnitude(num), den);
    ip, fp := NatToString(h / 100), PadNat(h % 100, 2);
    PadNatWidth(h % 100, 2);
    HundredsParts(h, DigitsVal(ip) * Pow10(|fp|) + DigitsVal(fp), DigitsVal(ip), DigitsVal(fp), Pow10(|fp|));
  }

  lemma {:induction false} HundredsParts(h: nat, v: nat, a: nat, b: nat, p: nat)
    requires a == h / 100 && b == h % 100 && p == Pow10(2) && v == a * p + b
    ensures v == h
  {
  }

  /** Python's `\d+` at the start of `s`: the length of the leading digit run. */
  function DigitRun(s: string): (n: nat)
    ensures n <= |s|
    ensures forall k :: 0 <= k < n ==> IsDigit(s[k])
    ensures n < |s| ==> !IsDigit(s[n])
    decreases |s|
  {
    if |s| > 0 && IsDigit(s[0]) then 1 + DigitRun(s[1..]) else 0
  }

  /** The length of the leading run of number characters (`[\d\.\-]+`). */
  function NumRun(s: string): (n: nat)
    ensures n <= |s|
    ensures forall k :: 0 <= k < n ==> IsNumChar(s[k])
    ensures n < |s| ==> !IsNumChar(s[n])
    decreases |s|
  {
    if |s| > 0 && IsNumChar(s[0]) then 1 + NumRun(s[1..]) else 0
  }

  /** `Rate: ([\d\.\-]+)%` matched at position `q` of `s`: the captured number. */
  function RateAt(s: string, q: nat): (r: Option<string>)
    requires q <= |s|
    ensures r.Some? ==> |r.value| > 0 && forall k :: 0 <= k < |r.value| ==> IsNumChar(r.value[k])
  {
    if StartsWith(s[q..], "Rate: ") then
      var u := s[q + 6..];
      var n := NumRun(u);
      if 0 < n < |u| && u[n] == '%' then Some(u[..n]) else None
    else None
  }

  /** The greedy `.*` before `Rate: `: the match at the largest position below `k`. */
  function LastRate(s: string, k: nat): (r: Option<string>)
    requires k <= |s| + 1
    decreases k
  {
    if k == 0 then None
    else
      match RateAt(s, k - 1)
      case Some(x) => Some(x)
      case None => LastRate(s, k - 1)
  }

  /** `re.match(r'Block (\d+):.*Rate: ([\d\.\-]+)%', line)`: the block number and the rate text. */
  function RateLine(line: string): (r: Option<(nat, string)>)
  {
    if !StartsWith(line, "Block ") then None
    else
      var rest := line[6..];
      var d := DigitRun(rest);
      if d == 0 || d == |rest| || rest[d] != ':' then None
      else
        var after := rest[d + 1..];
        match LastRate(after, |after| + 1)
        case None => None
        case Some(x) => Some((DigitsVal(rest[..d]), x))
  }

  /** One line of `parse_block_rates`: no match, a rate, or the `ValueError` of `float`. */
  function ReadRateLine(line: string): Result<Option<(nat, Num)>> {
    match RateLine(line)
    case None => Ok(None)
    case Some((k, x)) =>
      match ParseNum(x)
      case None => Err("could not convert string to float")
      case Some(v) => Ok(Some((k, v)))
  }

  /** The rates of the lines, later lines overriding earlier ones, generic over the line reader. */
  function Rates(lines: seq<string>, read: string -> Result<Option<(nat, Num)>>, m: map<nat, Num>)
    : (r: Result<map<nat, Num>>)
    decreases |lines|
  {
    if |lines| == 0 then Ok(m)
    else
      match read(lines[0])
      case Err(e) => Err(e)
      case Ok(None) => Rates(lines[1..], read, m)
      case Ok(Some((k, v))) => Rates(lines[1..], read, m[k := v])
  }

  /** A line the reader turns into the rate of block `k`. */
  predicate RatesBlock(read: string -> Result<Option<(nat, Num)>>, line: string, k: nat) {
    read(line).Ok? && read(line).value.Some? && read(line).value.value.0 == k
  }

  /** The scan fails exactly when some line fails to read. */
  lemma {:induction false} RatesErr(lines: seq<string>, read: string -> Result<Option<(nat, Num)>>, m: map<nat, Num>)
    ensures Rates(lines, read, m).Err? <==> exists i :: 0 <= i < |lines| && read(lines[i]).Err?
    decreases |lines|
  {
    if |lines| > 0 {
      var next := if read(lines[0]).Ok? && read(lines[0]).value.Some?
                  then m[read(lines[0]).value.value.0 := read(lines[0]).value.value.1] else m;
      RatesErr(lines[1..], read, next);
      assert forall i :: 1 <= i < |lines| ==> lines[i] == lines[1..][i - 1];
    }
  }

  /** A successful scan has a rate for the blocks already known and for those some line names, and no others. */
  lemma {:induction false} RatesKeys(lines: seq<string>, read: string -> Result<Option<(nat, Num)>>, m: map<nat, Num>)
    ensures Rates(lines, read, m).Ok? ==>
      forall k :: k in Rates(lines, read, m).value <==>
        k in m || exists i :: 0 <= i < |lines| && RatesBlock(read, lines[i], k)
    decreases |lines|
  {
    if |lines| > 0 && read(lines[0]).Ok? {
      var next := if read(lines[0]).value.Some?
                  then m[read(lines[0]).value.value.0 := read(lines[0]).value.value.1] else m;
      RatesKeys(lines[1..], read, next);
      assert forall i :: 1 <= i < |lines| ==> lines[i] == lines[1..][i - 1];
    }
  }

  /** `parse_block_rates` on the report's lines: it fails exactly when some rate is not a number, and otherwise has a rate for exactly the blocks the lines name. */
  function ParseRates(lines: seq<string>): (r: Result<map<nat, Num>>)
    ensures r.Err? <==> exists i :: 0 <= i < |lines| && ReadRateLine(lines[i]).Err?
    ensures r.Ok? ==> forall k :: k in r.value <==> exists i :: 0 <= i < |lines| && RatesBlock(ReadRateLine, lines[i], k)
  {
    RatesErr(lines, ReadRateLine, map[]);
    RatesKeys(lines, ReadRateLine, map[]);
    Rates(lines, ReadRateLine, map[])
  }

  /** The greedy scan skips every position where no `Rate: ` starts. */
  lemma {:induction false} LastRateSkip(s: string, k: nat, j: nat)
    requires j < k <= |s| + 1
    requires forall q :: j < q < k ==> !StartsWith(s[q..], "Rate: ")
    ensures LastRate(s, k) == LastRate(s, j + 1)
    decreases k
  {
    if k > j + 1 {
      assert RateAt(s, k - 1).None?;
      LastRateSkip(s, k - 1, j);
    }
  }

  /** The last `Rate: ` of a line ending in `Rate: <number>%` is that one. */
  lemma {:induction false} RateTail(a: string, f: string)
    requires |f| > 0 && forall k :: 0 <= k < |f| ==> IsNumChar(f[k])
    ensures LastRate(a + "Rate: " + f + "%", |a + "Rate: " + f + "%"| + 1) == Some(f)
  {
    var s := a + "Rate: " + f + "%";
    NoRateAfter(a, f);
    LastRateSkip(s, |s| + 1, |a|);
    RateAtTail(s, |a|, f);
  }

  /** No `Rate: ` starts after the one in front of the number. */
  lemma {:induction false} NoRateAfter(a: string, f: string)
    requires forall k :: 0 <= k < |f| ==> IsNumChar(f[k])
    ensures forall q :: |a| < q <= |a + "Rate: " + f + "%"| ==> !StartsWith((a + "Rate: " + f + "%")[q..], "Rate: ")
  {
    var t := "Rate: " + f + "%";
    var s := a + "Rate: " + f + "%";
    assert s == a + t;
    var p := |a|;
    forall q | p < q < |s| + 1 ensures !StartsWith(s[q..], "Rate: ") {
      if q < |s| {
        TailNoR(f, q - p);
        assert s[q] == t[q - p];
        assert s[q..][0] == s[q];
      }
    }
  }

  lemma {:induction false} TailNoR(f: string, j: nat)
    requires forall k :: 0 <= k < |f| ==> IsNumChar(f[k])
    requires 1 <= j < |"Rate: " + f + "%"|
    ensures ("Rate: " + f + "%")[j] != 'R'
  {
    var t := "Rate: " + f + "%";
    if j < 6 {
      assert t[j] == "Rate: "[j];
    } else if j < 6 + |f| {
      assert t[j] == f[j - 6];
    } else {
      assert t[j] == '%';
    }
  }

  lemma {:induction false} RateAtTail(s: string, p: nat, f: string)
    requires |f| > 0 && forall k :: 0 <= k < |f| ==> IsNumChar(f[k])
    requires p <= |s| && s[p..] == "Rate: " + f + "%"
    ensures RateAt(s, p) == Some(f)
  {
    assert s[p..][..6] == "Rate: ";
    var u := s[p + 6..];
    assert u == f + "%";
    assert u[|f|] == '%';
    assert forall k :: 0 <= k < |f| ==> u[k] == f[k];
    assert NumRun(u) == |f|;
    assert u[..|f|] == f;
  }

  /** `Block <digits>:` then anything, then a final `Rate: <number>%`. */
  lemma {:induction false} RateLineOf(line: string, d: string, a: string, f: string)
    requires IsDigits(d)
    requires |f| > 0 && forall k :: 0 <= k < |f| ==> IsNumChar(f[k])
    requires line == "Block " + d + ":" + (a + "Rate: " + f + "%")
    ensures RateLine(line) == Some((DigitsVal(d), f))
  {
    var after := a + "Rate: " + f + "%";
    assert line[..6] == "Block ";
    var rest := line[6..];
    assert rest == d + ":" + after;
    assert rest[|d|] == ':';
    assert forall k :: 0 <= k < |d| ==> rest[k] == d[k];
    assert DigitRun(rest) == |d|;
    assert rest[..|d|] == d;
    assert rest[|d| + 1..] == after;
    RateTail(a, f);
  }

  /** The rate the report prints for a block, as `parse_block_rates` reads it: the hundredths of the exact rate. */
  function PrintedRate(m: Measure): Num {
    Num(Rounded(RateFraction(m).0, RateFraction(m).1), 2)
  }

  /** `parse_block_rates` reads a block's report line as its number and its printed rate. */
  lemma {:induction false} ReadBlockLine(idx: nat, m: Measure)
    ensures ReadRateLine(BlockLine(idx, m)) == Ok(Some((idx, PrintedRate(m))))
  {
    var rate := RateFraction(m);
    var f := Fixed2(rate.0, rate.1);
    RateLineOf(BlockLine(idx, m), NatToString(idx), Estimates(m.words, SpanMs(m)), f);
    ParseFixed2(rate.0, rate.1);
  }

  // ---------------------------------------------------------------------------
  // Reading back the report that count_words.py writes
  // ---------------------------------------------------------------------------

  /** A report line: no line break and no marker character. */
  predicate Plain(s: string) {
    forall k :: 0 <= k < |s| ==> s[k] != '\n' && s[k] != Marker
  }

  lemma {:induction false} PlainJoin(a: string, b: string)
    requires Plain(a) && Plain(b)
    ensures Plain(a + b)
  {
    forall k | 0 <= k < |a + b| ensures (a + b)[k] != '\n' && (a + b)[k] != Marker {
      if k < |a| {
        assert (a + b)[k] == a[k];
      } else {
        assert (a + b)[k] == b[k - |a|];
      }
    }
  }

  lemma {:induction false} PlainNumber(s: string)
    requires forall k :: 0 <= k < |s| ==> IsNumChar(s[k])
    ensures Plain(s)
  {
  }

  lemma {:induction false} PlainNat(n: nat)
    ensures Plain(NatToString(n))
  {
    var d := NatToString(n);
    assert forall k :: 0 <= k < |d| ==> IsDigit(d[k]);
  }

  /** `a + x + b` is plain when its three parts are. */
  lemma {:induction false} PlainAround(a: string, x: string, b: string)
    requires Plain(a) && Plain(x) && Plain(b)
    ensures Plain(a + x + b)
  {
    PlainJoin(a, x);
    PlainJoin(a + x, b);
  }

  lemma {:induction false} PlainEstimates(w: nat, ms: int)
    ensures Plain(Estimates(w, ms))
  {
    PlainNat(w);
    PlainFixed2(w * 8, 37);
    PlainFixed2(ms, 1000);
    PlainFixed2(8000 * w - 37 * ms, 37000);
    PlainFigures(NatToString(w), Fixed2(w * 8, 37), Fixed2(ms, 1000), Fixed2(8000 * w - 37 * ms, 37000));
  }

  lemma {:induction false} PlainFixed2(num: int, den: nat)
    requires den > 0
    ensures Plain(Fixed2(num, den))
  {
    PlainNumber(Fixed2(num, den));
  }

  /** The estimates of a block line are plain when the numbers in them are. */
  lemma {:induction false} PlainFigures(w: string, a: string, b: string, c: string)
    requires Plain(w) && Plain(a) && Plain(b) && Plain(c)
    ensures Plain(EstimateText(w, a, b, c))
  {
    PlainWords();
    var e1 := " " + w + " t\U{1EEB}, ";
    PlainAround(" ", w, " t\U{1EEB}, ");
    var e2 := e1 + "\U{1AF}\U{1EDB}c l\U{1B0}\U{1EE3}ng: " + a;
    PlainAround(e1, "\U{1AF}\U{1EDB}c l\U{1B0}\U{1EE3}ng: ", a);
    var e3 := e2 + " gi\U{E2}y, " + "Th\U{1EF1}c t\U{1EBF}: ";
    PlainAround(e2, " gi\U{E2}y, ", "Th\U{1EF1}c t\U{1EBF}: ");
    var e4 := e3 + b + " gi\U{E2}y, ";
    PlainAround(e3, b, " gi\U{E2}y, ");
    var e5 := e4 + "Ch\U{EA}nh l\U{1EC7}ch: " + c;
    PlainAround(e4, "Ch\U{EA}nh l\U{1EC7}ch: ", c);
    PlainJoin(e5, " gi\U{E2}y, ");
  }

  /** The fixed words of a block line are plain. */
  lemma {:induction false} PlainWords()
    ensures Plain(" ") && Plain(" t\U{1EEB}, ") && Plain("\U{1AF}\U{1EDB}c l\U{1B0}\U{1EE3}ng: ")
    ensures Plain(" gi\U{E2}y, ") && Plain("Th\U{1EF1}c t\U{1EBF}: ") && Plain("Ch\U{EA}nh l\U{1EC7}ch: ")
    ensures Plain("Block ") && Plain(":") && Plain("Rate: ") && Plain("%")
  {
  }

  lemma {:induction false} PlainBlockLine(idx: nat, m: Measure)
    ensures Plain(BlockLine(idx, m))
  {
    PlainEstimates(m.words, SpanMs(m));
    PlainFixed2(RateFraction(m).0, RateFraction(m).1);
    PlainNat(idx);
    PlainLine(NatToString(idx), Estimates(m.words, SpanMs(m)), Fixed2(RateFraction(m).0, RateFraction(m).1));
  }

  lemma {:induction false} PlainLine(d: string, e: string, f: string)
    requires Plain(d) && Plain(e) && Plain(f)
    ensures Plain("Block " + d + ":" + (e + "Rate: " + f + "%"))
  {
    PlainWords();
    PlainAround(e, "Rate: ", f);
    PlainJoin(e + "Rate: " + f, "%");
    PlainAround("Block ", d, ":");
    PlainJoin("Block " + d + ":", e + "Rate: " + f + "%");
  }

  /** The five summary lines before the list of slow blocks are plain. */
  lemma {:induction false} PlainSummary(ms: seq<Measure>, k: nat)
    requires k < 5
    ensures Plain(Summary(ms)[k])
  {
    PlainTotalsOf(TotalWords(ms), TotalSpan(ms), ListText(SlowList(ms, 1)), k);
  }

  lemma {:induction false} PlainTotalsOf(w: nat, t: int, l: string, k: nat)
    requires k < 5
    ensures Plain(Totals(w, t, l)[k])
  {
    PlainNat(w);
    PlainFixed2(w * 8, 37);
    PlainFixed2(t, 1000);
    PlainFixed2(8000 * w - 37 * t, 37000);
    PlainTotals(NatToString(w), Fixed2(w * 8, 37), Fixed2(t, 1000), Fixed2(8000 * w - 37 * t, 37000), l, k);
  }

  /** The summary lines before the list are plain when the numbers in them are. */
  lemma {:induction false} PlainTotals(w: string, a: string, b: string, c: string, l: string, k: nat)
    requires Plain(w) && Plain(a) && Plain(b) && Plain(c) && k < 5
    ensures Plain(SummaryText(w, a, b, c, l)[k])
  {
    PlainHeads();
    var s := SummaryText(w, a, b, c, l);
    if k == 1 {
      PlainJoin("T\U{1ED5}ng s\U{1ED1} t\U{1EEB}: ", w);
    } else if k == 2 {
      PlainAround("T\U{1ED5}ng th\U{1EDD}i gian n\U{F3}i (\U{1B0}\U{1EDB}c l\U{1B0}\U{1EE3}ng): ", a, " gi\U{E2}y");
    } else if k == 3 {
      PlainAround("T\U{1ED5}ng th\U{1EDD}i gian n\U{F3}i (th\U{1EF1}c t\U{1EBF} t\U{1EEB} ph\U{1EE5} \U{111}\U{1EC1}): ",
        b, " gi\U{E2}y");
    } else if k == 4 {
      PlainAround("T\U{1ED5}ng ch\U{EA}nh l\U{1EC7}ch: ", c, " gi\U{E2}y");
    }
  }

  /** The fixed words of the summary are plain. */
  lemma {:induction false} PlainHeads()
    ensures Plain("T\U{1ED5}ng s\U{1ED1} t\U{1EEB}: ")
    ensures Plain("T\U{1ED5}ng th\U{1EDD}i gian n\U{F3}i (\U{1B0}\U{1EDB}c l\U{1B0}\U{1EE3}ng): ")
    ensures Plain("T\U{1ED5}ng th\U{1EDD}i gian n\U{F3}i (th\U{1EF1}c t\U{1EBF} t\U{1EEB} ph\U{1EE5} \U{111}\U{1EC1}): ")
    ensures Plain("T\U{1ED5}ng ch\U{EA}nh l\U{1EC7}ch: ") && Plain(" gi\U{E2}y")
  {
  }

  /** Every line of a completed report before the list of slow blocks is plain. */
  lemma {:induction false} ReportPlain(lines: seq<string>)
    requires Report(lines).failure.None?
    ensures var bs := SplitBlocks(lines); var w := Report(lines).written;
      |w| == |bs| + 6 && forall k :: 0 <= k < |bs| + 5 ==> Plain(w[k])
  {
    var bs := SplitBlocks(lines);
    var r := MeasureAll(bs);
    MeasureAllLength(bs);
    ReportParts(lines, bs, r.0);
    PlainReportLines(r.0, Report(lines).written);
  }

  lemma {:induction false} MeasureAllLength(bs: seq<seq<string>>)
    ensures MeasureAll(bs).1.None? ==> |MeasureAll(bs).0| == |bs|
  {
    MeasureAllPrefix(bs);
  }

  lemma {:induction false} PlainReportLines(ms: seq<Measure>, w: seq<string>)
    requires w == RateReport.BlockLines(ms, 1, BlockLine) + Summary(ms)
    ensures |w| == |ms| + 6 && forall k :: 0 <= k < |ms| + 5 ==> Plain(w[k])
  {
    var bl := RateReport.BlockLines(ms, 1, BlockLine);
    forall k | 0 <= k < |ms| + 5 ensures Plain(w[k]) {
      if k < |ms| {
        assert w[k] == bl[k];
        PlainBlockLine(1 + k, ms[k]);
      } else {
        assert w[k] == Summary(ms)[k - |ms|];
        PlainSummary(ms, k - |ms|);
      }
    }
  }

  /** Every line of a report cut short by a failure is plain. */
  lemma {:induction false} FailedReportPlain(lines: seq<string>)
    requires Report(lines).failure.Some?
    ensures var w := Report(lines).written; forall k :: 0 <= k < |w| ==> Plain(w[k])
  {
    var bs := SplitBlocks(lines);
    var w := Report(lines).written;
    forall k | 0 <= k < |w| ensures Plain(w[k]) {
      PlainBlockLine(1 + k, MeasureBlock(bs[k]).value);
    }
  }

  lemma {:induction false} ReportTextAppend(a: seq<string>, b: seq<string>)
    ensures ReportText(a + b) == ReportText(a) + ReportText(b)
    decreases |a|
  {
    if |a| == 0 {
      assert a + b == b;
    } else {
      assert (a + b)[0] == a[0];
      assert (a + b)[1..] == a[1..] + b;
      ReportTextAppend(a[1..], b);
      var x, t, u := a[0] + "\n", ReportText(a[1..]), ReportText(b);
      assert ReportText(a + b) == x + (t + u);
      Assoc(x, t, u);
    }
  }

  lemma {:induction false} ReportTextSnoc(w: seq<string>, x: string)
    ensures ReportText(w + [x]) == ReportText(w) + x + "\n"
  {
    ReportTextAppend(w, [x]);
    assert ReportText([x]) == x + "\n" + ReportText([]);
    Assoc(ReportText(w), x, "\n");
  }

  /** The text of plain lines has no marker character. */
  lemma {:induction false} UnmarkedText(w: seq<string>)
    requires forall k :: 0 <= k < |w| ==> Plain(w[k])
    ensures Unmarked(ReportText(w))
    decreases |w|
  {
    if |w| > 0 {
      UnmarkedText(w[1..]);
      var t := ReportText(w[1..]);
      assert ReportText(w) == w[0] + "\n" + t;
      forall k | 0 <= k < |w[0] + "\n" + t| ensures (w[0] + "\n" + t)[k] != Marker {
        if k < |w[0]| {
          assert (w[0] + "\n" + t)[k] == w[0][k];
        } else if k > |w[0]| {
          assert (w[0] + "\n" + t)[k] == t[k - |w[0]| - 1];
        }
      }
    }
  }

  /**
   * `parse_negative_blocks` on the file a completed report was written to
   * reads back exactly the blocks the report flags, in increasing order.
   */
  lemma {:induction false} NegativesOfReport(lines: seq<string>) returns (ns: seq<nat>)
    requires Report(lines).failure.None?
    ensures ParseNegatives(ReportText(Report(lines).written)) == ns
    ensures forall j :: 0 < j < |ns| ==> ns[j - 1] < ns[j]
    ensures var bs := SplitBlocks(lines);
      forall x :: x in ns <==> 1 <= x <= |bs| && MeasureBlock(bs[x - 1]).Ok?
                               && RateValue(MeasureBlock(bs[x - 1]).value) < 0.0
  {
    var bs := SplitBlocks(lines);
    ns := ReportFlagsNegative(lines);
    ReportPlain(lines);
    NegativesOfWritten(Report(lines).written, |bs| + 5, ns);
  }

  /** Plain lines followed by the labelled list read back as that list. */
  lemma {:induction false} NegativesOfWritten(w: seq<string>, n: nat, ns: seq<nat>)
    requires |w| == n + 1 && w[n] == SlowLabel + ListText(ns)
    requires forall k :: 0 <= k < n ==> Plain(w[k])
    ensures ParseNegatives(ReportText(w)) == ns
  {
    var head := w[..n];
    assert w == head + [w[n]];
    ReportTextSnoc(head, w[n]);
    UnmarkedText(head);
    NegativesRoundTrip(ReportText(head), ns, "\n");
  }

  /** A report cut short by a failure has no list, so `parse_negative_blocks` finds nothing to fuse. */
  lemma {:induction false} NegativesOfFailedReport(lines: seq<string>)
    requires Report(lines).failure.Some?
    ensures ParseNegatives(ReportText(Report(lines).written)) == []
  {
    var w := Report(lines).written;
    FailedReportPlain(lines);
    UnmarkedText(w);
    UnmarkedNoList(ReportText(w));
  }

  /** Text without the marker has no list to read. */
  lemma {:induction false} UnmarkedNoList(s: string)
    requires Unmarked(s)
    ensures ParseNegatives(s) == []
  {
    if Contains(s, ListOpen) {
      MarkerInOpen(s, Find(s, ListOpen));
      assert false;
    }
  }

  lemma {:induction false} MarkerInOpen(s: string, p: nat)
    requires p + |ListOpen| <= |s| && s[p..p + |ListOpen|] == ListOpen
    ensures s[p + 1] == Marker
  {
    assert s[p + 1] == s[p..p + |ListOpen|][1];
  }

  lemma {:induction false} RatesAppend(a: seq<string>, b: seq<string>,
                                       read: string -> Result<Option<(nat, Num)>>, m: map<nat, Num>)
    ensures Rates(a + b, read, m)
      == match Rates(a, read, m) case Err(e) => Err(e) case Ok(m2) => Rates(b, read, m2)
    decreases |a|
  {
    if |a| == 0 {
      assert a + b == b;
    } else {
      assert (a + b)[0] == a[0];
      assert (a + b)[1..] == a[1..] + b;
      match read(a[0])
      case Err(e) =>
      case Ok(None) => RatesAppend(a[1..], b, read, m);
      case Ok(Some((k, v))) => RatesAppend(a[1..], b, read, m[k := v]);
    }
  }

  /** Lines that hold no rate leave the rates as they are. */
  lemma {:induction false} RatesNone(lines: seq<string>, read: string -> Result<Option<(nat, Num)>>,
                                     m: map<nat, Num>)
    requires forall k :: 0 <= k < |lines| ==> read(lines[k]) == Ok(None)
    ensures Rates(lines, read, m) == Ok(m)
    decreases |lines|
  {
    if |lines| > 0 {
      assert read(lines[0]) == Ok(None);
      RatesNone(lines[1..], read, m);
    }
  }

  /** Each of `lines`, in order, reads as the entry for the next number from `first` with the next of `vs`. */
  predicate ReadsAs(lines: seq<string>, read: string -> Result<Option<(nat, Num)>>, first: nat, vs: seq<Num>)
    decreases |lines|
  {
    |lines| == |vs| &&
    (|lines| > 0 ==> read(lines[0]) == Ok(Some((first, vs[0]))) && ReadsAs(lines[1..], read, first + 1, vs[1..]))
  }

  /** The map `m` with the entries `first + k := vs[k]`, later entries over earlier ones. */
  function Entries(first: nat, vs: seq<Num>, m: map<nat, Num>): map<nat, Num>
    decreases |vs|
  {
    if |vs| == 0 then m else Entries(first + 1, vs[1..], m[first := vs[0]])
  }

  /** Lines that each read as the next entry fold into exactly those entries. */
  lemma {:induction false} RatesOfReads(lines: seq<string>, read: string -> Result<Option<(nat, Num)>>,
                                        first: nat, vs: seq<Num>, m: map<nat, Num>)
    requires ReadsAs(lines, read, first, vs)
    ensures Rates(lines, read, m) == Ok(Entries(first, vs, m))
    decreases |lines|
  {
    if |lines| > 0 {
      RatesOfReads(lines[1..], read, first + 1, vs[1..], m[first := vs[0]]);
    }
  }

  /** `r` holds `m` with the values `vs` entered at keys `first`, `first + 1`, and so on. */
  ghost predicate EntriesHold(r: map<nat, Num>, first: nat, vs: seq<Num>, m: map<nat, Num>)
  {
    (forall key :: key in r <==> key in m || first <= key < first + |vs|) &&
    (forall key :: first <= key < first + |vs| ==> r[key] == vs[key - first]) &&
    (forall key :: key in m && !(first <= key < first + |vs|) ==> r[key] == m[key])
  }

  /** The keys and values of `Entries`. */
  lemma {:induction false} EntriesSpec(first: nat, vs: seq<Num>, m: map<nat, Num>)
    ensures EntriesHold(Entries(first, vs, m), first, vs, m)
    decreases |vs|
  {
    if |vs| > 0 {
      var m' := m[first := vs[0]];
      var tail := vs[1..];
      EntriesSpec(first + 1, tail, m');
      var r := Entries(first + 1, tail, m');
      assert Entries(first, vs, m) == r;
      ShiftedEntries(m, m', r, first, vs, tail);
    }
  }

  /** The map after a block's entry and the entries of the later blocks holds the entries of all of them. */
  lemma ShiftedEntries(m: map<nat, Num>, m': map<nat, Num>, r: map<nat, Num>, first: nat, vs: seq<Num>, tail: seq<Num>)
    requires |vs| > 0 && m' == m[first := vs[0]] && tail == vs[1..]
    requires EntriesHold(r, first + 1, tail, m')
    ensures EntriesHold(r, first, vs, m)
  {
    forall key | first <= key < first + |vs| ensures r[key] == vs[key - first] {
      if key > first {
        assert vs[key - first] == tail[key - (first + 1)];
      }
    }
  }

  /** The printed rate of each block, in order. */
  function PrintedRates(ms: seq<Measure>): (r: seq<Num>)
    ensures |r| == |ms|
    decreases |ms|
  {
    if |ms| == 0 then [] else [PrintedRate(ms[0])] + PrintedRates(ms[1..])
  }

  lemma {:induction false} PrintedRatesAt(ms: seq<Measure>, k: nat)
    requires k < |ms|
    ensures PrintedRates(ms)[k] == PrintedRate(ms[k])
    decreases k
  {
    if k > 0 {
      PrintedRatesAt(ms[1..], k - 1);
    }
  }

  /** Block lines numbered from `first` read as those numbers with the printed rates. */
  lemma {:induction false} BlockLinesRead(ms: seq<Measure>, first: nat)
    ensures ReadsAs(RateReport.BlockLines(ms, first, BlockLine), ReadRateLine, first, PrintedRates(ms))
    decreases |ms|
  {
    if |ms| > 0 {
      ReadBlockLine(first, ms[0]);
      BlockLinesRead(ms[1..], first + 1);
    }
  }

  /** No summary line starts with `Block `, so none holds a rate. */
  lemma {:induction false} SummaryHasNoRate(ms: seq<Measure>, k: nat)
    requires k < 6
    ensures ReadRateLine(Summary(ms)[k]) == Ok(None)
  {
    TotalsHaveNoRate(TotalWords(ms), TotalSpan(ms), ListText(SlowList(ms, 1)), k);
  }

  lemma {:induction false} TotalsHaveNoRate(w: nat, t: int, l: string, k: nat)
    requires k < 6
    ensures ReadRateLine(Totals(w, t, l)[k]) == Ok(None)
  {
    var s := Totals(w, t, l);
    SummaryHeads(NatToString(w), Fixed2(w * 8, 37), Fixed2(t, 1000), Fixed2(8000 * w - 37 * t, 37000), l, k);
    NoBlockNoRate(s[k]);
  }

  /** Every summary line is empty or starts with `T` or `C`. */
  lemma SummaryHeads(words: string, estimate: string, actual: string, diff: string, slow: string, k: nat)
    requires k < 6
    ensures var x := SummaryText(words, estimate, actual, diff, slow)[k]; |x| == 0 || x[0] == 'T' || x[0] == 'C'
  {
  }

  /** A line that does not start with `B` holds no rate. */
  lemma NoBlockNoRate(x: string)
    requires |x| == 0 || x[0] != 'B'
    ensures ReadRateLine(x) == Ok(None)
  {
    assert !StartsWith(x, "Block ");
  }

  /** Lines without line breaks, each ended by a newline, split back into the lines and an empty last piece. */
  lemma {:induction false} SplitReportText(w: seq<string>)
    requires forall k :: 0 <= k < |w| ==> !HasChar(w[k], '\n')
    ensures Split(ReportText(w), '\n') == w + [""]
  {
    ReportTextJoin(w);
    forall k | 0 <= k < |w + [""]| ensures !HasChar((w + [""])[k], '\n') {
      if k < |w| {
        assert (w + [""])[k] == w[k];
      }
    }
    SplitOfJoin(w + [""], '\n');
  }

  lemma {:induction false} ReportTextJoin(w: seq<string>)
    ensures ReportText(w) == Join(w + [""], "\n")
    decreases |w|
  {
    if |w| > 0 {
      ReportTextJoin(w[1..]);
      assert (w + [""])[1..] == w[1..] + [""];
      assert (w + [""])[0] == w[0];
    }
  }

  /**
   * `parse_block_rates` on the lines of the file a completed report was
   * written to gives every block number from 1 its printed rate, and
   * nothing else.
   */
  lemma {:induction false} RatesOfReport(lines: seq<string>) returns (r: map<nat, Num>)
    requires Report(lines).failure.None?
    ensures ParseRates(Split(ReportText(Report(lines).written), '\n')) == Ok(r)
    ensures forall k :: k in r <==> 1 <= k <= |SplitBlocks(lines)|
    ensures forall k :: 0 <= k < |SplitBlocks(lines)| ==>
      MeasureBlock(SplitBlocks(lines)[k]).Ok? && r[k + 1] == PrintedRate(MeasureBlock(SplitBlocks(lines)[k]).value)
  {
    var bs := SplitBlocks(lines);
    var ms := MeasureAll(bs).0;
    MeasureAllPrefix(bs);
    ReportParts(lines, bs, ms);
    r := RatesOfMeasured(bs, ms, Report(lines).written);
  }

  /** The rates read back from a report written for blocks with the given measures. */
  lemma {:induction false} RatesOfMeasured(bs: seq<seq<string>>, ms: seq<Measure>, w: seq<string>)
    returns (r: map<nat, Num>)
    requires |ms| == |bs| && forall k :: 0 <= k < |ms| ==> MeasureBlock(bs[k]) == Ok(ms[k])
    requires w == RateReport.BlockLines(ms, 1, BlockLine) + Summary(ms)
    ensures ParseRates(Split(ReportText(w), '\n')) == Ok(r)
    ensures forall k :: k in r <==> 1 <= k <= |bs|
    ensures forall k :: 0 <= k < |bs| ==> MeasureBlock(bs[k]).Ok? && r[k + 1] == PrintedRate(MeasureBlock(bs[k]).value)
  {
    r := RatesOfWritten(ms, w);
    MeasuredRates(bs, ms, r, MeasureBlock);
  }

  lemma MeasuredRates<T>(bs: seq<T>, ms: seq<Measure>, r: map<nat, Num>, measure: T -> Result<Measure>)
    requires |ms| == |bs| && forall k :: 0 <= k < |ms| ==> measure(bs[k]) == Ok(ms[k])
    requires forall k :: k in r <==> 1 <= k <= |ms|
    requires forall k :: 1 <= k <= |ms| ==> r[k] == PrintedRates(ms)[k - 1]
    ensures forall k :: 0 <= k < |bs| ==> measure(bs[k]).Ok? && r[k + 1] == PrintedRate(measure(bs[k]).value)
  {
    forall k | 0 <= k < |bs| ensures measure(bs[k]).Ok? && r[k + 1] == PrintedRate(measure(bs[k]).value) {
      ReportRateAt(measure(bs[k]), ms, r, k + 1);
    }
  }

  lemma ReportRateAt(mb: Result<Measure>, ms: seq<Measure>, r: map<nat, Num>, k: nat)
    requires 1 <= k <= |ms| && k in r
    requires mb == Ok(ms[k - 1]) && r[k] == PrintedRates(ms)[k - 1]
    ensures mb.Ok? && r[k] == PrintedRate(mb.value)
  {
    PrintedRatesAt(ms, k - 1);
  }

  /** The rates read back from the text of block lines and a summary. */
  lemma {:induction false} RatesOfWritten(ms: seq<Measure>, w: seq<string>) returns (r: map<nat, Num>)
    requires w == RateReport.BlockLines(ms, 1, BlockLine) + Summary(ms)
    ensures ParseRates(Split(ReportText(w), '\n')) == Ok(r)
    ensures forall k :: k in r <==> 1 <= k <= |ms|
    ensures forall k :: 1 <= k <= |ms| ==> r[k] == PrintedRates(ms)[k - 1]
  {
    var bl := RateReport.BlockLines(ms, 1, BlockLine);
    var tail := Summary(ms) + [""];
    WrittenSplit(ms, w);
    RatesAppend(bl, tail, ReadRateLine, map[]);
    r := BlockRates(ms);
    TailHasNoRate(ms, r);
  }

  /** The written report splits at its line breaks into the block lines, the summary and an empty last piece. */
  lemma {:induction false} WrittenSplit(ms: seq<Measure>, w: seq<string>)
    requires w == RateReport.BlockLines(ms, 1, BlockLine) + Summary(ms)
    ensures Split(ReportText(w), '\n') == RateReport.BlockLines(ms, 1, BlockLine) + (Summary(ms) + [""])
  {
    WrittenOneLine(ms, w);
    SplitReportText(w);
    LinesAssoc(RateReport.BlockLines(ms, 1, BlockLine), Summary(ms), [""]);
  }

  lemma LinesAssoc(a: seq<string>, b: seq<string>, c: seq<string>)
    ensures (a + b) + c == a + (b + c)
  {
  }

  /** No line of a completed report holds a line break. */
  lemma {:induction false} WrittenOneLine(ms: seq<Measure>, w: seq<string>)
    requires w == RateReport.BlockLines(ms, 1, BlockLine) + Summary(ms)
    ensures forall k :: 0 <= k < |w| ==> !HasChar(w[k], '\n')
  {
    PlainReportLines(ms, w);
    forall k | 0 <= k < |w| ensures !HasChar(w[k], '\n') {
      if k < |ms| + 5 {
        assert Plain(w[k]);
      } else {
        assert w[k] == SlowLabel + ListText(SlowList(ms, 1));
        ListLineOneLine(SlowList(ms, 1));
      }
    }
  }

  /** The block lines alone give each block number its printed rate. */
  lemma {:induction false} BlockRates(ms: seq<Measure>) returns (r: map<nat, Num>)
    ensures Rates(RateReport.BlockLines(ms, 1, BlockLine), ReadRateLine, map[]) == Ok(r)
    ensures forall k :: k in r <==> 1 <= k <= |ms|
    ensures forall k :: 1 <= k <= |ms| ==> r[k] == PrintedRates(ms)[k - 1]
  {
    var vs := PrintedRates(ms);
    BlockLinesRead(ms, 1);
    RatesOfReads(RateReport.BlockLines(ms, 1, BlockLine), ReadRateLine, 1, vs, map[]);
    r := Entries(1, vs, map[]);
    EntriesSpec(1, vs, map[]);
  }

  /** The summary lines and the empty last piece leave the rates unchanged. */
  lemma {:induction false} TailHasNoRate(ms: seq<Measure>, m: map<nat, Num>)
    ensures Rates(Summary(ms) + [""], ReadRateLine, m) == Ok(m)
  {
    var tail := Summary(ms) + [""];
    forall k | 0 <= k < |tail| ensures ReadRateLine(tail[k]) == Ok(None) {
      if k < 6 {
        SummaryHasNoRate(ms, k);
      }
    }
    RatesNone(tail, ReadRateLine, m);
  }
}
