/**
 * The pure parts of `ArchiveUploader`: recognising a YouTube video ID in an
 * `.ogg` file name, rendering the YouTube API's duration and count fields,
 * deriving the archive.org identifier from a file name, and the retry policy
 * of the upload loop.  The YouTube API, archive.org and the clock are
 * outside the model: what an upload attempt returns is a parameter.
 */
module ArchiveUploader {
  import opened Wrappers
  import opened Text
  import opened Decimal
  import opened PathNames
  import opened Scan
  import VideoLinks

  // ---------------------------------------------------------------------------
  // Video IDs in file names
  // ---------------------------------------------------------------------------

  /**
   * The ID `is_youtube_video_id` and `upload_file` test for a stem, as
   * written: a 13-character stem starting with `__` stands for `-` and the
   * rest of the stem.
   */
  function CandidateId(stem: string): (id: string)
    ensures StartsWith(stem, "__") && |stem| == 13 ==> |id| == 12
  {
    if StartsWith(stem, "__") && |stem| == 13 then "-" + stem[2..] else stem
  }

  /** `is_youtube_video_id` as written. */
  predicate IsVideoIdFile(filename: string) {
    VideoLinks.VideoId(CandidateId(Stem(Name(filename))))
  }

  /** The renaming of `rename_merge4_files` turns the leading `-` of an ID into `__`, giving a 12-character stem. */
  function RenamedStem(id: string): (r: string)
    requires |id| > 0
    ensures |r| == |id| + 1
  {
    "__" + id[1..]
  }

  /** The candidate with the length test the renaming calls for: 12 characters, `__` and ten more. */
  function CandidateIdFixed(stem: string): (id: string)
    ensures StartsWith(stem, "__") && |stem| == 12 ==> |id| == 11 && id[0] == '-'
  {
    if StartsWith(stem, "__") && |stem| == 12 then "-" + stem[2..] else stem
  }

  /** `is_youtube_video_id` with the corrected length test. */
  predicate IsVideoIdFileFixed(filename: string) {
    VideoLinks.VideoId(CandidateIdFixed(Stem(Name(filename))))
  }

  /** The `__` branch as written never accepts: its candidate always has 12 characters. */
  lemma UnderscoreBranchDead(stem: string)
    requires StartsWith(stem, "__") && |stem| == 13
    ensures !VideoLinks.VideoId(CandidateId(stem))
  {
  }

  /** An ID holds neither `/` nor `.`. */
  lemma VideoIdPlain(id: string)
    requires VideoLinks.VideoId(id)
    ensures !HasChar(id, '/') && !HasChar(id, '.')
  {
  }

  /** The stem of `<x>.ogg` for a plain non-empty `x`. */
  lemma OggStem(x: string)
    requires |x| > 0 && !HasChar(x, '/')
    ensures Name(x + ".ogg") == x + ".ogg" && Stem(x + ".ogg") == x
  {
    HasCharAppend(x, ".ogg", '/');
    NameOfPlain(x + ".ogg");
    assert !HasChar("ogg", '.');
    assert x + ".ogg" == x + "." + "ogg";
    StemOfExt(x, "ogg");
  }

  /** The renamed stem of an ID starting with `-` holds no `/`. */
  lemma RenamedPlain(id: string)
    requires VideoLinks.VideoId(id)
    ensures !HasChar(RenamedStem(id), '/')
  {
    VideoIdPlain(id);
    assert RenamedStem(id) == "__" + id[1..];
    assert id == [id[0]] + id[1..];
    HasCharAppend([id[0]], id[1..], '/');
    HasCharAppend("__", id[1..], '/');
  }

  /** As written, the audio file of a renamed ID is never recognised. */
  lemma RenamedNotRecognised(id: string)
    requires VideoLinks.VideoId(id) && id[0] == '-'
    ensures !IsVideoIdFile(RenamedStem(id) + ".ogg")
  {
    RenamedPlain(id);
    OggStem(RenamedStem(id));
  }

  /** With the corrected test, the audio file of a renamed ID is recognised as that ID. */
  lemma RenamedRecognised(id: string)
    requires VideoLinks.VideoId(id) && id[0] == '-'
    ensures CandidateIdFixed(Stem(Name(RenamedStem(id) + ".ogg"))) == id
    ensures IsVideoIdFileFixed(RenamedStem(id) + ".ogg")
  {
    RenamedPlain(id);
    OggStem(RenamedStem(id));
    var s := RenamedStem(id);
    assert s[..2] == "__";
    assert "-" + s[2..] == id;
  }

  /** The audio file of an ID is recognised as that ID, by either test. */
  lemma PlainRecognised(id: string)
    requires VideoLinks.VideoId(id)
    ensures CandidateId(Stem(Name(id + ".ogg"))) == id && IsVideoIdFile(id + ".ogg")
    ensures CandidateIdFixed(Stem(Name(id + ".ogg"))) == id && IsVideoIdFileFixed(id + ".ogg")
  {
    VideoIdPlain(id);
    OggStem(id);
  }

  // ---------------------------------------------------------------------------
  // Durations
  // ---------------------------------------------------------------------------

  predicate NotDigit(c: char) {
    !IsDigit(c)
  }

  /** What an optional group `(?:(\d+)U)?` takes at position `at`: its number, if any, and where matching goes on. */
  datatype Part = Part(value: Option<nat>, next: nat)

  function TakePart(s: string, at: nat, unit: char): (p: Part)
    requires at <= |s|
    ensures at <= p.next <= |s|
    ensures p.value.None? <==> p.next == at
  {
    var t := s[at..];
    var k := Run(t, NotDigit);
    if k > 0 && k < |t| && t[k] == unit then Part(Some(DigitsVal(t[..k])), at + k + 1)
    else Part(None, at)
  }

  function ValueOr0(o: Option<nat>): nat {
    if o.Some? then o.value else 0
  }

  datatype Hms = Hms(hours: nat, minutes: nat, seconds: nat)

  /** `re.match(r'PT(?:(\d+)H)?(?:(\d+)M)?(?:(\d+)S)?', ...)`, missing parts read as 0. */
  function ParseDuration(iso: string): Option<Hms> {
    if !StartsWith(iso, "PT") then None
    else
      var h := TakePart(iso, 2, 'H');
      var m := TakePart(iso, h.next, 'M');
      var s := TakePart(iso, m.next, 'S');
      Some(Hms(ValueOr0(h.value), ValueOr0(m.value), ValueOr0(s.value)))
  }

  /** `H:MM:SS` with hours, else `M:SS`. */
  function RenderHms(d: Hms): (r: string)
    ensures |r| > 0 && IsDigit(r[0])
  {
    if d.hours > 0 then NatToString(d.hours) + ":" + PadNat(d.minutes, 2) + ":" + PadNat(d.seconds, 2)
    else NatToString(d.minutes) + ":" + PadNat(d.seconds, 2)
  }

  /** `format_duration`. */
  function FormatDuration(iso: string): (r: string)
  {
    match ParseDuration(iso)
    case None => "Unknown"
    case Some(d) => RenderHms(d)
  }

  /** The duration is `Unknown` exactly when the text does not start with `PT`. */
  lemma UnknownIff(iso: string)
    ensures FormatDuration(iso) == "Unknown" <==> !StartsWith(iso, "PT")
  {
    if StartsWith(iso, "PT") {
      var r := FormatDuration(iso);
      assert IsDigit(r[0]);
    }
  }

  /** One part of the duration YouTube writes: the number and its unit, or nothing for zero. */
  function Field(n: nat, unit: char): string {
    if n > 0 then NatToString(n) + [unit] else ""
  }

  /** The ISO 8601 duration YouTube writes: `PT`, then each non-zero part with its unit. */
  function IsoOf(d: Hms): (r: string)
    ensures StartsWith(r, "PT")
  {
    "PT" + Field(d.hours, 'H') + Field(d.minutes, 'M') + Field(d.seconds, 'S')
  }

  /** No group for `unit` can match at the front of `t`. */
  predicate NoUnitAhead(t: string, unit: char) {
    var k := Run(t, NotDigit);
    !(k > 0 && k < |t| && t[k] == unit)
  }

  /** A written part starts with its digits, then its unit. */
  lemma FieldRun(n: nat, unit: char, rest: string)
    requires n > 0 && !IsDigit(unit)
    ensures var t := Field(n, unit) + rest;
            var d := NatToString(n);
            Run(t, NotDigit) == |d| && t[|d|] == unit && t[..|d|] == d
  {
    var t := Field(n, unit) + rest;
    var d := NatToString(n);
    assert t == d + ([unit] + rest);
    assert forall i :: 0 <= i < |d| ==> t[i] == d[i];
    assert t[|d|] == unit;
    assert t[..|d|] == d;
  }

  /** A group takes exactly its written part, and nothing when the part is absent and no other part carries its unit. */
  lemma FieldTake(s: string, at: nat, n: nat, unit: char, rest: string)
    requires at <= |s| && s[at..] == Field(n, unit) + rest && !IsDigit(unit)
    requires n == 0 ==> NoUnitAhead(rest, unit)
    ensures TakePart(s, at, unit) == Part(if n > 0 then Some(n) else None, at + |Field(n, unit)|)
  {
    if n > 0 {
      FieldRun(n, unit, rest);
    } else {
      assert s[at..] == rest;
    }
  }

  /** The parts after the hours carry no `H`, and those after the minutes no `M`. */
  lemma NoUnitAheadOf(m: nat, sec: nat, unit: char)
    requires unit != 'M' && unit != 'S'
    ensures NoUnitAhead(Field(m, 'M') + Field(sec, 'S'), unit)
  {
    if m > 0 {
      FieldRun(m, 'M', Field(sec, 'S'));
    } else if sec > 0 {
      assert Field(m, 'M') + Field(sec, 'S') == Field(sec, 'S') + "";
      FieldRun(sec, 'S', "");
    }
  }

  lemma NoUnitAheadLast(sec: nat, unit: char)
    requires unit != 'S'
    ensures NoUnitAhead(Field(sec, 'S') + "", unit)
  {
    if sec > 0 {
      FieldRun(sec, 'S', "");
    }
  }

  /** Where each part of a written duration starts. */
  lemma IsoSlices(p: string, a: string, b: string, c: string)
    ensures (p + a + b + c)[|p|..] == a + (b + c)
    ensures (p + a + b + c)[|p| + |a|..] == b + c
    ensures (p + a + b + c)[|p| + |a| + |b|..] == c + ""
  {
  }

  /** The duration read from the three parts the groups take. */
  lemma ParseOfParts(s: string, h: nat, m: nat, sec: nat, i: nat, j: nat, k: nat)
    requires StartsWith(s, "PT") && i <= |s| && j <= |s|
    requires TakePart(s, 2, 'H') == Part(if h > 0 then Some(h) else None, i)
    requires TakePart(s, i, 'M') == Part(if m > 0 then Some(m) else None, j)
    requires TakePart(s, j, 'S') == Part(if sec > 0 then Some(sec) else None, k)
    ensures ParseDuration(s) == Some(Hms(h, m, sec))
  {
  }

  /** The hours group takes the written hours. */
  lemma IsoHours(d: Hms)
    ensures TakePart(IsoOf(d), 2, 'H') == Part(if d.hours > 0 then Some(d.hours) else None, 2 + |Field(d.hours, 'H')|)
  {
    var fh, fm, fs := Field(d.hours, 'H'), Field(d.minutes, 'M'), Field(d.seconds, 'S');
    IsoSlices("PT", fh, fm, fs);
    NoUnitAheadOf(d.minutes, d.seconds, 'H');
    FieldTake(IsoOf(d), 2, d.hours, 'H', fm + fs);
  }

  /** The minutes group takes the written minutes. */
  lemma IsoMinutes(d: Hms)
    ensures var at := 2 + |Field(d.hours, 'H')|;
            TakePart(IsoOf(d), at, 'M') == Part(if d.minutes > 0 then Some(d.minutes) else None, at + |Field(d.minutes, 'M')|)
  {
    var fh, fm, fs := Field(d.hours, 'H'), Field(d.minutes, 'M'), Field(d.seconds, 'S');
    IsoSlices("PT", fh, fm, fs);
    NoUnitAheadLast(d.seconds, 'M');
    FieldTake(IsoOf(d), 2 + |fh|, d.minutes, 'M', fs + "");
  }

  /** The seconds group takes the written seconds. */
  lemma IsoSeconds(d: Hms)
    ensures var at := 2 + |Field(d.hours, 'H')| + |Field(d.minutes, 'M')|;
            TakePart(IsoOf(d), at, 'S') == Part(if d.seconds > 0 then Some(d.seconds) else None, at + |Field(d.seconds, 'S')|)
  {
    var fh, fm, fs := Field(d.hours, 'H'), Field(d.minutes, 'M'), Field(d.seconds, 'S');
    IsoSlices("PT", fh, fm, fs);
    assert NoUnitAhead("", 'S');
    FieldTake(IsoOf(d), 2 + |fh| + |fm|, d.seconds, 'S', "");
  }

  /** Reading back the duration YouTube writes gives the hours, minutes and seconds it was written from. */
  lemma ParseIsoOf(d: Hms)
    ensures ParseDuration(IsoOf(d)) == Some(d)
  {
    var fh, fm, fs := Field(d.hours, 'H'), Field(d.minutes, 'M'), Field(d.seconds, 'S');
    IsoHours(d);
    IsoMinutes(d);
    IsoSeconds(d);
    ParseOfParts(IsoOf(d), d.hours, d.minutes, d.seconds, 2 + |fh|, 2 + |fh| + |fm|, 2 + |fh| + |fm| + |fs|);
  }

  /** So the rendered duration of such a text is the rendering of its parts. */
  lemma FormatIsoOf(d: Hms)
    ensures FormatDuration(IsoOf(d)) == RenderHms(d)
  {
    ParseIsoOf(d);
  }

  // ---------------------------------------------------------------------------
  // Counts
  // ---------------------------------------------------------------------------

  /** `format_number`: `f"{int(s):,}"`, or `s` unchanged when `int(s)` fails. */
  function FormatNumber(s: string): (r: string)
    ensures ParseInt(s).None? ==> r == s
  {
    match ParseInt(s)
    case None => s
    case Some(i) => Grouped(i)
  }

  /** Deleting the grouping commas from a formatted count gives a number that reads back as the same value. */
  lemma FormatNumberValue(s: string)
    ensures ParseInt(s).Some? ==> ParseInt(RemoveChar(FormatNumber(s), ',')) == ParseInt(s)
  {
    if ParseInt(s).Some? {
      ParseIntOfIntToString(ParseInt(s).value);
    }
  }

  // ---------------------------------------------------------------------------
  // Identifiers
  // ---------------------------------------------------------------------------

  /** A character `sanitize_identifier` keeps: `isalnum()`, `-` or `_`. */
  predicate IdentChar(c: char) {
    IsAlnum(c) || c == '-' || c == '_'
  }

  predicate AllIdent(s: string) {
    forall i :: 0 <= i < |s| ==> IdentChar(s[i])
  }

  /** The kept characters, in order. */
  function KeepIdent(s: string): (r: string)
    ensures AllIdent(r) && |r| <= |s|
    decreases |s|
  {
    if |s| == 0 then ""
    else if IdentChar(s[0]) then [s[0]] + KeepIdent(s[1..])
    else KeepIdent(s[1..])
  }

  /** Kept characters are never whitespace, so the `strip()` test of the source adds nothing to the emptiness test. */
  lemma IdentNotSpace(c: char)
    requires IdentChar(c)
    ensures !IsSpace(c)
  {
  }

  /**
   * `sanitize_identifier`: the kept characters of the stem, `untitled` when
   * none are left, an `a` in front of a leading `-` or `_`, padded from
   * `audio` to five characters and cut to one hundred.
   */
  function Sanitize(filename: string): (r: string)
    ensures 5 <= |r| <= 100
    ensures IsAlnum(r[0]) && AllIdent(r)
  {
    var kept := KeepIdent(Stem(Name(filename)));
    var a := if |kept| == 0 then "untitled" else kept;
    var b := if !IsAlnum(a[0]) then "a" + a else a;
    var c := if |b| < 5 then b + "audio"[..5 - |b|] else b;
    if |c| > 100 then c[..100] else c
  }

  /** Keeping the characters of a string made of kept characters changes nothing. */
  lemma {:induction false} KeepAll(s: string)
    requires AllIdent(s)
    ensures KeepIdent(s) == s
    decreases |s|
  {
    if |s| > 0 {
      assert AllIdent(s[1..]) by {
        forall i | 0 <= i < |s[1..]| ensures IdentChar(s[1..][i]) {
          assert s[1..][i] == s[i + 1];
        }
      }
      KeepAll(s[1..]);
      assert [s[0]] + s[1..] == s;
    }
  }

  /** An identifier string holds no `/` and no `.`. */
  lemma IdentPlain(s: string)
    requires AllIdent(s)
    ensures !HasChar(s, '/') && !HasChar(s, '.')
  {
  }

  /** A file name that already is a valid identifier sanitises to itself. */
  lemma SanitizeValid(s: string)
    requires 5 <= |s| <= 100 && IsAlnum(s[0]) && AllIdent(s)
    ensures Sanitize(s) == s
  {
    IdentPlain(s);
    NameOfPlain(s);
    StemOfPlain(s);
    KeepAll(s);
  }

  /** `sanitize_identifier` is idempotent. */
  lemma SanitizeIdempotent(filename: string)
    ensures Sanitize(Sanitize(filename)) == Sanitize(filename)
  {
    SanitizeValid(Sanitize(filename));
  }

  /** The audio file of an ID that starts with a letter or digit is uploaded under that ID. */
  lemma SanitizeOfId(id: string)
    requires VideoLinks.VideoId(id) && IsAlnum(id[0])
    ensures Sanitize(id + ".ogg") == id
  {
    VideoIdPlain(id);
    OggStem(id);
    assert AllIdent(id) by {
      forall i | 0 <= i < |id| ensures IdentChar(id[i]) {
        assert VideoLinks.VideoIdChar(id[i]);
      }
    }
    KeepAll(id);
  }

  // ---------------------------------------------------------------------------
  // Retries
  // ---------------------------------------------------------------------------

  const SpamDelays: seq<nat> := [300, 900, 1800, 3600, 7200]

  /** `handle_spam_error`: `None` when the attempts are used up, else the seconds to wait. */
  function SpamDelay(attempt: nat, maxAttempts: int): (r: Option<nat>)
    ensures r.None? <==> attempt >= maxAttempts
    ensures r.Some? ==> r.value == SpamDelays[if attempt < 4 then attempt else 4]
  {
    if attempt >= maxAttempts then None
    else Some(SpamDelays[if attempt < |SpamDelays| - 1 then attempt else |SpamDelays| - 1])
  }

  /** Later spam waits are never shorter: the delays back off. */
  lemma SpamDelayGrows(a: nat, b: nat, maxAttempts: int)
    requires a <= b < maxAttempts
    ensures SpamDelay(a, maxAttempts).value <= SpamDelay(b, maxAttempts).value
  {
  }

  /** What the loop does after a failed attempt: stop, or wait and try again. */
  datatype Action = GiveUp | Retry(delay: nat)

  /** The error classes of `upload_file`, tested in this order on the lower-cased message. */
  predicate IsSpam(e: string) {
    Contains(e, "spam") || Contains(e, "reduce your request rate")
  }

  predicate IsRate(e: string) {
    Contains(e, "rate") || Contains(e, "too many")
  }

  predicate IsConnection(e: string) {
    Contains(e, "connection") || Contains(e, "timeout")
  }

  /** The response to an exception with message `msg` on attempt `attempt`. */
  function Classify(msg: string, attempt: nat, maxRetries: int): (r: Action)
    ensures r.GiveUp? <==> IsSpam(ToLower(msg)) && attempt >= maxRetries
    ensures r.Retry? && !IsSpam(ToLower(msg)) ==> 20 <= r.delay
  {
    var e := ToLower(msg);
    if IsSpam(e) then
      match SpamDelay(attempt, maxRetries)
      case None => GiveUp
      case Some(d) => Retry(d)
    else if IsRate(e) then Retry((attempt + 1) * 60)
    else if IsConnection(e) then Retry(30 + attempt * 10)
    else Retry(20 + attempt * 10)
  }

  /** What one call of `upload` gives: a status code, a result without one, or an exception. */
  datatype Attempt = Status(code: int) | NoStatus | Raised(msg: string)

  /** The outcome of the retry loop: success, and the waits it made. */
  datatype Upload = Upload(ok: bool, waits: seq<nat>)

  /** The retry loop from attempt `attempt` on; `outcome(k)` is what attempt `k` gives. */
  function UploadFrom(outcome: nat -> Attempt, attempt: nat, maxRetries: nat): (r: Upload)
    requires attempt <= maxRetries
    decreases maxRetries - attempt
  {
    if attempt == maxRetries then Upload(false, [])
    else
      match outcome(attempt)
      case Status(code) =>
        if code == 200 then Upload(true, []) else UploadFrom(outcome, attempt + 1, maxRetries)
      case NoStatus => UploadFrom(outcome, attempt + 1, maxRetries)
      case Raised(msg) =>
        match Classify(msg, attempt, maxRetries)
        case GiveUp => Upload(false, [])
        case Retry(d) =>
          var rest := UploadFrom(outcome, attempt + 1, maxRetries);
          Upload(rest.ok, [d] + rest.waits)
  }

  predicate Succeeds(outcome: nat -> Attempt, k: nat) {
    outcome(k) == Status(200)
  }

  /**
   * The loop succeeds exactly when some remaining attempt returns status 200:
   * the spam branch never gives up early, because the attempt number stays
   * below the maximum inside the loop.
   */
  lemma {:induction false} UploadFromIff(outcome: nat -> Attempt, attempt: nat, maxRetries: nat)
    requires attempt <= maxRetries
    ensures UploadFrom(outcome, attempt, maxRetries).ok <==> exists k :: attempt <= k < maxRetries && Succeeds(outcome, k)
    decreases maxRetries - attempt
  {
    if attempt < maxRetries {
      UploadFromIff(outcome, attempt + 1, maxRetries);
      if Succeeds(outcome, attempt) {
        assert UploadFrom(outcome, attempt, maxRetries).ok;
      } else {
        if outcome(attempt).Raised? {
          assert Classify(outcome(attempt).msg, attempt, maxRetries).Retry?;
        }
        assert UploadFrom(outcome, attempt, maxRetries).ok == UploadFrom(outcome, attempt + 1, maxRetries).ok;
        if exists k :: attempt <= k < maxRetries && Succeeds(outcome, k) {
          var k :| attempt <= k < maxRetries && Succeeds(outcome, k);
          assert k != attempt;
        }
      }
    }
  }

  /** `upload_file`'s loop, from attempt 0, succeeds exactly when some attempt below the maximum returns status 200. */
  lemma UploadIff(outcome: nat -> Attempt, maxRetries: nat)
    ensures UploadFrom(outcome, 0, maxRetries).ok <==> exists k :: 0 <= k < maxRetries && Succeeds(outcome, k)
  {
    UploadFromIff(outcome, 0, maxRetries);
  }
}
