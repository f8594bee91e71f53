/**
 * The pure steps of `pipeline3`'s Views4You downloader: the video ID taken
 * from a YouTube link, which new files in the download folder count as
 * finished subtitles, the name a downloaded subtitle is renamed to, and the
 * links read from a URL list file.  The browser session, the folder and the
 * clock are outside the model; what they report is a parameter.
 */
module Views4You {
  import opened Wrappers
  import opened Text
  import opened Decimal
  import opened PathNames
  import opened Scan
  import opened SubLang
  import VideoLinks

  // ---------------------------------------------------------------------------
  // Video IDs
  // ---------------------------------------------------------------------------

  /** The class `[^&\n?#]` excludes these. */
  predicate IdStop(c: char) {
    c == '&' || c == '\n' || c == '?' || c == '#'
  }

  /** The length of the first alternative of pattern 1 that matches at `j` with a non-empty group after it. */
  function AltRunAt(s: string, j: nat, alts: seq<string>): (r: Option<nat>)
    ensures r.Some? ==> exists k :: 0 <= k < |alts| && r.value == |alts[k]| && RunAt(s, j, alts[k], IdStop)
    decreases |alts|
  {
    if |alts| == 0 then None
    else if RunAt(s, j, alts[0], IdStop) then Some(|alts[0]|)
    else
      var r := AltRunAt(s, j, alts[1..]);
      assert forall k :: 1 <= k < |alts| ==> alts[k] == alts[1..][k - 1];
      r
  }

  /** Where pattern 1 can match. */
  function AltHit(s: string): nat -> bool {
    (j: nat) => AltRunAt(s, j, VideoLinks.Alternatives).Some?
  }

  /** The group of `re.search(r'(?:youtube\.com/watch\?v=|youtu\.be/|youtube\.com/embed/)([^&\n?#]+)', url)`. */
  function FirstPattern(s: string): (r: Option<string>)
    ensures r.Some? ==> |r.value| > 0 && forall i :: 0 <= i < |r.value| ==> !IdStop(r.value[i])
  {
    match Leftmost(0, |s|, AltHit(s))
    case None => None
    case Some(j) =>
      var rest := s[j + AltRunAt(s, j, VideoLinks.Alternatives).value..];
      Some(rest[..Run(rest, IdStop)])
  }

  const WatchQuery: string := "youtube.com/watch?"

  /** `v=` followed by a group character starts at `k`. */
  predicate VAt(s: string, k: nat) {
    k + 2 < |s| && s[k] == 'v' && s[k + 1] == '=' && !IdStop(s[k + 2])
  }

  /** Where pattern 2 takes its `v=` when `youtube.com/watch?` starts at `j`: the last one the greedy `.*` reaches on that line. */
  function QueryFor(s: string, j: nat): Option<nat> {
    if j + |WatchQuery| <= |s| && s[j..j + |WatchQuery|] == WatchQuery then
      Rightmost(j + |WatchQuery|, VideoLinks.LineEnd(s, j + |WatchQuery|), (k: nat) => VAt(s, k))
    else None
  }

  /** The group of `re.search(r'youtube\.com/watch\?.*v=([^&\n?#]+)', url)`. */
  function SecondPattern(s: string): (r: Option<string>)
    ensures r.Some? ==> |r.value| > 0 && forall i :: 0 <= i < |r.value| ==> !IdStop(r.value[i])
  {
    match Leftmost(0, |s|, (j: nat) => QueryFor(s, j).Some?)
    case None => None
    case Some(j) =>
      var rest := s[QueryFor(s, j).value + 2..];
      Some(rest[..Run(rest, IdStop)])
  }

  /** `extract_youtube_id`: the group of the first pattern that matches. */
  function ExtractYoutubeId(url: string): (r: Option<string>)
    ensures r.Some? ==> |r.value| > 0 && forall i :: 0 <= i < |r.value| ==> !IdStop(r.value[i])
  {
    var a := FirstPattern(url);
    if a.Some? then a else SecondPattern(url)
  }

  /** An ID the class accepts throughout. */
  predicate PlainId(id: string) {
    |id| > 0 && forall i :: 0 <= i < |id| ==> !IdStop(id[i])
  }

  /** No alternative starts at a character other than `y`. */
  lemma {:induction false} NoAltRunAt(s: string, j: nat, alts: seq<string>)
    requires j < |s| && s[j] != 'y'
    requires forall k :: 0 <= k < |alts| ==> |alts[k]| > 0 && alts[k][0] == 'y'
    ensures AltRunAt(s, j, alts).None?
    decreases |alts|
  {
    if |alts| > 0 {
      assert j + |alts[0]| <= |s| ==> s[j..j + |alts[0]|][0] == s[j];
      NoAltRunAt(s, j, alts[1..]);
    }
  }

  /** Every alternative of pattern 1 starts with `y`. */
  lemma AlternativesStartWithY()
    ensures forall k :: 0 <= k < |VideoLinks.Alternatives| ==>
                          |VideoLinks.Alternatives[k]| > 0 && VideoLinks.Alternatives[k][0] == 'y'
  {
  }

  /** Pattern 1 cannot match before the first `y`. */
  lemma NoAltBefore(s: string, n: nat)
    requires n <= |s| && forall j :: 0 <= j < n ==> s[j] != 'y'
    ensures forall j: nat :: j < n ==> !AltHit(s)(j)
  {
    AlternativesStartWithY();
    forall j: nat | j < n ensures !AltHit(s)(j) {
      NoAltRunAt(s, j, VideoLinks.Alternatives);
    }
  }

  /** The parts of `prefix + alt + id`, by position. */
  lemma Pieces(prefix: string, alt: string, id: string)
    requires |id| > 0
    ensures var s := prefix + alt + id;
            s[|prefix|..|prefix| + |alt|] == alt && s[|prefix| + |alt|..] == id && s[|prefix| + |alt|] == id[0] &&
            forall j :: 0 <= j < |prefix| ==> s[j] == prefix[j]
  {
  }

  /** A link made of `prefix`, an alternative, and an ID: pattern 1 finds the ID. */
  lemma FirstPatternOf(prefix: string, alt: string, id: string)
    requires PlainId(id) && |alt| > 0
    requires forall j :: 0 <= j < |prefix| ==> prefix[j] != 'y'
    requires AltRunAt(prefix + alt + id, |prefix|, VideoLinks.Alternatives) == Some(|alt|)
    ensures FirstPattern(prefix + alt + id) == Some(id)
  {
    var s := prefix + alt + id;
    Pieces(prefix, alt, id);
    FirstAltAt(s, |prefix|, |alt|);
    FirstPatternAt(s, |prefix|, |alt|, id);
  }

  /** Pattern 1 first matches at `n` when it matches there and no `y` comes before. */
  lemma FirstAltAt(s: string, n: nat, len: nat)
    requires n <= |s| && forall j :: 0 <= j < n ==> s[j] != 'y'
    requires AltRunAt(s, n, VideoLinks.Alternatives) == Some(len)
    ensures Leftmost(0, |s|, AltHit(s)) == Some(n)
  {
    NoAltBefore(s, n);
    LeftmostIs(0, |s|, AltHit(s), n);
  }

  /** Pattern 1 found at `j` with an alternative of length `len`, followed by a whole ID: the group is that ID. */
  lemma FirstPatternAt(s: string, j: nat, len: nat, id: string)
    requires Leftmost(0, |s|, AltHit(s)) == Some(j)
    requires AltRunAt(s, j, VideoLinks.Alternatives) == Some(len)
    requires j + len <= |s| && s[j + len..] == id && PlainId(id)
    ensures FirstPattern(s) == Some(id)
  {
    assert Run(id, IdStop) == |id|;
    assert id[..|id|] == id;
  }

  const Scheme: string := "https://www."
  const ShortScheme: string := "https://"

  /** The canonical watch link of an ID gives that ID. */
  lemma WatchLinkId(id: string)
    requires PlainId(id)
    ensures ExtractYoutubeId(WatchPrefix + id) == Some(id)
  {
    var alt := VideoLinks.Alternatives[0];
    assert WatchPrefix == Scheme + alt;
    var s := Scheme + alt + id;
    Pieces(Scheme, alt, id);
    assert RunAt(s, 12, alt, IdStop);
    FirstPatternOf(Scheme, alt, id);
  }

  /** The short link of an ID gives that ID. */
  lemma ShortLinkId(id: string)
    requires PlainId(id)
    ensures ExtractYoutubeId("https://youtu.be/" + id) == Some(id)
  {
    var alt := VideoLinks.Alternatives[1];
    assert "https://youtu.be/" == ShortScheme + alt;
    var s := ShortScheme + alt + id;
    Pieces(ShortScheme, alt, id);
    assert s[13] == '.' && VideoLinks.Alternatives[0][5] == 'b';
    if 8 + 20 < |s| {
      assert s[8..28][5] == s[13];
    }
    assert !RunAt(s, 8, VideoLinks.Alternatives[0], IdStop);
    assert RunAt(s, 8, alt, IdStop);
    assert VideoLinks.Alternatives[1..][0] == alt;
    FirstPatternOf(ShortScheme, alt, id);
  }

  /** On canonical watch links the downloader's extraction agrees with the duplicate check's. */
  lemma AgreesWithDuplicateCheck(id: string)
    requires VideoLinks.VideoId(id)
    ensures ExtractYoutubeId(WatchPrefix + id) == VideoLinks.FindId(WatchPrefix + id) == Some(id)
  {
    assert PlainId(id) by {
      forall i | 0 <= i < |id| ensures !IdStop(id[i]) {
        assert VideoLinks.VideoIdChar(id[i]);
      }
    }
    WatchLinkId(id);
    VideoLinks.FindIdOfWatch(id);
  }

  // ---------------------------------------------------------------------------
  // Finished downloads
  // ---------------------------------------------------------------------------

  /** The test `wait_for_download` applies to a new file name. */
  predicate Completed(f: string) {
    !EndsWith(f, ".crdownload") && !EndsWith(f, ".tmp") && !EndsWith(f, ".part") && EndsWith(f, ".srt")
  }

  /** The new files that count as finished subtitles. */
  function CompletedFiles(before: set<string>, after: set<string>): (r: set<string>)
    ensures r <= after - before
  {
    set f | f in after - before && Completed(f)
  }

  /** The partial-download suffixes can never hold on an `.srt` name, so only the `.srt` test decides. */
  lemma CompletedIff(f: string)
    ensures Completed(f) <==> EndsWith(f, ".srt")
  {
    if EndsWith(f, ".srt") {
      SuffixesClash(f, ".srt", ".tmp", 0);
      SuffixesClash(f, ".srt", ".part", 2);
      SuffixesClash(f, ".srt", ".crdownload", 0);
    }
  }

  /** Two suffixes that differ at the same distance from the end cannot both end one name. */
  lemma SuffixesClash(f: string, a: string, b: string, i: nat)
    requires EndsWith(f, a) && i < |a| && i < |b| && a[|a| - 1 - i] != b[|b| - 1 - i]
    ensures !EndsWith(f, b)
  {
    assert f[|f| - |a|..][|a| - 1 - i] == f[|f| - 1 - i];
  }

  /** So the finished subtitles are exactly the new `.srt` files. */
  lemma CompletedAreNewSrt(before: set<string>, after: set<string>)
    ensures CompletedFiles(before, after) == set f | f in after - before && EndsWith(f, ".srt")
  {
    forall f ensures Completed(f) <==> EndsWith(f, ".srt") {
      CompletedIff(f);
    }
  }

  // ---------------------------------------------------------------------------
  // Renaming
  // ---------------------------------------------------------------------------

  /** A generated subtitle, by the markers Views4You puts in its file name. */
  predicate AutoGenerated(original: string) {
    Contains(original, "(auto-generated)") || Contains(original, "(auto generated)")
  }

  /** What `determine_new_filename` puts between `<id>.vi` and `.srt`. */
  function NameTail(original: string): string {
    if AutoGenerated(original) then "" else "-en.cleansub"
  }

  /** `determine_new_filename`: `<id>.vi.srt` for a generated track, `<id>.vi-en.cleansub.srt` otherwise. */
  function NewFilename(original: string, id: string): (r: string)
    ensures StartsWith(r, id + ".vi") && EndsWith(r, ".srt")
  {
    var base := id + ".vi" + NameTail(original);
    assert StartsWith(base, id + ".vi") by {
      StartsWithAppend(id + ".vi", NameTail(original), id + ".vi");
    }
    StartsWithAppend(base, ".srt", id + ".vi");
    EndsWithAppend(base, ".srt");
    base + ".srt"
  }

  /** The new name is the name the downloaders give: marked `cleansub` exactly when the track is not generated. */
  lemma NewFilenameIff(original: string, id: string)
    ensures var c := if AutoGenerated(original) then Choice("vi", false) else Choice("vi-en", true);
            NewFilename(original, id) == FinalName(id, c)
    ensures EndsWith(NewFilename(original, id), CleanTail) <==> !AutoGenerated(original)
  {
    var c := if AutoGenerated(original) then Choice("vi", false) else Choice("vi-en", true);
    assert "." + Suffix(c) == ".vi" + NameTail(original);
    Assoc(id, ".", Suffix(c));
    Assoc(id, ".vi", NameTail(original));
    CleanTailIff(id, c);
  }

  /** The name used when the target exists: `<base>_<timestamp><ext>` with `splitext`. */
  function CollisionName(name: string, stamp: nat): (r: string)
  {
    var (base, ext) := SplitExt(name);
    base + "_" + NatToString(stamp) + ext
  }

  /** For a name `<base>.srt` whose base has no `/` and is not only dots, the collision name keeps `.srt` and differs from the name. */
  lemma CollisionKeepsSrt(base: string, stamp: nat)
    requires !HasChar(base, '/') && exists j :: 0 <= j < |base| && base[j] != '.'
    ensures CollisionName(base + ".srt", stamp) == base + "_" + NatToString(stamp) + ".srt"
    ensures CollisionName(base + ".srt", stamp) != base + ".srt"
  {
    var p := base + ".srt";
    assert p[|base|] == '.';
    assert forall j :: |base| < j < |p| ==> p[j] == ".srt"[j - |base|];
    assert RFind(p, '.') == |base|;
    assert forall j :: 0 <= j < |base| ==> p[j] == base[j];
    assert RFind(p, '/') == -1;
    var j :| 0 <= j < |base| && base[j] != '.';
    assert p[j] != '.';
    assert NonDotIn(p, 0, |base|);
    assert p[..|base|] == base && p[|base|..] == ".srt";
    var r := CollisionName(p, stamp);
    assert |r| > |p|;
  }

  /** What the folder reports while renaming: the names present, and the stamp of the clock. */
  datatype Folder = Folder(present: set<string>, stamp: nat)

  /** The name one file is renamed to: its new name, or the collision name when that is taken. */
  function RenamedTo(f: string, id: string, folder: Folder): string {
    var target := NewFilename(f, id);
    if target in folder.present then CollisionName(target, folder.stamp) else target
  }

  /** The folder after renaming `f`. */
  function After(f: string, id: string, folder: Folder): Folder {
    folder.(present := folder.present - {f} + {RenamedTo(f, id, folder)})
  }

  /**
   * `rename_downloaded_files`: each file still present is renamed, and names
   * renamed to earlier count as taken for later files.
   */
  function RenameAll(files: seq<string>, id: string, folder: Folder): (r: seq<string>)
    ensures |r| <= |files|
    ensures !HasChar(id, '/') ==> forall n :: n in r ==> GoodName(n, id)
    decreases |files|
  {
    if |files| == 0 then []
    else if files[0] !in folder.present then RenameAll(files[1..], id, folder)
    else
      RenamedToGood(files[0], id, folder);
      [RenamedTo(files[0], id, folder)] + RenameAll(files[1..], id, After(files[0], id, folder))
  }

  /** A name the downloader gives: `<id>.vi`, then more, then `.srt`. */
  predicate GoodName(n: string, id: string) {
    EndsWith(n, ".srt") && StartsWith(n, id + ".vi")
  }

  /** Every name a file can be renamed to is a good name. */
  lemma RenamedToGood(f: string, id: string, folder: Folder)
    ensures !HasChar(id, '/') ==> GoodName(RenamedTo(f, id, folder), id)
  {
    var target := NewFilename(f, id);
    if !HasChar(id, '/') && target in folder.present {
      var base := id + ".vi" + NameTail(f);
      CollisionBase(id, NameTail(f));
      CollisionKeepsSrt(base, folder.stamp);
      StartsWithAppend(base, "_" + NatToString(folder.stamp) + ".srt", id + ".vi");
      Assoc(base, "_" + NatToString(folder.stamp), ".srt");
      Assoc(base, "_", NatToString(folder.stamp));
      EndsWithAppend(base + "_" + NatToString(folder.stamp), ".srt");
    }
  }

  /** The base of a new name has no `/` when the ID has none, is not only dots, and starts with `<id>.vi`. */
  lemma CollisionBase(id: string, tail: string)
    requires !HasChar(id, '/') && (tail == "" || tail == "-en.cleansub")
    ensures var base := id + ".vi" + tail;
            !HasChar(base, '/') && (exists j :: 0 <= j < |base| && base[j] != '.') && StartsWith(base, id + ".vi")
  {
    var base := id + ".vi" + tail;
    HasCharAppend(id, ".vi", '/');
    HasCharAppend(id + ".vi", tail, '/');
    assert base[|id| + 1] == 'v';
    StartsWithAppend(id + ".vi", tail, id + ".vi");
  }

  /** Renaming a present file at the head of the list. */
  lemma RenameStep(f: string, rest: seq<string>, id: string, folder: Folder)
    requires f in folder.present
    ensures RenameAll([f] + rest, id, folder) == [RenamedTo(f, id, folder)] + RenameAll(rest, id, After(f, id, folder))
  {
    assert ([f] + rest)[1..] == rest;
  }

  /** Three manual subtitles renamed within one second: the last two get the same name, and the later rename overwrites the earlier file. */
  lemma SameSecondClash(id: string, a: string, b: string, c: string, stamp: nat)
    requires a != b && b != c && a != c
    requires !AutoGenerated(a) && !AutoGenerated(b) && !AutoGenerated(c)
    requires NewFilename(a, id) !in {a, b, c}
    ensures var r := RenameAll([a, b, c], id, Folder({a, b, c}, stamp));
            |r| == 3 && r[1] == r[2]
  {
    var t := NewFilename(a, id);
    assert NewFilename(b, id) == t && NewFilename(c, id) == t;
    var f0 := Folder({a, b, c}, stamp);
    var f1 := After(a, id, f0);
    var f2 := After(b, id, f1);
    assert [a, b, c] == [a] + [b, c] && [b, c] == [b] + [c];
    assert RenamedTo(a, id, f0) == t;
    RenameStep(a, [b, c], id, f0);
    assert f1.present == {b, c, t};
    assert RenamedTo(b, id, f1) == CollisionName(t, stamp);
    RenameStep(b, [c], id, f1);
    assert c in f2.present && t in f2.present;
    assert RenamedTo(c, id, f2) == CollisionName(t, stamp);
    RenameStep(c, [], id, f2);
  }

  // ---------------------------------------------------------------------------
  // URL list files
  // ---------------------------------------------------------------------------

  /** A text that `load_urls_from_file` treats as a YouTube link. */
  predicate Marked(s: string) {
    Contains(s, "youtube.com") || Contains(s, "youtu.be")
  }

  /** The first marked token. */
  function FirstMarked(tokens: seq<string>): (r: Option<string>)
    ensures r.Some? ==> r.value in tokens && Marked(r.value)
    ensures r.None? <==> forall k :: 0 <= k < |tokens| ==> !Marked(tokens[k])
    decreases |tokens|
  {
    if |tokens| == 0 then None
    else if Marked(tokens[0]) then Some(tokens[0])
    else
      var r := FirstMarked(tokens[1..]);
      assert forall k :: 1 <= k < |tokens| ==> tokens[k] == tokens[1..][k - 1];
      r
  }

  /** The link a line contributes, if any. */
  function LineUrl(line: string): Option<string> {
    var l := Strip(line);
    if l == "" || StartsWith(l, "#") || !Marked(l) then None
    else FirstMarked(SplitWs(l))
  }

  /** `load_urls_from_file` on the lines of the file. */
  function LoadUrls(lines: seq<string>): (r: seq<string>)
    ensures |r| <= |lines|
    ensures |r| == CountLinkLines(lines)
    ensures forall u :: u in r ==> GoodUrl(u)
    decreases |lines|
  {
    if |lines| == 0 then []
    else
      var rest := LoadUrls(lines[1..]);
      LinkLineUrl(lines[0]);
      LineUrlGood(lines[0]);
      match LineUrl(lines[0])
      case Some(u) => [u] + rest
      case None => rest
  }

  /** A line the loader takes a link from: not empty, not a comment, and marked. */
  predicate LinkLine(line: string) {
    var l := Strip(line);
    l != "" && !StartsWith(l, "#") && Marked(l)
  }

  function CountLinkLines(lines: seq<string>): nat
    decreases |lines|
  {
    if |lines| == 0 then 0 else (if LinkLine(lines[0]) then 1 else 0) + CountLinkLines(lines[1..])
  }

  /** `m` occurs in `w` at `i`. */
  predicate OccursAt(w: string, m: string, i: nat) {
    i + |m| <= |w| && w[i..i + |m|] == m
  }

  /** An occurrence of a text without whitespace is not cut by stripping leading whitespace. */
  lemma {:induction false} OccurrenceAfterStrip(s: string, m: string, p: nat) returns (t: string, q: nat)
    requires |m| > 0 && NoSpace(m) && OccursAt(s, m, p)
    ensures t == LStrip(s) && |t| <= |s| && OccursAt(t, m, q)
  {
    t := LStrip(s);
    assert s[p] == m[0];
    q := DropSlice(s, |s| - |t|, p, |m|);
  }

  /** A slice of `s` past `d` is a slice of `s[d..]`, shifted back by `d`. */
  lemma {:induction false} DropSlice(s: string, d: nat, p: nat, len: nat) returns (q: nat)
    requires d <= p && p + len <= |s|
    ensures q == p - d && s[d..][q..q + len] == s[p..p + len]
  {
    q := p - d;
  }

  /** A slice of `s` before `n` is the same slice of `s[..n]`. */
  lemma {:induction false} TakeSlice(s: string, n: nat, p: nat, len: nat)
    requires p + len <= n <= |s|
    ensures s[..n][p..p + len] == s[p..p + len]
  {
  }

  /** An occurrence in a text that starts with a token either lies inside that token or in what follows it. */
  lemma {:induction false} OccurrenceInToken(t: string, m: string, d: nat)
    returns (n: nat, head: string, rest: string, inHead: bool, q: nat)
    requires |m| > 0 && NoSpace(m) && OccursAt(t, m, d)
    ensures n == TokenRun(t) && head == t[..n] && rest == t[n..]
    ensures inHead ==> OccursAt(head, m, q)
    ensures !inHead ==> OccursAt(rest, m, q)
  {
    n := TokenRun(t);
    head, rest := t[..n], t[n..];
    if d < n {
      inHead, q := true, d;
      InsideRun(t, m, d, n);
      TakeSlice(t, n, d, |m|);
    } else {
      inHead := false;
      q := DropSlice(t, n, d, |m|);
    }
  }

  /** An occurrence of a text without whitespace that starts inside the leading run ends inside it. */
  lemma {:induction false} InsideRun(t: string, m: string, d: nat, n: nat)
    requires n == TokenRun(t) && d < n && NoSpace(m) && OccursAt(t, m, d)
    ensures d + |m| <= n
  {
    assert forall j :: d <= j < d + |m| ==> t[j] == m[j - d];
  }

  /** The token holding an occurrence at `p` of a text without whitespace, and where in it. */
  lemma {:induction false} TokenOf(s: string, m: string, p: nat) returns (k: nat, i: nat)
    requires |m| > 0 && NoSpace(m) && OccursAt(s, m, p)
    ensures k < |SplitWs(s)| && OccursAt(SplitWs(s)[k], m, i)
    decreases |s|
  {
    var head, rest, inHead, q := FirstToken(s, m, p);
    if inHead {
      k, i := 0, q;
    } else {
      var k', i' := TokenOf(rest, m, q);
      k := TokenShift(SplitWs(s), head, SplitWs(rest), k', m, i');
      i := i';
    }
  }

  /** The first token `head` of `s` and the text `rest` after it, with the occurrence at `p` found in one of them. */
  lemma {:induction false} FirstToken(s: string, m: string, p: nat) returns (head: string, rest: string, inHead: bool, q: nat)
    requires |m| > 0 && NoSpace(m) && OccursAt(s, m, p)
    ensures |rest| < |s| && SplitWs(s) == [head] + SplitWs(rest)
    ensures inHead ==> OccursAt(head, m, q)
    ensures !inHead ==> OccursAt(rest, m, q)
  {
    var t, d := OccurrenceAfterStrip(s, m, p);
    var n;
    n, head, rest, inHead, q := OccurrenceInToken(t, m, d);
    assert 0 < n by {
      assert 0 < |t| && !IsSpace(t[0]);
    }
    SplitWsStep(s, t, n);
  }

  /** An occurrence in the `k`-th token after the head is one in the `k + 1`-th token of the whole. */
  lemma {:induction false} TokenShift(toks: seq<string>, head: string, rest: seq<string>, k: nat, m: string, i: nat) returns (k2: nat)
    requires toks == [head] + rest && k < |rest| && OccursAt(rest[k], m, i)
    ensures k2 == k + 1 && k2 < |toks| && OccursAt(toks[k2], m, i)
  {
    k2 := k + 1;
    assert toks[k2] == rest[k];
  }

  /** An occurrence of a text without whitespace lies inside one whitespace token. */
  lemma {:induction false} InToken(s: string, m: string)
    requires |m| > 0 && NoSpace(m) && Contains(s, m)
    ensures exists k :: 0 <= k < |SplitWs(s)| && Contains(SplitWs(s)[k], m)
  {
    var k, i := TokenOf(s, m, Find(s, m));
    var w := SplitWs(s)[k];
    assert w[i..][..|m|] == w[i..i + |m|];
    ContainsAt(w, m, i);
  }

  /** A marked line always has a marked token. */
  lemma MarkedLineHasUrl(l: string)
    requires Marked(l)
    ensures FirstMarked(SplitWs(l)).Some?
  {
    if Contains(l, "youtube.com") {
      InToken(l, "youtube.com");
    } else {
      InToken(l, "youtu.be");
    }
  }

  /** A line yields a link exactly when it is not empty, not a comment, and marked. */
  lemma LinkLineUrl(line: string)
    ensures LineUrl(line).Some? <==> LinkLine(line)
  {
    if LinkLine(line) {
      MarkedLineHasUrl(Strip(line));
    }
  }

  /** A loaded link: a marked, non-empty run of non-whitespace. */
  predicate GoodUrl(u: string) {
    Marked(u) && NoSpace(u) && |u| > 0
  }

  lemma LineUrlGood(line: string)
    ensures LineUrl(line).Some? ==> GoodUrl(LineUrl(line).value)
  {
    var u := LineUrl(line);
    if u.Some? {
      var toks := SplitWs(Strip(line));
      SplitWsTokens(Strip(line));
      var i :| 0 <= i < |toks| && toks[i] == u.value;
    }
  }
}
