/**
 * The link helpers of `addToFirestore.py`: YouTube link normalisation,
 * video-ID extraction and the duplicate check that runs before a video is
 * stored.  A video ID is eleven characters from `[A-Za-z0-9_-]`, found by
 * the first of two patterns that matches:
 *
 *   1. `youtube.com/watch?v=`, `youtu.be/` or `youtube.com/embed/`, then the ID;
 *   2. `youtube.com/`, then anything on the same line (greedy), then `?v=` or
 *      `&v=`, then the ID.
 */
module VideoLinks {
  import opened Wrappers
  import opened Text
  import opened Scan

  /** The class `[a-zA-Z0-9_-]`. */
  predicate VideoIdChar(c: char) {
    'a' <= c <= 'z' || 'A' <= c <= 'Z' || '0' <= c <= '9' || c == '_' || c == '-'
  }

  /** A video ID: `[a-zA-Z0-9_-]{11}`. */
  predicate VideoId(id: string) {
    |id| == 11 && forall k :: 0 <= k < 11 ==> VideoIdChar(id[k])
  }

  /** Eleven ID characters start at `i`. */
  predicate IdAt(s: string, i: nat) {
    i + 11 <= |s| && VideoId(s[i..i + 11])
  }

  const Alternatives: seq<string> := ["youtube.com/watch?v=", "youtu.be/", "youtube.com/embed/"]

  /** The length of the first alternative of pattern 1 that matches at `j` and is followed by an ID. */
  function AltAt(s: string, j: nat, alts: seq<string>): (r: Option<nat>)
    ensures r.Some? ==> j + r.value + 11 <= |s| && IdAt(s, j + r.value)
    decreases |alts|
  {
    if |alts| == 0 then None
    else if j <= |s| && StartsWith(s[j..], alts[0]) && IdAt(s, j + |alts[0]|) then Some(|alts[0]|)
    else AltAt(s, j, alts[1..])
  }

  /** The group of `re.search` with pattern 1. */
  function FirstPattern(s: string): (r: Option<string>)
    ensures r.Some? ==> VideoId(r.value)
  {
    match Leftmost(0, |s|, (j: nat) => AltAt(s, j, Alternatives).Some?)
    case None => None
    case Some(j) =>
      var e := j + AltAt(s, j, Alternatives).value;
      Some(s[e..e + 11])
  }

  const Host: string := "youtube.com/"

  /** `[?&]v=` followed by an ID starts at `k`. */
  predicate QueryAt(s: string, k: nat) {
    k + 3 <= |s| && (s[k] == '?' || s[k] == '&') && s[k + 1] == 'v' && s[k + 2] == '=' && IdAt(s, k + 3)
  }

  /** The first line break at or after `i`, or `|s|`: how far `.*` can reach from `i`. */
  function LineEnd(s: string, i: nat): (e: nat)
    requires i <= |s|
    ensures i <= e <= |s|
  {
    i + IndexOfChar(s[i..], '\n')
  }

  /** Where pattern 2 takes its `[?&]v=` when the host starts at `j`: the last one the greedy `.*` can reach. */
  function QueryFor(s: string, j: nat): Option<nat> {
    if j + |Host| <= |s| && s[j..j + |Host|] == Host then
      Rightmost(j + |Host|, LineEnd(s, j + |Host|), (k: nat) => QueryAt(s, k))
    else None
  }

  /** The group of `re.search` with pattern 2. */
  function SecondPattern(s: string): (r: Option<string>)
    ensures r.Some? ==> VideoId(r.value)
  {
    match Leftmost(0, |s|, (j: nat) => QueryFor(s, j).Some?)
    case None => None
    case Some(j) =>
      var k := QueryFor(s, j).value;
      Some(s[k + 3..k + 14])
  }

  /** The ID the first matching pattern finds. */
  function FindId(url: string): (r: Option<string>)
    ensures r.Some? ==> VideoId(r.value)
  {
    var a := FirstPattern(url);
    if a.Some? then a else SecondPattern(url)
  }

  /** `normalize_youtube_url`: the canonical watch link of the ID found, else the link unchanged. */
  function Normalize(url: string): (r: string)
    ensures url == "" ==> r == ""
    ensures FindId(r) == FindId(url)
  {
    if url == "" then url
    else
      match FindId(url)
      case Some(id) =>
        FindIdOfWatch(id);
        WatchPrefix + id
      case None => url
  }

  /** Python truthiness of an optional string. */
  predicate Truthy(o: Option<string>) {
    o.Some? && o.value != ""
  }

  /** `extract_video_id_from_url`: the ID found, or `None` for a missing or empty link. */
  function ExtractId(url: Option<string>): (r: Option<string>)
    ensures r.Some? ==> VideoId(r.value) && Truthy(url)
  {
    if Truthy(url) then FindId(url.value) else None
  }

  /** Normalisation puts exactly the extracted ID into the canonical link, and leaves the link alone when there is none. */
  lemma NormalizeEmbedsId(url: string)
    requires url != ""
    ensures ExtractId(Some(url)).Some? ==> Normalize(url) == WatchPrefix + ExtractId(Some(url)).value
    ensures ExtractId(Some(url)).None? ==> Normalize(url) == url
  {
  }

  /** No alternative of pattern 1 starts at a character other than `y`. */
  lemma {:induction false} NoAltAt(s: string, j: nat, alts: seq<string>)
    requires j < |s| && forall k :: 0 <= k < |alts| ==> |alts[k]| > 0 && alts[k][0] == 'y'
    requires s[j] != 'y'
    ensures AltAt(s, j, alts).None?
    decreases |alts|
  {
    if |alts| > 0 {
      assert s[j..][0] == s[j];
      NoAltAt(s, j, alts[1..]);
    }
  }

  /** Nothing in `https://www.` starts with `y`. */
  lemma SchemeHasNoY(id: string, j: nat)
    requires j < 12
    ensures (WatchPrefix + id)[j] != 'y'
  {
    assert (WatchPrefix + id)[j] == WatchPrefix[j];
  }

  /** In the canonical link the first alternative matches right after `https://www.`. */
  lemma WatchAlt(id: string)
    requires VideoId(id)
    ensures AltAt(WatchPrefix + id, 12, Alternatives) == Some(20)
    ensures (WatchPrefix + id)[32..43] == id
  {
    var s := WatchPrefix + id;
    assert s[12..][..20] == Alternatives[0];
    assert s[32..43] == id;
  }

  /** The canonical link of an ID gives that ID back. */
  lemma FindIdOfWatch(id: string)
    requires VideoId(id)
    ensures FindId(WatchPrefix + id) == Some(id)
  {
    var s := WatchPrefix + id;
    WatchAlt(id);
    forall j: nat | j < 12 ensures !AltAt(s, j, Alternatives).Some? {
      SchemeHasNoY(id, j);
      NoAltAt(s, j, Alternatives);
    }
    LeftmostIs(0, |s|, (j: nat) => AltAt(s, j, Alternatives).Some?, 12);
  }

  /** `normalize_youtube_url` is idempotent. */
  lemma NormalizeIdempotent(url: string)
    ensures Normalize(Normalize(url)) == Normalize(url)
  {
    if url != "" && FindId(url).Some? {
      FindIdOfWatch(FindId(url).value);
    }
  }

  // ---------------------------------------------------------------------------
  // Duplicate check
  // ---------------------------------------------------------------------------

  /** The fields of a video record the check reads: `url` and `video_id`, either possibly missing. */
  datatype Video = Video(url: Option<string>, videoId: Option<string>)

  /** The normalised links and the video IDs already stored. */
  datatype Existing = Existing(urls: set<string>, ids: set<string>)

  /** The returned pair and the record as the check leaves it. */
  datatype Verdict = Verdict(duplicate: bool, reason: string, video: Video)

  const UrlMatch: string := "URL match"
  const IdMatch: string := "Video ID match"
  const NotDuplicate: string := "Not duplicate"

  /** The ID the check compares: the record's own when truthy, else the one extracted from its link. */
  function EffectiveId(v: Video): Option<string> {
    if Truthy(v.videoId) then v.videoId else ExtractId(v.url)
  }

  /** The link is stored already, once normalised. */
  predicate UrlKnown(v: Video, ex: Existing) {
    Truthy(v.url) && Normalize(v.url.value) in ex.urls
  }

  /** `is_video_duplicate_optimized`. */
  function IsDuplicate(v: Video, ex: Existing): (r: Verdict)
    ensures r.reason in {UrlMatch, IdMatch, NotDuplicate}
    ensures r.duplicate <==> r.reason != NotDuplicate
    ensures r.reason == UrlMatch <==> UrlKnown(v, ex)
    ensures r.reason == IdMatch <==> !UrlKnown(v, ex) && Truthy(EffectiveId(v)) && EffectiveId(v).value in ex.ids
    ensures r.video.url == v.url
    ensures r.video != v ==>
              !Truthy(v.videoId) && ExtractId(v.url).Some? && r.video.videoId == ExtractId(v.url) && r.reason != UrlMatch
  {
    if Truthy(v.url) && Normalize(v.url.value) in ex.urls then Verdict(true, UrlMatch, v)
    else
      var id := if Truthy(v.videoId) then v.videoId else ExtractId(v.url);
      var v' := if !Truthy(v.videoId) && id.Some? then v.(videoId := id) else v;
      if Truthy(id) && id.value in ex.ids then Verdict(true, IdMatch, v')
      else Verdict(false, NotDuplicate, v')
  }

  /** Checking the record the check left behind gives the same verdict and changes nothing more. */
  lemma CheckStable(v: Video, ex: Existing)
    ensures IsDuplicate(IsDuplicate(v, ex).video, ex) == IsDuplicate(v, ex).(video := IsDuplicate(v, ex).video)
  {
    var r := IsDuplicate(v, ex);
    if !UrlKnown(v, ex) && !Truthy(v.videoId) && ExtractId(v.url).Some? {
      assert Truthy(ExtractId(v.url));
      assert EffectiveId(r.video) == EffectiveId(v);
    }
  }
}
