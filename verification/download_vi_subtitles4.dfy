/**
 * `download_vi_subtitles4`: new videos from the RSS scan whose normalised
 * link is not stored yet get the Vietnamese translation of their English
 * transcript, preferring one the uploader made over a generated one; only
 * the videos whose subtitle was saved are stored.  The transcript service,
 * the file system and the Firestore collection are parameters: the
 * collection is the sequence of `url` fields of its documents, and what the
 * service and the file system do for a video is an `Env`.
 */
module TranscriptSubtitles {
  import opened Wrappers
  import opened Text
  import opened Scan
  import opened SubLang
  import VideoLinks

  // ---------------------------------------------------------------------------
  // Video IDs
  // ---------------------------------------------------------------------------

  /** `(?:v=|\/)([0-9A-Za-z_-]{11})` matches at `j`; `v=` is tried first. */
  predicate GroupAt(s: string, j: nat) {
    (j + 2 <= |s| && s[j] == 'v' && s[j + 1] == '=' && VideoLinks.IdAt(s, j + 2)) ||
    (j < |s| && s[j] == '/' && VideoLinks.IdAt(s, j + 1))
  }

  /** `extract_video_id`: the group of the first match, or the text itself when nothing matches. */
  function ExtractVideoId(s: string): (r: string)
    ensures r == s || VideoLinks.VideoId(r)
  {
    match Leftmost(0, |s|, (j: nat) => GroupAt(s, j))
    case None => s
    case Some(j) =>
      var e := if s[j] == 'v' then j + 2 else j + 1;
      s[e..e + 11]
  }

  /** Eleven characters from `x` on cannot be an ID when one of them, at `b`, is outside the class. */
  lemma WindowBad(s: string, x: nat, b: nat)
    requires x <= b < x + 11 && b < |s| && !VideoLinks.VideoIdChar(s[b])
    ensures !VideoLinks.IdAt(s, x)
  {
    if x + 11 <= |s| {
      assert s[x..x + 11][b - x] == s[b];
    }
  }

  /** An ID alone is its own ID: it holds neither `/` nor `=`. */
  lemma BareId(id: string)
    requires VideoLinks.VideoId(id)
    ensures ExtractVideoId(id) == id
  {
    forall j: nat | j <= |id| ensures !GroupAt(id, j) {
      if j < |id| {
        assert VideoLinks.VideoIdChar(id[j]);
      }
      if j + 1 < |id| {
        assert VideoLinks.VideoIdChar(id[j + 1]);
      }
    }
  }

  /** `extract_video_id` is idempotent. */
  lemma ExtractIdempotent(s: string)
    ensures ExtractVideoId(ExtractVideoId(s)) == ExtractVideoId(s)
  {
    if ExtractVideoId(s) != s {
      BareId(ExtractVideoId(s));
    }
  }

  /** In the canonical watch link nothing matches before the `v=` at 30. */
  lemma NoGroupInWatchScheme(id: string, j: nat)
    requires VideoLinks.VideoId(id) && j < 30
    ensures !GroupAt(WatchPrefix + id, j)
  {
    var s := WatchPrefix + id;
    assert s[11] == '.' && s[19] == '.' && s[28] == 'h' && s[29] == '?';
    if j < 28 {
      var x := j + 1;
      var b := if x <= 11 then 11 else if x <= 19 then 19 else 29;
      WindowBad(s, x, b);
      if j + 2 <= 29 {
        var b2 := if x + 1 <= 11 then 11 else if x + 1 <= 19 then 19 else 29;
        WindowBad(s, x + 1, b2);
      }
    }
  }

  /** The canonical watch link of an ID gives that ID. */
  lemma WatchLinkId(id: string)
    requires VideoLinks.VideoId(id)
    ensures ExtractVideoId(WatchPrefix + id) == id
  {
    var s := WatchPrefix + id;
    forall j: nat | j < 30 ensures !GroupAt(s, j) {
      NoGroupInWatchScheme(id, j);
    }
    assert s[30] == 'v' && s[31] == '=' && s[32..43] == id;
    LeftmostIs(0, |s|, (j: nat) => GroupAt(s, j), 30);
  }

  const ShortLink: string := "https://youtu.be/"

  /** In the short link nothing matches before the `/` at 16. */
  lemma NoGroupInShortScheme(id: string, j: nat)
    requires VideoLinks.VideoId(id) && j < 16
    ensures !GroupAt(ShortLink + id, j)
  {
    var s := ShortLink + id;
    assert s[5] == ':' && s[13] == '.' && s[15] == 'e' && s[16] == '/';
    if j < 15 {
      var x := j + 1;
      var b := if x <= 5 then 5 else if x <= 13 then 13 else 16;
      WindowBad(s, x, b);
      var b2 := if x + 1 <= 5 then 5 else if x + 1 <= 13 then 13 else 16;
      WindowBad(s, x + 1, b2);
    }
  }

  /** The short link of an ID gives that ID. */
  lemma ShortLinkId(id: string)
    requires VideoLinks.VideoId(id)
    ensures ExtractVideoId(ShortLink + id) == id
  {
    var s := ShortLink + id;
    forall j: nat | j < 16 ensures !GroupAt(s, j) {
      NoGroupInShortScheme(id, j);
    }
    assert s[16] == '/' && s[17..28] == id;
    LeftmostIs(0, |s|, (j: nat) => GroupAt(s, j), 16);
  }

  /** A video's subtitle file has the same ID whether the feed gives its watch link, its short link or the bare ID. */
  lemma SameIdAnyForm(id: string)
    requires VideoLinks.VideoId(id)
    ensures ExtractVideoId(WatchPrefix + id) == ExtractVideoId(ShortLink + id) == ExtractVideoId(id) == id
  {
    WatchLinkId(id);
    ShortLinkId(id);
    BareId(id);
  }

  // ---------------------------------------------------------------------------
  // One download
  // ---------------------------------------------------------------------------

  /** An English transcript: whether it can be translated, and the language codes it translates to. */
  datatype Transcript = Transcript(translatable: bool, targets: seq<string>)

  /**
   * What the outside world does for one video: whether the transcripts can
   * be listed, the English transcript the uploader made and the generated
   * one, whether translating and fetching work, whether the output file
   * exists, and whether writing it works.
   */
  datatype Env = Env(listed: bool, manual: Option<Transcript>, generated: Option<Transcript>,
                     fetched: bool, outputExists: bool, writes: bool)

  /** The result of `download_sub`, whether it stored the video, and the file it wrote. */
  datatype Fetch = Fetch(ok: bool, added: bool, written: Option<string>)

  /** The transcript used: the uploader's when there is one. */
  function Chosen(env: Env): Option<Transcript> {
    if env.manual.Some? then env.manual else env.generated
  }

  /** `vi.cleansub` for the uploader's transcript, `vi` for a generated one. */
  function SuffixOf(env: Env): string {
    if env.manual.Some? then "vi.cleansub" else "vi"
  }

  /** `<id>.<suffix>.srt`. */
  function OutputName(id: string, env: Env): (r: string)
    ensures EndsWith(r, ".srt")
  {
    var r := id + "." + SuffixOf(env) + ".srt";
    assert r[|r| - 4..] == ".srt";
    r
  }

  /** The transcript can be used: it translates to `vi`. */
  predicate Usable(t: Transcript) {
    t.translatable && "vi" in t.targets
  }

  /** `download_sub`. */
  function DownloadSub(url: Option<string>, env: Env): (r: Fetch)
    ensures r.ok <==> r.added
    ensures r.written.Some? ==> r.ok && !env.outputExists
  {
    if !VideoLinks.Truthy(url) || !env.listed then Fetch(false, false, None)
    else
      match Chosen(env)
      case None => Fetch(false, false, None)
      case Some(t) =>
        if !t.translatable || "vi" !in t.targets || !env.fetched then Fetch(false, false, None)
        else if env.outputExists then Fetch(true, true, None)
        else if env.writes then Fetch(true, true, Some(OutputName(ExtractVideoId(url.value), env)))
        else Fetch(false, false, None)
  }

  /** The download succeeds exactly when the chosen transcript translates to `vi` and the file is there or gets written. */
  lemma DownloadSubIff(url: Option<string>, env: Env)
    ensures DownloadSub(url, env).ok <==>
              VideoLinks.Truthy(url) && env.listed && Chosen(env).Some? && Usable(Chosen(env).value) &&
              env.fetched && (env.outputExists || env.writes)
  {
  }

  /** A generated transcript is never used when the uploader made one, even one that cannot be translated. */
  lemma ManualFirst(url: Option<string>, env: Env)
    requires env.manual.Some? && !Usable(env.manual.value)
    ensures !DownloadSub(url, env).ok
  {
  }

  /** The file written is named after the link's ID and is marked `cleansub` exactly when the uploader's transcript was used. */
  lemma WrittenName(url: Option<string>, env: Env)
    requires DownloadSub(url, env).written.Some?
    ensures var w := DownloadSub(url, env).written.value;
            w == OutputName(ExtractVideoId(url.value), env) &&
            (EndsWith(w, CleanTail) <==> env.manual.Some?)
  {
    var id := ExtractVideoId(url.value);
    var w := OutputName(id, env);
    if env.manual.Some? {
      assert w == id + ".vi" + CleanTail;
      assert w[|w| - |CleanTail|..] == CleanTail;
    } else if |w| >= |CleanTail| {
      assert w == id + ".vi.srt";
      assert w[|w| - |CleanTail|..][6] == w[|w| - 7] == '.';
    }
  }

  // ---------------------------------------------------------------------------
  // The run
  // ---------------------------------------------------------------------------

  /** The field of a video record the script reads: its link, possibly missing or empty. */
  datatype Video = Video(url: Option<string>)

  /** `normalize_youtube_url` on a possibly missing link. */
  function NormOpt(url: Option<string>): Option<string> {
    if url.Some? then Some(VideoLinks.Normalize(url.value)) else None
  }

  /** The stored links, normalised: from the truthy `url` fields of the documents. */
  function ExistingUrls(docs: seq<Option<string>>): set<string> {
    set x | x in docs && VideoLinks.Truthy(x) :: VideoLinks.Normalize(x.value)
  }

  /** The video's normalised link is not stored; a missing link never is. */
  predicate IsNew(v: Video, existing: set<string>) {
    NormOpt(v.url).None? || NormOpt(v.url).value !in existing
  }

  function TrulyNew(videos: seq<Video>, existing: set<string>): (r: seq<Video>)
    ensures forall v :: v in r ==> v in videos && IsNew(v, existing)
    decreases |videos|
  {
    if |videos| == 0 then []
    else
      var rest := TrulyNew(videos[1..], existing);
      if IsNew(videos[0], existing) then [videos[0]] + rest else rest
  }

  /** A video is kept exactly when it is new. */
  lemma {:induction false} TrulyNewIff(videos: seq<Video>, existing: set<string>, v: Video)
    requires v in videos
    ensures v in TrulyNew(videos, existing) <==> IsNew(v, existing)
    decreases |videos|
  {
    if v in videos[1..] {
      TrulyNewIff(videos[1..], existing, v);
    }
  }

  predicate Succeeds(v: Video, env: Video -> Env) {
    DownloadSub(v.url, env(v)).ok
  }

  /** The `url` fields stored for the videos whose download succeeded: their normalised links. */
  function StoredOf(vs: seq<Video>, env: Video -> Env): seq<Option<string>>
    decreases |vs|
  {
    if |vs| == 0 then []
    else (if Succeeds(vs[0], env) then [NormOpt(vs[0].url)] else []) + StoredOf(vs[1..], env)
  }

  lemma LinksAssoc(a: seq<Option<string>>, b: seq<Option<string>>, c: seq<Option<string>>)
    ensures a + b + c == a + (b + c)
  {
  }

  /** The collection after a run, and the counts of the summary. */
  datatype Outcome = Outcome(docs: seq<Option<string>>, succeeded: nat, failed: nat)

  /** The download loop: only `download_sub` stores, so a failed video is not stored. */
  function ProcessAll(vs: seq<Video>, docs: seq<Option<string>>, env: Video -> Env): (r: Outcome)
    ensures r.docs == docs + StoredOf(vs, env)
    ensures r.succeeded + r.failed == |vs|
    ensures r.succeeded == |StoredOf(vs, env)|
    decreases |vs|
  {
    if |vs| == 0 then Outcome(docs, 0, 0)
    else
      var f := DownloadSub(vs[0].url, env(vs[0]));
      var mine := if f.added then [NormOpt(vs[0].url)] else [];
      var rest := ProcessAll(vs[1..], docs + mine, env);
      LinksAssoc(docs, mine, StoredOf(vs[1..], env));
      Outcome(rest.docs, rest.succeeded + (if f.ok then 1 else 0), rest.failed + (if f.ok then 0 else 1))
  }

  /** `process_new_videos` after the RSS scan. */
  function ProcessNewVideos(videos: seq<Video>, docs: seq<Option<string>>, env: Video -> Env): Outcome {
    ProcessAll(TrulyNew(videos, ExistingUrls(docs)), docs, env)
  }

  /** A truthy link normalises to a truthy link, which normalises to itself. */
  lemma NormalizeTruthy(u: string)
    requires u != ""
    ensures VideoLinks.Normalize(u) != ""
    ensures VideoLinks.Normalize(VideoLinks.Normalize(u)) == VideoLinks.Normalize(u)
  {
    VideoLinks.NormalizeIdempotent(u);
  }

  /** The links stored for `vs` are exactly the normalised links of the videos that succeeded. */
  lemma {:induction false} StoredOfLinks(vs: seq<Video>, env: Video -> Env, x: Option<string>)
    ensures x in StoredOf(vs, env) <==> exists v :: v in vs && Succeeds(v, env) && NormOpt(v.url) == x
    decreases |vs|
  {
    if |vs| > 0 {
      StoredOfLinks(vs[1..], env, x);
      if exists v :: v in vs && Succeeds(v, env) && NormOpt(v.url) == x {
        var v :| v in vs && Succeeds(v, env) && NormOpt(v.url) == x;
        if v != vs[0] {
          assert v in vs[1..];
        }
      }
      if x in StoredOf(vs[1..], env) {
        var v :| v in vs[1..] && Succeeds(v, env) && NormOpt(v.url) == x;
        assert v in vs;
      }
    }
  }

  /** A link is known after the run exactly when it was known before or a video with that normalised link was saved. */
  lemma KnownAfterIff(videos: seq<Video>, docs: seq<Option<string>>, env: Video -> Env, n: string)
    requires n != "" && VideoLinks.Normalize(n) == n
    ensures var picked := TrulyNew(videos, ExistingUrls(docs));
            n in ExistingUrls(ProcessNewVideos(videos, docs, env).docs) <==>
              n in ExistingUrls(docs) || exists v :: v in picked && Succeeds(v, env) && NormOpt(v.url) == Some(n)
  {
    var picked := TrulyNew(videos, ExistingUrls(docs));
    var added := StoredOf(picked, env);
    var after := ProcessNewVideos(videos, docs, env).docs;
    assert after == docs + added;
    StoredOfLinks(picked, env, Some(n));
    if n in ExistingUrls(after) && n !in ExistingUrls(docs) {
      var x :| x in after && VideoLinks.Truthy(x) && VideoLinks.Normalize(x.value) == n;
      assert x in added;
      StoredOfLinks(picked, env, x);
      var v :| v in picked && Succeeds(v, env) && NormOpt(v.url) == x;
      NormalizeTruthy(v.url.value);
    }
    if n in ExistingUrls(docs) {
      var x :| x in docs && VideoLinks.Truthy(x) && VideoLinks.Normalize(x.value) == n;
      assert x in after;
    }
    if Some(n) in added {
      assert Some(n) in after;
    }
  }

  /** A video whose subtitle was saved is skipped by the next run. */
  lemma SavedSkipped(videos: seq<Video>, docs: seq<Option<string>>, env: Video -> Env, v: Video)
    requires v in videos && IsNew(v, ExistingUrls(docs)) && Succeeds(v, env)
    ensures !IsNew(v, ExistingUrls(ProcessNewVideos(videos, docs, env).docs))
  {
    var picked := TrulyNew(videos, ExistingUrls(docs));
    TrulyNewIff(videos, ExistingUrls(docs), v);
    var n := NormOpt(v.url).value;
    NormalizeTruthy(v.url.value);
    KnownAfterIff(videos, docs, env, n);
  }

  /** A new video whose download failed is tried again by the next run, unless another video with the same normalised link was saved. */
  lemma FailedRetried(videos: seq<Video>, docs: seq<Option<string>>, env: Video -> Env, v: Video)
    requires v in videos && IsNew(v, ExistingUrls(docs))
    requires forall w :: w in videos && Succeeds(w, env) ==> NormOpt(w.url) != NormOpt(v.url)
    ensures IsNew(v, ExistingUrls(ProcessNewVideos(videos, docs, env).docs))
  {
    if VideoLinks.Truthy(v.url) {
      var n := NormOpt(v.url).value;
      NormalizeTruthy(v.url.value);
      KnownAfterIff(videos, docs, env, n);
    } else if v.url.Some? {
      assert VideoLinks.Normalize("") == "";
      assert "" !in ExistingUrls(ProcessNewVideos(videos, docs, env).docs) by {
        forall u | u in ExistingUrls(ProcessNewVideos(videos, docs, env).docs) ensures u != "" {
          var after := ProcessNewVideos(videos, docs, env).docs;
          var x :| x in after && VideoLinks.Truthy(x) && VideoLinks.Normalize(x.value) == u;
          NormalizeTruthy(x.value);
        }
      }
    }
  }
}
