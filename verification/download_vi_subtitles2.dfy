/**
 * `download_vi_subtitles2`: new videos from the RSS scan whose link is not
 * stored yet get their Vietnamese subtitle from yt-dlp, and every video
 * processed is stored afterwards, whether its download worked or not.  The
 * yt-dlp runs, the file system and the Firestore collection are parameters:
 * the collection is the sequence of `url` fields of its documents, and what
 * yt-dlp and the file system do for a video is an `Env`.
 */
module YtDlpSubtitles {
  import opened Wrappers
  import opened Text
  import opened SubLang
  import VideoLinks

  /** The field of a video record the script reads: its link, possibly missing or empty. */
  datatype Video = Video(url: Option<string>)

  /** What `yt-dlp --print-json` tells about a video. */
  datatype Info = Info(id: string, langs: Langs)

  datatype RunOutcome = Finished | TimedOut | Failed

  /** What the outside world does for one video. */
  datatype Env = Env(info: Option<Info>, finalExists: bool, run: RunOutcome, rawAfter: bool)

  /** The result of `download_sub`, whether it stored the video, and the rename it made. */
  datatype Fetch = Fetch(ok: bool, added: bool, rename: Option<(string, string)>)

  /** `download_sub`. */
  function DownloadSub(url: Option<string>, env: Env): (r: Fetch)
    ensures r.ok <==> r.added
    ensures r.ok ==> VideoLinks.Truthy(url) && env.info.Some?
    ensures r.rename.Some? ==> r.ok && !env.finalExists
  {
    if !VideoLinks.Truthy(url) || env.info.None? then Fetch(false, false, None)
    else
      var c := ChooseSubLang(env.info.value.langs);
      var id := env.info.value.id;
      if env.finalExists then Fetch(true, true, None)
      else if env.run.Finished? && env.rawAfter then Fetch(true, true, Some((RawName(id, c), FinalName(id, c))))
      else Fetch(false, false, None)
  }

  /** The download succeeds exactly when there is a link and info, and the final file either exists or is produced. */
  lemma DownloadSubIff(url: Option<string>, env: Env)
    ensures DownloadSub(url, env).ok <==>
              VideoLinks.Truthy(url) && env.info.Some? && (env.finalExists || (env.run == Finished && env.rawAfter))
  {
  }

  /** A rename moves `<id>.<lang>.srt` to `<id>.<suffix>.srt`, and renames to a different name only for an uploaded track. */
  lemma RenameNames(url: Option<string>, env: Env)
    requires DownloadSub(url, env).rename.Some?
    ensures var c := ChooseSubLang(env.info.value.langs);
            var (from, to) := DownloadSub(url, env).rename.value;
            from == RawName(env.info.value.id, c) && to == FinalName(env.info.value.id, c) &&
            (from != to <==> c.user)
  {
    RawIsFinalIff(env.info.value.id, ChooseSubLang(env.info.value.langs));
  }

  /** The stored links: the truthy `url` fields of the documents. */
  function ExistingUrls(docs: seq<Option<string>>): (r: set<string>)
    ensures forall u :: u in r <==> u != "" && Some(u) in docs
  {
    set i | 0 <= i < |docs| && VideoLinks.Truthy(docs[i]) :: docs[i].value
  }

  /** The videos whose `url` is not stored: a missing link never is. */
  function TrulyNew(videos: seq<Video>, existing: set<string>): (r: seq<Video>)
    ensures |r| <= |videos|
    ensures forall v :: v in r ==> v in videos
    decreases |videos|
  {
    if |videos| == 0 then []
    else
      var rest := TrulyNew(videos[1..], existing);
      if videos[0].url.None? || videos[0].url.value !in existing then [videos[0]] + rest else rest
  }

  predicate IsNew(v: Video, existing: set<string>) {
    v.url.None? || v.url.value !in existing
  }

  /** A video is kept exactly when it is new. */
  lemma {:induction false} TrulyNewIff(videos: seq<Video>, existing: set<string>, v: Video)
    requires v in videos
    ensures v in TrulyNew(videos, existing) <==> IsNew(v, existing)
    decreases |videos|
  {
    if v in videos[1..] {
      TrulyNewIff(videos[1..], existing, v);
    }
  }

  /** The `url` fields of the documents stored for `vs`, one per video. */
  function UrlsOf(vs: seq<Video>): (r: seq<Option<string>>)
    ensures |r| == |vs|
    decreases |vs|
  {
    if |vs| == 0 then [] else [vs[0].url] + UrlsOf(vs[1..])
  }

  /** The `i`-th stored link is the `i`-th video's. */
  lemma {:induction false} UrlsOfAt(vs: seq<Video>, i: nat)
    requires i < |vs|
    ensures UrlsOf(vs)[i] == vs[i].url
    decreases |vs|
  {
    if i > 0 {
      UrlsOfAt(vs[1..], i - 1);
    }
  }

  lemma LinksAssoc(a: seq<Option<string>>, b: seq<Option<string>>, c: seq<Option<string>>)
    ensures a + b + c == a + (b + c)
  {
  }

  /** The collection after one video: `download_sub` stores it on success, the loop on failure. */
  function Stored(docs: seq<Option<string>>, url: Option<string>, f: Fetch): (r: seq<Option<string>>)
    requires f.ok <==> f.added
    ensures r == docs + [url]
  {
    var docs1 := if f.added then docs + [url] else docs;
    if f.ok then docs1 else docs1 + [url]
  }

  /** The collection after a run, and the counts of the summary. */
  datatype Outcome = Outcome(docs: seq<Option<string>>, succeeded: nat, failed: nat)

  /** The download loop: a failed video is stored by the loop, a successful one by `download_sub`. */
  function ProcessAll(vs: seq<Video>, docs: seq<Option<string>>, env: Video -> Env): (r: Outcome)
    ensures r.docs == docs + UrlsOf(vs)
    ensures r.succeeded + r.failed == |vs|
    decreases |vs|
  {
    if |vs| == 0 then Outcome(docs, 0, 0)
    else
      var f := DownloadSub(vs[0].url, env(vs[0]));
      var docs2 := Stored(docs, vs[0].url, f);
      var rest := ProcessAll(vs[1..], docs2, env);
      LinksAssoc(docs, [vs[0].url], UrlsOf(vs[1..]));
      Outcome(rest.docs, rest.succeeded + (if f.ok then 1 else 0), rest.failed + (if f.ok then 0 else 1))
  }

  /** `process_new_videos` after the RSS scan. */
  function ProcessNewVideos(videos: seq<Video>, docs: seq<Option<string>>, env: Video -> Env): (r: Outcome)
  {
    ProcessAll(TrulyNew(videos, ExistingUrls(docs)), docs, env)
  }

  /** Every link of the new videos that is truthy is stored after the run. */
  lemma StoredAfter(videos: seq<Video>, docs: seq<Option<string>>, env: Video -> Env, v: Video)
    requires v in videos && VideoLinks.Truthy(v.url)
    ensures v.url.value in ExistingUrls(ProcessNewVideos(videos, docs, env).docs)
  {
    var existing := ExistingUrls(docs);
    var picked := TrulyNew(videos, existing);
    var after := ProcessNewVideos(videos, docs, env).docs;
    TrulyNewIff(videos, existing, v);
    if v in picked {
      var i :| 0 <= i < |picked| && picked[i] == v;
      UrlsOfAt(picked, i);
      assert after[|docs| + i] == v.url;
    } else {
      var j :| 0 <= j < |docs| && docs[j] == v.url;
      assert after[j] == v.url;
    }
  }

  /** The videos without a truthy link. */
  function Unlinked(videos: seq<Video>): (r: seq<Video>)
    decreases |videos|
  {
    if |videos| == 0 then []
    else if !VideoLinks.Truthy(videos[0].url) then [videos[0]] + Unlinked(videos[1..])
    else Unlinked(videos[1..])
  }

  /** When every truthy link is stored, only the videos without one are new. */
  lemma {:induction false} NewWhenAllStored(videos: seq<Video>, existing: set<string>)
    requires forall v :: v in videos && VideoLinks.Truthy(v.url) ==> v.url.value in existing
    requires "" !in existing
    ensures TrulyNew(videos, existing) == Unlinked(videos)
    decreases |videos|
  {
    if |videos| > 0 {
      NewWhenAllStored(videos[1..], existing);
    }
  }

  /** A second run over the same scan processes only the videos that have no link: nothing is fetched twice. */
  lemma SecondRunOnlyUnlinked(videos: seq<Video>, docs: seq<Option<string>>, env: Video -> Env)
    ensures TrulyNew(videos, ExistingUrls(ProcessNewVideos(videos, docs, env).docs)) == Unlinked(videos)
  {
    var after := ProcessNewVideos(videos, docs, env).docs;
    forall v | v in videos && VideoLinks.Truthy(v.url) ensures v.url.value in ExistingUrls(after) {
      StoredAfter(videos, docs, env, v);
    }
    NewWhenAllStored(videos, ExistingUrls(after));
  }
}
