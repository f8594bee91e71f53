/**
 * The pure parts of `YouTubeRSSReader`: deriving a channel record from an ID
 * or a `/channel/` link, the Shorts test, the per-entry filter that turns
 * feed entries into video records, the newest-first ordering and the summary
 * counts.  Fetching and parsing the feeds is I/O: a feed is a parameter that
 * maps a feed link to its entries, or to `None` when the feed cannot be read.
 * Times are whole seconds.
 */
module RssReader {
  import opened Wrappers
  import opened Text
  import opened Scan
  import VideoLinks

  // ---------------------------------------------------------------------------
  // Channels
  // ---------------------------------------------------------------------------

  const FeedPrefix: string := "https://www.youtube.com/feeds/videos.xml?channel_id="
  const ChannelPrefix: string := "https://www.youtube.com/channel/"
  const ChannelMark: string := "/channel/"

  datatype Channel = Channel(id: string, name: string, rssUrl: string, channelUrl: string)

  /** Python truthiness of an optional string. */
  predicate Truthy(o: Option<string>) {
    o.Some? && o.value != ""
  }

  /** The text after the first occurrence of `sep`. */
  function After(s: string, sep: string): (r: string)
    requires Contains(s, sep)
    ensures |r| <= |s| - |sep|
  {
    s[Find(s, sep) + |sep|..]
  }

  /** `t.split(sep)[0]`: the text before the first occurrence of `sep`, or all of `t`. */
  function Before(t: string, sep: string): (r: string)
  {
    var k := Find(t, sep);
    if k == -1 then t else t[..k]
  }

  /** `s.split(sep)[1]`: the text between the first and the second occurrence of `sep`. */
  function SecondPiece(s: string, sep: string): (r: string)
    requires Contains(s, sep)
  {
    Before(After(s, sep), sep)
  }

  /** `url.split('/channel/')[1].split('/')[0]`. */
  function IdFromLink(url: string): string
    requires Contains(url, ChannelMark)
  {
    FirstPiece(SecondPiece(url, ChannelMark), '/')
  }

  /** Cutting a string at an occurrence of `c` does not change its first `c`-piece. */
  lemma FirstPieceOfCut(t: string, k: nat, c: char)
    requires k < |t| && t[k] == c
    ensures FirstPiece(t[..k], c) == FirstPiece(t, c)
  {
    var i := IndexOfChar(t, c);
    assert t[..k][..i] == t[..i];
  }

  /** `t.split(sep)[0]` is a prefix of `t` followed by `sep` or by nothing. */
  lemma BeforeSpec(t: string, sep: string)
    ensures var r := Before(t, sep);
            |r| <= |t| && t[..|r|] == r && (|r| < |t| ==> StartsWith(t[|r|..], sep))
  {
    var k := Find(t, sep);
    if k != -1 {
      assert t[k..][..|sep|] == t[k..k + |sep|];
    }
  }

  /** Cutting at the first `sep` keeps the first `c`-piece when `sep` starts with `c`. */
  lemma CutBefore(t: string, sep: string, c: char)
    requires |sep| > 0 && sep[0] == c
    ensures FirstPiece(Before(t, sep), c) == FirstPiece(t, c)
  {
    var r := Before(t, sep);
    BeforeSpec(t, sep);
    if |r| < |t| {
      assert t[|r|..][..|sep|][0] == t[|r|];
      FirstPieceOfCut(t, |r|, c);
    } else {
      assert r == t;
    }
  }

  /** The piece before the first `sep`, cut again at `c`, is the piece before the first `c` when `sep` starts with `c`. */
  lemma CutPiece(s: string, sep: string, c: char)
    requires Contains(s, sep) && |sep| > 0 && sep[0] == c
    ensures FirstPiece(SecondPiece(s, sep), c) == FirstPiece(After(s, sep), c)
  {
    CutBefore(After(s, sep), sep, c);
  }

  /** The second split only cuts where the first already stops: the ID is the path segment after the first `/channel/`. */
  lemma IdFromLinkSegment(url: string)
    requires Contains(url, ChannelMark)
    ensures IdFromLink(url) == FirstPiece(After(url, ChannelMark), '/')
  {
    assert ChannelMark[0] == '/';
    CutPiece(url, ChannelMark, '/');
  }

  /** The ID `add_channel` works with, or `None` when it refuses a `/c/` or `/@` link. */
  function DerivedId(id: Option<string>, url: Option<string>): Option<Option<string>> {
    if Truthy(url) && !Truthy(id) then
      if Contains(url.value, ChannelMark) then Some(Some(IdFromLink(url.value)))
      else if Contains(url.value, "/c/") || Contains(url.value, "/@") then None
      else Some(id)
    else Some(id)
  }

  /** The record `add_channel` appends for an ID; the name defaults to the ID. */
  function Record(id: string, name: Option<string>): (c: Channel)
    ensures c.id == id && c.rssUrl == FeedPrefix + id && c.channelUrl == ChannelPrefix + id
    ensures c.name == (if Truthy(name) then name.value else id)
  {
    Channel(id, if Truthy(name) then name.value else id, FeedPrefix + id, ChannelPrefix + id)
  }

  /** `add_channel`: whether it succeeded, and the channel list afterwards. */
  function AddChannel(cs: seq<Channel>, id: Option<string>, url: Option<string>, name: Option<string>)
    : (r: (bool, seq<Channel>))
    ensures r.0 ==> |r.1| == |cs| + 1 && r.1[..|cs|] == cs && r.1[|cs|].id != ""
    ensures !r.0 ==> r.1 == cs
    ensures r.0 && Truthy(id) ==> r.1[|cs|] == Record(id.value, name)
    ensures (Truthy(url) && !Truthy(id) && !Contains(url.value, ChannelMark)
             && (Contains(url.value, "/c/") || Contains(url.value, "/@"))) ==> !r.0
  {
    match DerivedId(id, url)
    case None => (false, cs)
    case Some(d) =>
      if Truthy(d) then (true, cs + [Record(d.value, name)]) else (false, cs)
  }

  /** `/channel/` occurs in a channel link first where the prefix puts it. */
  lemma ChannelMarkAt(id: string)
    ensures Find(ChannelPrefix + id, ChannelMark) == 23
  {
    var s := ChannelPrefix + id;
    assert s[23..23 + |ChannelMark|] == ChannelMark;
    assert StartsWith(s[23..], ChannelMark);
    forall j | 0 <= j < 23 ensures !StartsWith(s[j..], ChannelMark) {
      NoMarkBefore(id, j);
    }
    FindIs(s, ChannelMark, 23);
  }

  lemma NoMarkBefore(id: string, j: nat)
    requires j < 23
    ensures !StartsWith((ChannelPrefix + id)[j..], ChannelMark)
  {
    var s := ChannelPrefix + id;
    assert s[j] == ChannelPrefix[j] && s[j + 1] == ChannelPrefix[j + 1];
    assert forall m :: 0 <= m < 23 && ChannelPrefix[m] == '/' ==> ChannelPrefix[m + 1] != 'c';
    if |ChannelMark| <= |s[j..]| {
      assert s[j..][..|ChannelMark|][0] == s[j] && s[j..][..|ChannelMark|][1] == s[j + 1];
    }
  }

  lemma FindIs(s: string, t: string, i: nat)
    requires i + |t| <= |s| && StartsWith(s[i..], t)
    requires forall j :: 0 <= j < i ==> !StartsWith(s[j..], t)
    ensures Find(s, t) == i
  {
    ContainsAt(s, t, i);
    var r := Find(s, t);
    assert s[r..][..|t|] == s[r..r + |t|];
  }

  /** The ID read back from a channel link, for an ID without `/`. */
  lemma IdOfChannelLink(id: string)
    requires !HasChar(id, '/')
    ensures Contains(ChannelPrefix + id, ChannelMark)
    ensures IdFromLink(ChannelPrefix + id) == id
  {
    var s := ChannelPrefix + id;
    ChannelMarkAt(id);
    assert s[23..][..|ChannelMark|] == ChannelMark;
    ContainsAt(s, ChannelMark, 23);
    IdFromLinkSegment(s);
    assert After(s, ChannelMark) == s[23 + |ChannelMark|..] == id;
    assert IndexOfChar(id, '/') == |id|;
  }

  /** Adding a channel by its own channel link adds the same record as adding it by ID. */
  lemma AddByLinkSameAsById(cs: seq<Channel>, id: string, name: Option<string>)
    requires id != "" && !HasChar(id, '/')
    ensures AddChannel(cs, None, Some(ChannelPrefix + id), name) == AddChannel(cs, Some(id), None, name)
    ensures AddChannel(cs, Some(id), None, name) == (true, cs + [Record(id, name)])
  {
    IdOfChannelLink(id);
  }

  /** An element of the list `add_channels_from_list` walks. */
  datatype Item =
    | Pair(pairId: Option<string>, pairName: Option<string>)   // a 2-tuple (ID, name)
    | Fields(id: Option<string>, url: Option<string>, name: Option<string>)   // a dict of keyword arguments
    | Other                                                    // anything else is ignored

  /** The record an item adds, if any. */
  function ItemRecord(item: Item): Option<Channel> {
    var r := match item
      case Pair(i, n) => AddChannel([], i, None, n)
      case Fields(i, u, n) => AddChannel([], i, u, n)
      case Other => (false, []);
    if r.0 then Some(r.1[0]) else None
  }

  /** The list after one item. */
  function AddItem(cs: seq<Channel>, item: Item): seq<Channel> {
    match item
    case Pair(i, n) => AddChannel(cs, i, None, n).1
    case Fields(i, u, n) => AddChannel(cs, i, u, n).1
    case Other => cs
  }

  /** `add_channels_from_list`: the channel list afterwards. */
  function AddChannels(cs: seq<Channel>, items: seq<Item>): seq<Channel>
    decreases |items|
  {
    if |items| == 0 then cs else AddChannels(AddItem(cs, items[0]), items[1..])
  }

  function AsSeq(o: Option<Channel>): seq<Channel> {
    match o
    case Some(c) => [c]
    case None => []
  }

  /** The records of the items that add one, in list order. */
  function Added(items: seq<Item>): seq<Channel>
    decreases |items|
  {
    if |items| == 0 then [] else AsSeq(ItemRecord(items[0])) + Added(items[1..])
  }

  /** One item appends its record, if any, whatever the list already holds. */
  lemma AddItemAppends(cs: seq<Channel>, item: Item)
    ensures AddItem(cs, item) == cs + AsSeq(ItemRecord(item))
  {
  }

  lemma SeqAssoc<T>(a: seq<T>, b: seq<T>, c: seq<T>)
    ensures a + b + c == a + (b + c)
  {
  }

  /** The list grows by the records of the accepted items, in order; nothing else changes. */
  lemma {:induction false} AddChannelsAppends(cs: seq<Channel>, items: seq<Item>)
    ensures AddChannels(cs, items) == cs + Added(items)
    decreases |items|
  {
    if |items| > 0 {
      var next := AddItem(cs, items[0]);
      var x := AsSeq(ItemRecord(items[0]));
      var rest := Added(items[1..]);
      AddItemAppends(cs, items[0]);
      AddChannelsAppends(next, items[1..]);
      assert Added(items) == x + rest;
      SeqAssoc(cs, x, rest);
    }
  }

  // ---------------------------------------------------------------------------
  // Entries
  // ---------------------------------------------------------------------------

  /** A feed entry: link, title, summary (empty when absent) and publication time. */
  datatype Entry = Entry(link: string, title: string, summary: string, published: int)

  /** `#shorts` holds `#short`, so testing for `#short` alone decides both. */
  lemma {:induction false} ContainsLonger(s: string, t: string, u: string)
    requires Contains(s, t + u)
    ensures Contains(s, t)
    decreases |s|
  {
    if StartsWith(s, t + u) {
      assert s[..|t|] == (t + u)[..|t|];
    } else {
      ContainsLonger(s[1..], t, u);
    }
  }

  /** `is_youtube_short`. */
  function IsShort(e: Entry): bool {
    var title := ToLower(e.title);
    var description := ToLower(e.summary);
    Contains(e.link, "/shorts/")
    || StartsWith(title, "#") || Contains(title, "#shorts") || Contains(title, "#short")
    || Contains(description, "#shorts") || Contains(description, "#short")
  }

  /** The Shorts test reduces to three checks: `/shorts/` in the link, a title starting with `#`, `#short` anywhere. */
  lemma IsShortIff(e: Entry)
    ensures IsShort(e) <==>
              Contains(e.link, "/shorts/") || StartsWith(ToLower(e.title), "#")
              || Contains(ToLower(e.title), "#short") || Contains(ToLower(e.summary), "#short")
  {
    assert "#short" + "s" == "#shorts";
    if Contains(ToLower(e.title), "#shorts") {
      ContainsLonger(ToLower(e.title), "#short", "s");
    }
    if Contains(ToLower(e.summary), "#shorts") {
      ContainsLonger(ToLower(e.summary), "#short", "s");
    }
  }

  /** `link.split('v=')[1].split('&')[0]` when the link holds `v=`, else the empty string. */
  function LinkVideoId(link: string): (r: string)
    ensures !HasChar(r, '&')
  {
    if Contains(link, "v=") then FirstPiece(SecondPiece(link, "v="), '&') else ""
  }

  /** `t.split(sep)[0].split(c)[0]` is a prefix of `t` that stops at `c`, at `sep` or at the end. */
  lemma PieceSpec(t: string, sep: string, c: char)
    ensures var r := FirstPiece(Before(t, sep), c);
            |r| <= |t| && t[..|r|] == r && (|r| < |t| ==> t[|r|] == c || StartsWith(t[|r|..], sep))
  {
    var piece := Before(t, sep);
    BeforeSpec(t, sep);
    FirstPieceSpec(piece, c);
    PieceOfPrefix(t, piece, FirstPiece(piece, c), c);
  }

  /** The ID taken from a link is a prefix of what follows the first `v=`, holds no `&`, and stops at `&`, `v=` or the end. */
  lemma LinkVideoIdSpec(link: string)
    requires Contains(link, "v=")
    ensures var t := After(link, "v=");
            var r := LinkVideoId(link);
            |r| <= |t| && t[..|r|] == r && (|r| < |t| ==> t[|r|] == '&' || StartsWith(t[|r|..], "v="))
  {
    PieceSpec(After(link, "v="), "v=", '&');
  }

  lemma PieceOfPrefix(t: string, piece: string, r: string, c: char)
    requires |piece| <= |t| && t[..|piece|] == piece
    requires |r| <= |piece| && piece[..|r|] == r && (|r| < |piece| ==> piece[|r|] == c)
    ensures |r| <= |t| && t[..|r|] == r && (|r| < |piece| ==> t[|r|] == c)
  {
    assert t[..|r|] == t[..|piece|][..|r|];
  }

  /** A video record as `fetch_recent_videos` builds it (the upload date string is left out). */
  datatype Video = Video(
    title: string, url: string, originalUrl: string, channel: string, channelUrl: string,
    published: int, description: string, videoId: string, isShort: bool)

  function VideoOf(e: Entry, c: Channel): (v: Video)
    ensures v.url == VideoLinks.Normalize(e.link) && v.originalUrl == e.link && v.published == e.published
    ensures v.channel == c.name && v.videoId == LinkVideoId(e.link) && v.isShort == IsShort(e)
  {
    Video(e.title, VideoLinks.Normalize(e.link), e.link, c.name, c.channelUrl, e.published,
          e.summary, LinkVideoId(e.link), IsShort(e))
  }

  /** An entry is kept when it is newer than the cutoff and not a Short that is being skipped. */
  predicate Keep(e: Entry, cutoff: int, skipShorts: bool) {
    e.published > cutoff && !(skipShorts && IsShort(e))
  }

  /** The videos one channel's entries give, in feed order. */
  function ChannelVideos(es: seq<Entry>, c: Channel, cutoff: int, skipShorts: bool): (vs: seq<Video>)
    ensures |vs| <= |es|
    decreases |es|
  {
    if |es| == 0 then []
    else
      var rest := ChannelVideos(es[1..], c, cutoff, skipShorts);
      if Keep(es[0], cutoff, skipShorts) then [VideoOf(es[0], c)] + rest else rest
  }

  /** Every kept entry gives its video, and every video comes from a kept entry. */
  lemma {:induction false} ChannelVideosMembers(es: seq<Entry>, c: Channel, cutoff: int, skipShorts: bool)
    ensures forall v :: v in ChannelVideos(es, c, cutoff, skipShorts) <==>
              exists e :: e in es && Keep(e, cutoff, skipShorts) && v == VideoOf(e, c)
    decreases |es|
  {
    if |es| > 0 {
      ChannelVideosMembers(es[1..], c, cutoff, skipShorts);
      assert forall e :: e in es <==> e == es[0] || e in es[1..];
    }
  }

  /** The videos of all readable feeds, channel by channel. */
  function Collect(cs: seq<Channel>, feed: string -> Option<seq<Entry>>, cutoff: int, skipShorts: bool)
    : seq<Video>
    decreases |cs|
  {
    if |cs| == 0 then []
    else
      var here := match feed(cs[0].rssUrl)
        case None => []
        case Some(es) => ChannelVideos(es, cs[0], cutoff, skipShorts);
      here + Collect(cs[1..], feed, cutoff, skipShorts)
  }

  // ---------------------------------------------------------------------------
  // Newest first
  // ---------------------------------------------------------------------------

  /** Descending by `published`. */
  predicate NewestFirst(vs: seq<Video>) {
    forall i, j :: 0 <= i < j < |vs| ==> vs[i].published >= vs[j].published
  }

  /** The videos published at time `t`, in order. */
  function At(vs: seq<Video>, t: int): (r: seq<Video>)
    decreases |vs|
  {
    if |vs| == 0 then [] else (if vs[0].published == t then [vs[0]] else []) + At(vs[1..], t)
  }

  /** Put `v` before the first video not newer than it: ties keep `v` first. */
  function Insert(v: Video, vs: seq<Video>): (r: seq<Video>)
    ensures |r| == |vs| + 1
    decreases |vs|
  {
    if |vs| == 0 then [v]
    else if vs[0].published > v.published then [vs[0]] + Insert(v, vs[1..])
    else [v] + vs
  }

  /** `list.sort(key=published, reverse=True)`, which is stable. */
  function SortNewestFirst(vs: seq<Video>): (r: seq<Video>)
    ensures |r| == |vs|
    decreases |vs|
  {
    if |vs| == 0 then [] else Insert(vs[0], SortNewestFirst(vs[1..]))
  }

  lemma {:induction false} InsertSorted(v: Video, vs: seq<Video>)
    requires NewestFirst(vs)
    ensures NewestFirst(Insert(v, vs))
    ensures |vs| > 0 ==> Insert(v, vs)[0] == (if vs[0].published > v.published then vs[0] else v)
    decreases |vs|
  {
    if |vs| > 0 && vs[0].published > v.published {
      InsertSorted(v, vs[1..]);
      var r := Insert(v, vs);
      assert r[1..] == Insert(v, vs[1..]);
    }
  }

  /** The videos at time `t` of a list with a given head. */
  lemma AtCons(x: Video, xs: seq<Video>, t: int)
    ensures At([x] + xs, t) == (if x.published == t then [x] else []) + At(xs, t)
  {
    assert ([x] + xs)[0] == x && ([x] + xs)[1..] == xs;
  }

  /** Two videos of different times can swap places without changing any `At`. */
  lemma AtSwap(u: Video, w: Video, rest: seq<Video>, t: int)
    requires u.published != w.published
    ensures (if u.published == t then [u] else []) + ((if w.published == t then [w] else []) + rest)
         == (if w.published == t then [w] else []) + ((if u.published == t then [u] else []) + rest)
  {
  }

  lemma {:induction false} InsertAt(v: Video, vs: seq<Video>, t: int)
    ensures At(Insert(v, vs), t) == (if v.published == t then [v] else []) + At(vs, t)
    decreases |vs|
  {
    if |vs| > 0 && vs[0].published > v.published {
      InsertAt(v, vs[1..], t);
      AtCons(vs[0], Insert(v, vs[1..]), t);
      AtCons(vs[0], vs[1..], t);
      assert [vs[0]] + vs[1..] == vs;
      AtSwap(vs[0], v, At(vs[1..], t), t);
    } else {
      AtCons(v, vs, t);
    }
  }

  /** The sorted list is newest first, and at every time it lists the same videos in the same order. */
  lemma {:induction false} SortSpec(vs: seq<Video>)
    ensures NewestFirst(SortNewestFirst(vs))
    ensures forall t :: At(SortNewestFirst(vs), t) == At(vs, t)
    decreases |vs|
  {
    if |vs| > 0 {
      SortSpec(vs[1..]);
      var s := SortNewestFirst(vs[1..]);
      InsertSorted(vs[0], s);
      forall t ensures At(SortNewestFirst(vs), t) == At(vs, t) {
        InsertAt(vs[0], s, t);
      }
    }
  }

  /** `fetch_recent_videos`: the kept videos of all channels, newest first. */
  function FetchRecent(cs: seq<Channel>, feed: string -> Option<seq<Entry>>, now: int, hours: int, skipShorts: bool)
    : seq<Video>
  {
    SortNewestFirst(Collect(cs, feed, now - hours * 3600, skipShorts))
  }

  // ---------------------------------------------------------------------------
  // Summary
  // ---------------------------------------------------------------------------

  function CountShorts(vs: seq<Video>, short: bool): (n: nat)
    ensures n <= |vs|
    decreases |vs|
  {
    if |vs| == 0 then 0 else (if vs[0].isShort == short then 1 else 0) + CountShorts(vs[1..], short)
  }

  /** `print_summary`'s regular count, `len(videos) - shorts_count`, is the number of videos that are not Shorts. */
  lemma {:induction false} RegularCount(vs: seq<Video>)
    ensures |vs| - CountShorts(vs, true) == CountShorts(vs, false)
    decreases |vs|
  {
    if |vs| > 0 {
      RegularCount(vs[1..]);
    }
  }
}
