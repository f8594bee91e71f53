/**
 * The small regular-expression searches of the URL helpers, written as
 * explicit scans: `re.search` tries start positions left to right, a greedy
 * `.*` backtracks from the right, and a class group such as `[^&\s]+` takes
 * the longest run of characters outside its stop set.
 */
module Scan {
  import opened Wrappers
  import opened Text

  /** The canonical YouTube watch link is this prefix followed by the video ID. */
  const WatchPrefix: string := "https://www.youtube.com/watch?v="

  /** The leftmost `j` in `from..n` with `hit(j)`, the order in which `re.search` tries start positions. */
  function Leftmost(from: nat, n: nat, hit: nat -> bool): (r: Option<nat>)
    ensures r.Some? ==> from <= r.value <= n && hit(r.value)
    ensures r.Some? ==> forall j :: from <= j < r.value ==> !hit(j)
    ensures r.None? ==> forall j :: from <= j <= n ==> !hit(j)
    decreases n + 1 - from
  {
    if from > n then None else if hit(from) then Some(from) else Leftmost(from + 1, n, hit)
  }

  /** A hit with no hit before it is what the scan finds. */
  lemma LeftmostIs(from: nat, n: nat, hit: nat -> bool, j: nat)
    requires from <= j <= n && hit(j)
    requires forall i :: from <= i < j ==> !hit(i)
    ensures Leftmost(from, n, hit) == Some(j)
  {
  }

  /** The rightmost `k` in `lo..hi` with `hit(k)`, the order in which a greedy `.*` gives characters back. */
  function Rightmost(lo: nat, hi: nat, hit: nat -> bool): (r: Option<nat>)
    ensures r.Some? ==> lo <= r.value <= hi && hit(r.value)
    ensures r.Some? ==> forall k :: r.value < k <= hi ==> !hit(k)
    ensures r.None? ==> forall k :: lo <= k <= hi ==> !hit(k)
    decreases hi
  {
    if hi < lo then None
    else if hit(hi) then Some(hi)
    else if hi == 0 then None
    else Rightmost(lo, hi - 1, hit)
  }

  /** Length of the longest prefix of `s` free of `stop` characters. */
  function Run(s: string, stop: char -> bool): (k: nat)
    ensures k <= |s|
    ensures forall i :: 0 <= i < k ==> !stop(s[i])
    ensures k < |s| ==> stop(s[k])
    decreases |s|
  {
    if |s| == 0 || stop(s[0]) then 0 else 1 + Run(s[1..], stop)
  }

  /** `p` occurs at `j` and is followed by at least one character outside `stop`: `p([^stop]+)` matches at `j`. */
  predicate RunAt(s: string, j: nat, p: string, stop: char -> bool) {
    j + |p| < |s| && s[j..j + |p|] == p && !stop(s[j + |p|])
  }

  /** The group of `re.search(p + '([^stop]+)', s)`, or `None` when it finds nothing. */
  function SearchRun(s: string, p: string, stop: char -> bool): (r: Option<string>)
    ensures r.Some? ==> |r.value| > 0 && forall i :: 0 <= i < |r.value| ==> !stop(r.value[i])
  {
    match Leftmost(0, |s|, (j: nat) => RunAt(s, j, p, stop))
    case None => None
    case Some(j) =>
      var rest := s[j + |p|..];
      Some(rest[..Run(rest, stop)])
  }

  /** A string that starts with `p` and continues with a maximal run `g`: the search finds `g`. */
  lemma HeadRun(p: string, g: string, tail: string, stop: char -> bool)
    requires |g| > 0 && forall i :: 0 <= i < |g| ==> !stop(g[i])
    requires |tail| > 0 ==> stop(tail[0])
    ensures SearchRun(p + g + tail, p, stop) == Some(g)
  {
    var s := p + g + tail;
    assert s[..|p|] == p && s[|p|] == g[0];
    assert RunAt(s, 0, p, stop);
    var rest := s[|p|..];
    assert rest == g + tail;
    var k := Run(rest, stop);
    assert forall i :: 0 <= i < |g| ==> rest[i] == g[i];
    if |tail| > 0 { assert rest[|g|] == tail[0]; }
    assert k == |g|;
    assert rest[..k] == g;
  }
}
