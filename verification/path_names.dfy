/**
 * The file-name helpers the scripts lean on, on POSIX paths: `str.rfind`,
 * `os.path.splitext`, and `pathlib`'s `name` and `stem`.
 */
module PathNames {
  import opened Text

  /** Python's `s.rfind(c)`: the last position of `c`, or -1. */
  function RFind(s: string, c: char): (r: int)
    ensures -1 <= r < |s|
    ensures r >= 0 ==> s[r] == c
    ensures forall j :: r < j < |s| ==> s[j] != c
    decreases |s|
  {
    if |s| == 0 then -1 else if s[|s| - 1] == c then |s| - 1 else RFind(s[..|s| - 1], c)
  }

  /** Some character of `p[lo..hi]` is not a dot. */
  predicate NonDotIn(p: string, lo: int, hi: int)
    requires 0 <= lo && hi <= |p|
  {
    exists j :: lo <= j < hi && p[j] != '.'
  }

  /**
   * `os.path.splitext` on a POSIX path: the extension starts at the last dot
   * of the last path component, unless only dots precede it there.
   */
  function SplitExt(p: string): (r: (string, string))
    ensures r.0 + r.1 == p
  {
    var sep := RFind(p, '/');
    var dot := RFind(p, '.');
    if dot > sep && NonDotIn(p, sep + 1, dot) then (p[..dot], p[dot..]) else (p, "")
  }

  /** `PurePath(p).name`: the last path component. */
  function Name(p: string): (r: string)
    ensures !HasChar(r, '/')
  {
    var k := RFind(p, '/') + 1;
    assert forall j :: 0 <= j < |p| - k ==> p[k..][j] == p[k + j];
    p[k..]
  }

  /** `PurePath.stem` of a name: the name without its suffix, which needs a dot neither first nor last. */
  function Stem(name: string): (r: string)
    ensures |r| <= |name| && name[..|r|] == r
  {
    var i := RFind(name, '.');
    if 0 < i < |name| - 1 then name[..i] else name
  }

  /** A string with no `/` is its own last component. */
  lemma NameOfPlain(p: string)
    requires !HasChar(p, '/')
    ensures Name(p) == p
  {
    assert RFind(p, '/') == -1;
  }

  /** A name without a dot is its own stem. */
  lemma StemOfPlain(name: string)
    requires !HasChar(name, '.')
    ensures Stem(name) == name
  {
    assert RFind(name, '.') == -1;
  }

  /** The stem of `base.ext`, for a non-empty base and a non-empty extension without dots, is `base`. */
  lemma StemOfExt(base: string, ext: string)
    requires |base| > 0 && |ext| > 0 && !HasChar(ext, '.')
    ensures Stem(base + "." + ext) == base
  {
    var name := base + "." + ext;
    assert name[|base|] == '.';
    assert forall j :: |base| < j < |name| ==> name[j] == ext[j - |base| - 1];
    assert RFind(name, '.') == |base|;
    assert name[..|base|] == base;
  }

  /** `splitext` of `base.ext`, for a base holding no `/` and no dot and an extension holding neither: `(base, .ext)`. */
  lemma SplitExtOf(base: string, ext: string)
    requires |base| > 0 && !HasChar(base, '/') && !HasChar(base, '.')
    requires !HasChar(ext, '/') && !HasChar(ext, '.')
    ensures SplitExt(base + "." + ext) == (base, "." + ext)
  {
    var p := base + "." + ext;
    assert p[|base|] == '.';
    assert forall j :: 0 <= j < |base| ==> p[j] == base[j];
    assert forall j :: |base| < j < |p| ==> p[j] == ext[j - |base| - 1];
    assert RFind(p, '.') == |base|;
    assert RFind(p, '/') == -1;
    assert p[0] == base[0] != '.';
    assert p[..|base|] == base && p[|base|..] == "." + ext;
  }
}
