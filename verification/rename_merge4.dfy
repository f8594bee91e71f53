/**
 * `rename_merge4_files`: every listed `*.merge4.srt` file whose name starts
 * with `-` is renamed to `__` followed by the rest of the name, so that the
 * name no longer looks like a command-line option.  The directory listing is
 * a parameter, and whether `os.rename` succeeds for a name is a predicate.
 */
module DashRename {
  import opened Text

  const Suffix: string := ".merge4.srt"

  /** `glob('*.merge4.srt')` lists the name: `*` does not match a leading `.`. */
  predicate Listed(name: string) {
    EndsWith(name, Suffix) && !StartsWith(name, ".")
  }

  /** The name needs renaming. */
  predicate Dashed(name: string) {
    Listed(name) && StartsWith(name, "-")
  }

  /** `"__" + filename[1:]`. */
  function Renamed(name: string): (r: string)
    requires |name| > 0
    ensures |r| == |name| + 1
  {
    "__" + name[1..]
  }

  /** A renamed file is still listed and no longer needs renaming. */
  lemma RenamedListed(name: string)
    requires Dashed(name)
    ensures Listed(Renamed(name)) && !Dashed(Renamed(name))
  {
    var r := Renamed(name);
    assert r[|r| - |Suffix|..] == name[|name| - |Suffix|..];
  }

  /** What one name becomes: renamed when it needs it and the rename succeeds. */
  function After(name: string, moved: string -> bool): string {
    if Dashed(name) && moved(name) then Renamed(name) else name
  }

  datatype Run = Run(after: seq<string>, count: nat)

  /** The loop over the listing: the names afterwards and the number of successful renames. */
  function RenameRun(names: seq<string>, moved: string -> bool): (r: Run)
    ensures |r.after| == |names|
    ensures r.count <= |names|
    decreases |names|
  {
    if |names| == 0 then Run([], 0)
    else
      var rest := RenameRun(names[1..], moved);
      var n := names[0];
      if Dashed(n) && moved(n) then Run([Renamed(n)] + rest.after, rest.count + 1)
      else Run([n] + rest.after, rest.count)
  }

  /** Each name ends up as `After` says, independently of the other names. */
  lemma {:induction false} RunPointwise(names: seq<string>, moved: string -> bool)
    ensures forall i :: 0 <= i < |names| ==> RenameRun(names, moved).after[i] == After(names[i], moved)
    decreases |names|
  {
    if |names| > 0 {
      RunPointwise(names[1..], moved);
      var r := RenameRun(names, moved);
      forall i | 0 < i < |names| ensures r.after[i] == After(names[i], moved) {
        assert names[1..][i - 1] == names[i];
      }
    }
  }

  /** Number of positions at which two equally long listings differ. */
  function Changes(a: seq<string>, b: seq<string>): (n: nat)
    requires |a| == |b|
    ensures n <= |a|
    decreases |a|
  {
    if |a| == 0 then 0 else (if a[0] != b[0] then 1 else 0) + Changes(a[1..], b[1..])
  }

  /** The reported count is the number of names that changed, i.e. the number of successful renames. */
  lemma {:induction false} CountIsChanges(names: seq<string>, moved: string -> bool)
    ensures RenameRun(names, moved).count == Changes(names, RenameRun(names, moved).after)
    decreases |names|
  {
    if |names| > 0 {
      CountIsChanges(names[1..], moved);
      var r := RenameRun(names, moved);
      var rest := RenameRun(names[1..], moved);
      assert r.after[1..] == rest.after;
      if Dashed(names[0]) {
        assert Renamed(names[0])[0] == '_' != names[0][0];
      }
    }
  }

  /** After a run no listed name starts with `-` unless its rename failed. */
  lemma NoDashLeft(names: seq<string>, moved: string -> bool)
    ensures forall i :: 0 <= i < |names| && Dashed(RenameRun(names, moved).after[i]) ==>
              Dashed(names[i]) && !moved(names[i])
  {
    RunPointwise(names, moved);
    forall i | 0 <= i < |names| && Dashed(names[i]) && moved(names[i])
      ensures !Dashed(RenameRun(names, moved).after[i])
    {
      RenamedListed(names[i]);
    }
  }

  /** A listing with no name that needs renaming is left as it is. */
  lemma {:induction false} IdleRun(names: seq<string>, moved: string -> bool)
    requires forall i :: 0 <= i < |names| ==> !Dashed(names[i])
    ensures RenameRun(names, moved) == Run(names, 0)
    decreases |names|
  {
    if |names| > 0 {
      assert !Dashed(names[0]);
      IdleRun(names[1..], moved);
      assert names == [names[0]] + names[1..];
    }
  }

  /** When every rename succeeds, running again renames nothing and changes nothing. */
  lemma SecondRunIdle(names: seq<string>, moved: string -> bool, again: string -> bool)
    requires forall i :: 0 <= i < |names| ==> moved(names[i])
    ensures var first := RenameRun(names, moved).after;
            RenameRun(first, again) == Run(first, 0)
  {
    NoDashLeft(names, moved);
    IdleRun(RenameRun(names, moved).after, again);
  }
}
