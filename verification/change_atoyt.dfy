/**
 * `convert_archive_to_youtube`: an archive.org `.ogg` download link becomes
 * the YouTube watch link of the video, undoing the item renaming of
 * `convert_youtube_to_archive` where it can.  The round trip through both
 * conversions gives the original link back exactly for the IDs that the
 * renaming does not make ambiguous.
 */
module ArchiveToYt {
  import opened Wrappers
  import opened Text
  import opened Scan
  import opened YtToArchive

  /** The ID an item name stands for: `a__X` is `-X`, `a_X` is `_X`, anything else is itself. */
  function IdOfFolder(folder: string): (id: string)
    ensures StartsWith(folder, "a_") ==> |id| > 0 && (id[0] == '-' || id[0] == '_')
  {
    if StartsWith(folder, "a_") then
      if StartsWith(folder, "a__") then "-" + folder[3..] else "_" + folder[2..]
    else folder
  }

  /** `[^/]+\.ogg` matches at the start of `rest`: its `/`-free first segment holds `.ogg` after one character or more. */
  predicate OggSegment(rest: string) {
    var seg := rest[..IndexOfChar(rest, '/')];
    |seg| > 0 && Contains(seg[1..], ".ogg")
  }

  /**
   * `convert_archive_to_youtube`: `None` unless the stripped link starts with
   * the download prefix, a non-empty item name, `/` and a segment holding
   * `.ogg`; else the watch link of the item's ID.
   */
  function ToYoutube(url: string): (r: Option<string>)
    ensures r.Some? ==> StartsWith(r.value, WatchPrefix)
  {
    var s := Strip(url);
    if StartsWith(s, ArchivePrefix) then FromPath(s[|ArchivePrefix|..]) else None
  }

  /** The part after the download prefix: item name, `/`, file segment. */
  function FromPath(rest: string): (r: Option<string>)
    ensures r.Some? ==> StartsWith(r.value, WatchPrefix)
  {
    var f := IndexOfChar(rest, '/');
    if f == 0 || f == |rest| || !OggSegment(rest[f + 1..]) then None
    else Some(WatchPrefix + IdOfFolder(rest[..f]))
  }

  lemma {:induction false} ContainsSuffix(a: string, t: string)
    ensures Contains(a + t, t)
    decreases |a|
  {
    if |a| == 0 {
      assert (a + t)[..|t|] == t;
    } else {
      assert (a + t)[1..] == a[1..] + t;
      ContainsSuffix(a[1..], t);
    }
  }

  /** An item name without `/`, then `/` and a file segment: the path splits at that `/`. */
  lemma FromPathOf(folder: string, file: string)
    requires |folder| > 0 && !HasChar(folder, '/')
    ensures FromPath(folder + "/" + file)
         == if OggSegment(file) then Some(WatchPrefix + IdOfFolder(folder)) else None
  {
    var rest := folder + "/" + file;
    assert rest[|folder|] == '/';
    assert forall j :: 0 <= j < |folder| ==> rest[j] == folder[j];
    assert IndexOfChar(rest, '/') == |folder|;
    assert rest[..|folder|] == folder && rest[|folder| + 1..] == file;
  }

  /** A link that starts with the download prefix and ends in a non-space converts by its path. */
  lemma ToYoutubeOfPath(path: string)
    requires |path| > 0 && !IsSpace(path[|path| - 1])
    ensures ToYoutube(ArchivePrefix + path) == FromPath(path)
  {
    var s := ArchivePrefix + path;
    assert s[0] == 'h' && s[|s| - 1] == path[|path| - 1];
    StripOfStripped(s);
    assert s[..|ArchivePrefix|] == ArchivePrefix && s[|ArchivePrefix|..] == path;
  }

  /**
   * A link made of the download prefix, an item name without `/` and a file
   * segment converts to the watch link of the item's ID exactly when the
   * segment holds `.ogg`: the file segment takes no other part.
   */
  lemma ToYoutubeOf(folder: string, file: string)
    requires |folder| > 0 && !HasChar(folder, '/')
    requires |file| > 0 && !IsSpace(file[|file| - 1])
    ensures ToYoutube(ArchivePrefix + folder + "/" + file)
         == if OggSegment(file) then Some(WatchPrefix + IdOfFolder(folder)) else None
  {
    var path := folder + "/" + file;
    assert path[|path| - 1] == file[|file| - 1];
    assert ArchivePrefix + folder + "/" + file == ArchivePrefix + path;
    ToYoutubeOfPath(path);
    FromPathOf(folder, file);
  }

  lemma UnderscoredNoSlash(id: string)
    requires !HasChar(id, '/')
    ensures !HasChar(Underscored(id), '/')
  {
  }

  lemma ValidNoSlash(id: string)
    requires ValidId(id)
    ensures !HasChar(id, '/')
  {
  }

  /** The item name of a valid ID is non-empty and holds no `/`. */
  lemma FolderParts(id: string)
    requires ValidId(id)
    ensures |Folder(id)| > 0 && !HasChar(Folder(id), '/')
  {
    ValidNoSlash(id);
    UnderscoredNoSlash(id);
    HasCharAppend("a_", Underscored(id), '/');
    HasCharAppend("a", id, '/');
  }

  /** The file name of a valid ID ends in `g` and is a segment holding `.ogg`. */
  lemma FileParts(id: string)
    requires ValidId(id)
    ensures |FileName(id)| > 0 && !IsSpace(FileName(id)[|FileName(id)| - 1])
    ensures OggSegment(FileName(id))
  {
    ValidNoSlash(id);
    UnderscoredNoSlash(id);
    var x := if StartsWith(id, "-") then Underscored(id) else id;
    var file := FileName(id);
    assert file == x + ".ogg";
    OggFile(x);
  }

  lemma OggFile(x: string)
    requires |x| > 0 && !HasChar(x, '/')
    ensures |x + ".ogg"| > 0 && (x + ".ogg")[|x| + 3] == 'g'
    ensures OggSegment(x + ".ogg")
  {
    var file := x + ".ogg";
    HasCharAppend(x, ".ogg", '/');
    assert IndexOfChar(file, '/') == |file|;
    assert file[..|file|] == file;
    assert file[1..] == x[1..] + ".ogg";
    ContainsSuffix(x[1..], ".ogg");
  }

  /** The archive link of a valid ID converts back to the watch link of the ID its item name stands for. */
  lemma ArchiveUrlBack(id: string)
    requires ValidId(id)
    ensures ToYoutube(ArchiveUrl(id)) == Some(WatchPrefix + IdOfFolder(Folder(id)))
  {
    FolderParts(id);
    FileParts(id);
    ToYoutubeOf(Folder(id), FileName(id));
  }

  /**
   * The renaming cannot be undone for an ID that starts with `a_` or `__`,
   * nor for one that starts with `-` and holds another `-`.
   */
  predicate RoundTrips(id: string) {
    !StartsWith(id, "a_") && !StartsWith(id, "__") && (StartsWith(id, "-") ==> !HasChar(id[1..], '-'))
  }

  lemma DashRoundTrip(id: string)
    requires |id| > 0 && id[0] == '-'
    ensures IdOfFolder(Folder(id)) == id <==> !HasChar(id[1..], '-')
  {
    var u := Underscored(id);
    var f := Folder(id);
    assert f == "a_" + u && u[0] == '_';
    assert StartsWith(f, "a__");
    assert f[3..] == u[1..];
    var back := IdOfFolder(f);
    assert back == "-" + u[1..];
    if HasChar(id[1..], '-') {
      var i :| 0 <= i < |id[1..]| && id[1..][i] == '-';
      assert back[i + 1] == '_' && id[i + 1] == '-';
    } else {
      forall i | 0 < i < |id| ensures back[i] == id[i] {
        assert id[1..][i - 1] == id[i];
      }
    }
  }

  lemma UnderRoundTrip(id: string)
    requires |id| > 0 && id[0] == '_'
    ensures IdOfFolder(Folder(id)) == id <==> !StartsWith(id, "__")
  {
    var f := Folder(id);
    assert f == "a" + id;
    if StartsWith(id, "__") {
      assert f[..3] == "a" + id[..2];
      assert IdOfFolder(f)[0] == '-';
    } else {
      if |id| >= 2 {
        assert id[..2] == [id[0], id[1]];
        assert f[2] == id[1] != '_';
        assert f[..3][2] == f[2];
      }
      assert f[..2] == "a_";
      assert f[2..] == id[1..];
      assert IdOfFolder(f) == "_" + id[1..];
      assert id == [id[0]] + id[1..];
    }
  }

  lemma PlainRoundTrip(id: string)
    requires |id| > 0 && id[0] != '-' && id[0] != '_'
    ensures IdOfFolder(Folder(id)) == id <==> !StartsWith(id, "a_")
  {
    assert Folder(id) == id;
    if StartsWith(id, "a_") {
      var back := IdOfFolder(id);
      assert back[0] == '-' || back[0] == '_';
    }
  }

  /** Converting an ID's item name back gives the ID exactly when the ID round-trips. */
  lemma FolderRoundTrip(id: string)
    requires |id| > 0
    ensures IdOfFolder(Folder(id)) == id <==> RoundTrips(id)
  {
    if id[0] == '-' {
      DashRoundTrip(id);
    } else if id[0] == '_' {
      UnderRoundTrip(id);
    } else {
      PlainRoundTrip(id);
    }
  }

  lemma WatchInjective(a: string, b: string)
    ensures WatchPrefix + a == WatchPrefix + b <==> a == b
  {
    if WatchPrefix + a == WatchPrefix + b {
      assert (WatchPrefix + a)[|WatchPrefix|..] == a;
      assert (WatchPrefix + b)[|WatchPrefix|..] == b;
    }
  }

  /**
   * YouTube to archive.org and back gives the watch link of a valid ID back
   * exactly when the ID round-trips.
   */
  lemma RoundTrip(id: string)
    requires ValidId(id)
    ensures ToArchive(WatchPrefix + id) == Some(ArchiveUrl(id))
    ensures ToYoutube(ArchiveUrl(id)) == Some(WatchPrefix + id) <==> RoundTrips(id)
  {
    WatchForm(id);
    ArchiveUrlBack(id);
    FolderRoundTrip(id);
    WatchInjective(IdOfFolder(Folder(id)), id);
  }
}
