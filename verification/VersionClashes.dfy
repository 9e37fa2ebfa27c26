/** Which saves leave the origin document with the same files as the new snapshot, up to the bytes: a
    version file may take the name of a file that is filled later, and then they differ. */
module VersionClashes {
  import opened Items
  import opened Snapshots
  import opened SnapshotRuns

  /** The configuration, the last snapshot's files, the files to overwrite and the clock of one save. */
  datatype Copying = Copying(cfg: Settings, source: seq<FileData>, list: seq<Value>, now: int)
  {
    predicate Filled(f: FileData) { f.content == [] && FindFile(source, f.name).Some? }

    predicate Protects(f: FileData) { IsProtected(cfg, source, f, list) }

    /** The version made for a protected file. */
    function Version(f: FileData): FileData
      requires Protects(f)
    {
      VersionFile(cfg, f.name, FindFile(source, f.name).value, now)
    }

    function Copy(c: Copied, files: seq<FileData>): Copied { CopyFiles(cfg, source, c, files, list, now) }
  }

  /** What one file adds under a name as a version, and what it writes there into the new snapshot,
      without the bytes. */
  function VersionOf(x: Copying, f: FileData, name: string): Option<FileData> {
    if x.Protects(f) && x.Version(f).name == name then Some(x.Version(f).Stripped()) else None
  }

  function WriteOf(x: Copying, f: FileData, name: string): Option<FileData> {
    Or(VersionOf(x, f, name), if x.Filled(f) && f.name == name then Some(f.Stripped()) else None)
  }

  /** The version made last under a name. */
  function LastVersion(x: Copying, files: seq<FileData>, name: string): Option<FileData> {
    if files == [] then None else
    Or(VersionOf(x, files[|files| - 1], name), LastVersion(x, files[..|files| - 1], name))
  }

  /** What was written last under a name into the new snapshot. */
  function LastWrite(x: Copying, files: seq<FileData>, name: string): Option<FileData> {
    if files == [] then None else
    Or(WriteOf(x, files[|files| - 1], name), LastWrite(x, files[..|files| - 1], name))
  }

  function Or(a: Option<FileData>, b: Option<FileData>): Option<FileData> { if a.Some? then a else b }

  /** No filled file takes back a name that a version of an earlier file has taken, unless a version of a
      later file takes it again or the two entries are alike. */
  ghost predicate Intact(x: Copying, files: seq<FileData>) {
    forall i :: 0 <= i < |files| && x.Filled(files[i]) ==> IntactAt(x, files, i)
  }

  ghost predicate IntactAt(x: Copying, files: seq<FileData>, i: nat)
    requires i < |files|
  {
    var earlier := LastVersion(x, files[..i], files[i].name);
    earlier.None? || earlier == Some(files[i].Stripped()) || LastVersion(x, files[i + 1..], files[i].name).Some?
  }

  // ---- stripped lists ----

  lemma StripAdd(files: seq<FileData>, f: FileData)
    ensures StripFiles(AddFile(files, f)) == AddFile(StripFiles(files), f.Stripped())
  {
    var i, s := IndexOf(files, f.name), StripFiles(files);
    IndexUnique(s, f.name, i);
  }

  lemma {:induction false} StripFind(files: seq<FileData>, name: string)
    ensures FindFile(StripFiles(files), name)
            == if FindFile(files, name).Some? then Some(FindFile(files, name).value.Stripped()) else None
  {
    IndexUnique(StripFiles(files), name, IndexOf(files, name));
  }

  ghost predicate SameNames(a: seq<FileData>, b: seq<FileData>) {
    |a| == |b| && forall i :: 0 <= i < |a| ==> a[i].name == b[i].name
  }

  lemma AddSameNames(a: seq<FileData>, b: seq<FileData>, f: FileData, g: FileData)
    requires SameNames(a, b) && f.name == g.name
    ensures SameNames(AddFile(a, f), AddFile(b, g))
  {
    IndexUnique(b, f.name, IndexOf(a, f.name));
  }

  lemma AddKnownName(a: seq<FileData>, b: seq<FileData>, f: FileData)
    requires SameNames(a, b) && FindFile(a, f.name).Some?
    ensures SameNames(AddFile(a, f), b)
  {
  }

  /** Lists of the same unique names are equal exactly if every name leads to the same entry. */
  lemma SameEntries(a: seq<FileData>, b: seq<FileData>)
    requires SameNames(a, b) && UniqueNames(a)
    ensures a == b <==> forall n :: FindFile(a, n) == FindFile(b, n)
  {
    assert UniqueNames(b);
    if forall n :: FindFile(a, n) == FindFile(b, n) {
      forall i | 0 <= i < |a| ensures a[i] == b[i] {
        FindUnique(a, i);
        FindUnique(b, i);
      }
      assert a == b;
    }
  }

  // ---- what the copying writes ----

  lemma {:induction false} CopySnoc(x: Copying, c: Copied, files: seq<FileData>, f: FileData)
    ensures x.Copy(c, files + [f]) == CopyFile(x.cfg, x.source, x.Copy(c, files), f, x.list, x.now)
    decreases |files|
  {
    if files == [] {
      assert files + [f] == [f] && [f][1..] == [];
      var c' := CopyFile(x.cfg, x.source, c, f, x.list, x.now);
      assert x.Copy(c, [f]) == x.Copy(c', []) == c';
    } else {
      assert (files + [f])[1..] == files[1..] + [f];
      CopySnoc(x, CopyFile(x.cfg, x.source, c, files[0], x.list, x.now), files[1..], f);
    }
  }

  /** Both lists keep the same unique names, and those of all files. */
  ghost predicate Shaped(files: seq<FileData>, c: Copied) {
    && SameNames(c.target, c.origin) && UniqueNames(c.target)
    && (forall f :: f in files ==> FindFile(c.target, f.name).Some?)
  }

  lemma CopyShapes(x: Copying, files: seq<FileData>, c: Copied, f: FileData)
    requires f in files && Shaped(files, c)
    ensures Shaped(files, CopyFile(x.cfg, x.source, c, f, x.list, x.now))
  {
    if x.Protects(f) {
      AddSameNames(c.target, c.origin, x.Version(f), x.Version(f).Stripped());
    } else if x.Filled(f) {
      AddKnownName(c.target, c.origin, f.(content := FindFile(x.source, f.name).value.content));
    }
  }

  /** A name leads to what was written last under it. */
  ghost predicate Written(x: Copying, files: seq<FileData>, n: nat, c: Copied, m: string)
    requires n <= |files|
  {
    && FindFile(StripFiles(c.target), m) == Or(LastWrite(x, files[..n], m), FindFile(StripFiles(files), m))
    && FindFile(StripFiles(c.origin), m) == Or(LastVersion(x, files[..n], m), FindFile(StripFiles(files), m))
  }

  lemma CopyOneWrites(x: Copying, files: seq<FileData>, n: nat, c: Copied, m: string)
    requires n < |files| && Written(x, files, n, c, m)
    ensures Written(x, files, n + 1, CopyFile(x.cfg, x.source, c, files[n], x.list, x.now), m)
  {
    LastOfNext(x, files, n, m);
    FileWrites(x, c, files[n], m);
  }

  lemma FileWrites(x: Copying, c: Copied, f: FileData, m: string)
    ensures var c' := CopyFile(x.cfg, x.source, c, f, x.list, x.now);
            && FindFile(StripFiles(c'.target), m) == Or(WriteOf(x, f, m), FindFile(StripFiles(c.target), m))
            && FindFile(StripFiles(c'.origin), m) == Or(VersionOf(x, f, m), FindFile(StripFiles(c.origin), m))
  {
    if x.Protects(f) {
      StripAdd(c.target, x.Version(f));
      StripAdd(c.origin, x.Version(f).Stripped());
    } else if x.Filled(f) {
      StripAdd(c.target, f.(content := FindFile(x.source, f.name).value.content));
    }
  }

  lemma LastOfNext(x: Copying, files: seq<FileData>, n: nat, m: string)
    requires n < |files|
    ensures LastWrite(x, files[..n + 1], m) == Or(WriteOf(x, files[n], m), LastWrite(x, files[..n], m))
    ensures LastVersion(x, files[..n + 1], m) == Or(VersionOf(x, files[n], m), LastVersion(x, files[..n], m))
  {
    assert files[..n + 1][..n] == files[..n];
  }

  lemma {:induction false} CopyShape(x: Copying, files: seq<FileData>, n: nat)
    requires UniqueNames(files) && n <= |files|
    ensures Shaped(files, x.Copy(Copied(files, files), files[..n]))
  {
    if n == 0 {
      forall f | f in files ensures FindFile(files, f.name).Some? { FindMember(files, f); }
    } else {
      CopyShape(x, files, n - 1);
      assert files[..n] == files[..n - 1] + [files[n - 1]];
      CopySnoc(x, Copied(files, files), files[..n - 1], files[n - 1]);
      CopyShapes(x, files, x.Copy(Copied(files, files), files[..n - 1]), files[n - 1]);
    }
  }

  lemma {:induction false} CopyWrites(x: Copying, files: seq<FileData>, n: nat, m: string)
    requires n <= |files|
    ensures Written(x, files, n, x.Copy(Copied(files, files), files[..n]), m)
  {
    if n > 0 {
      CopyWrites(x, files, n - 1, m);
      assert files[..n] == files[..n - 1] + [files[n - 1]];
      CopySnoc(x, Copied(files, files), files[..n - 1], files[n - 1]);
      CopyOneWrites(x, files, n - 1, x.Copy(Copied(files, files), files[..n - 1]), m);
    }
  }

  // ---- when the last writes agree ----

  lemma {:induction false} VersionsAppend(x: Copying, a: seq<FileData>, b: seq<FileData>, n: string)
    ensures LastVersion(x, a + b, n) == Or(LastVersion(x, b, n), LastVersion(x, a, n))
    decreases |b|
  {
    if b == [] {
      assert a + b == a;
    } else {
      assert (a + b)[..|a + b| - 1] == a + b[..|b| - 1];
      VersionsAppend(x, a, b[..|b| - 1], n);
    }
  }

  lemma {:induction false} WritesAppend(x: Copying, a: seq<FileData>, b: seq<FileData>, n: string)
    ensures LastWrite(x, a + b, n) == Or(LastWrite(x, b, n), LastWrite(x, a, n))
    decreases |b|
  {
    if b == [] {
      assert a + b == a;
    } else {
      assert (a + b)[..|a + b| - 1] == a + b[..|b| - 1];
      WritesAppend(x, a, b[..|b| - 1], n);
    }
  }

  lemma {:induction false} OnlyVersions(x: Copying, files: seq<FileData>, n: string)
    requires forall i :: 0 <= i < |files| ==> !(x.Filled(files[i]) && files[i].name == n)
    ensures LastWrite(x, files, n) == LastVersion(x, files, n)
  {
    if files != [] { OnlyVersions(x, files[..|files| - 1], n); }
  }

  /** Under the name of a filled file the two lists agree exactly if the file is intact. */
  lemma FilledAgrees(x: Copying, files: seq<FileData>, i: nat)
    requires UniqueNames(files) && i < |files| && x.Filled(files[i])
    ensures var n, start := files[i].name, FindFile(StripFiles(files), files[i].name);
            Or(LastWrite(x, files, n), start) == Or(LastVersion(x, files, n), start) <==> IntactAt(x, files, i)
  {
    var f, a, b := files[i], files[..i], files[i + 1..];
    assert files == (a + [f]) + b;
    OnlyVersions(x, b, f.name);
    WritesAppend(x, a + [f], b, f.name);
    VersionsAppend(x, a + [f], b, f.name);
    assert (a + [f])[..|a|] == a;
    FindUnique(files, i);
    StripFind(files, f.name);
  }

  /** The origin document and the new snapshot have the same files, up to the bytes, exactly if every filled
      file is intact. */
  lemma FilesAgreeExactly(x: Copying, files: seq<FileData>)
    requires UniqueNames(files)
    ensures var c := x.Copy(Copied(files, files), files);
            StripFiles(c.target) == StripFiles(c.origin) <==> Intact(x, files)
  {
    var c := x.Copy(Copied(files, files), files);
    assert files[..|files|] == files;
    CopyShape(x, files, |files|);
    SameEntries(StripFiles(c.target), StripFiles(c.origin));
    if Intact(x, files) {
      forall n ensures FindFile(StripFiles(c.target), n) == FindFile(StripFiles(c.origin), n) {
        CopyWrites(x, files, |files|, n);
        IntactEntries(x, files, n);
      }
    } else {
      var i: nat :| i < |files| && x.Filled(files[i]) && !IntactAt(x, files, i);
      CopyWrites(x, files, |files|, files[i].name);
      FilledAgrees(x, files, i);
      assert FindFile(StripFiles(c.target), files[i].name) != FindFile(StripFiles(c.origin), files[i].name);
    }
  }

  lemma IntactEntries(x: Copying, files: seq<FileData>, n: string)
    requires UniqueNames(files) && Intact(x, files)
    ensures var start := FindFile(StripFiles(files), n);
            Or(LastWrite(x, files, n), start) == Or(LastVersion(x, files, n), start)
  {
    if i: nat :| i < |files| && x.Filled(files[i]) && files[i].name == n {
      FilledAgrees(x, files, i);
    } else {
      OnlyVersions(x, files, n);
    }
  }

  lemma {:induction false} LastVersionFrom(x: Copying, files: seq<FileData>, n: string)
    ensures LastVersion(x, files, n).Some? ==>
              exists w :: w in Versions(x.cfg, x.source, files, x.list, x.now) && w.name == n
  {
    if files != [] { LastVersionFrom(x, files[..|files| - 1], n); }
  }

  /** If no version name is taken at all, every file is intact. */
  lemma NoClashIsIntact(x: Copying, files: seq<FileData>)
    requires NoClash(x.cfg, x.source, files, x.list, x.now)
    ensures Intact(x, files)
  {
    var versions := Versions(x.cfg, x.source, files, x.list, x.now);
    forall i | 0 <= i < |files| && x.Filled(files[i]) ensures IntactAt(x, files, i) {
      VersionsGrow(x.cfg, x.source, files, x.list, x.now, i);
      LastVersionFrom(x, files[..i], files[i].name);
      forall j | 0 <= j < |versions| ensures versions[j].name != files[i].name {
        assert (files + versions)[i].name != (files + versions)[|files| + j].name;
      }
      assert forall w :: w in versions ==> w.name != files[i].name;
    }
  }

  /** An uploaded file whose version takes the name of a listed file without bytes: the new snapshot keeps
      that file's entry, the origin document the version's. */
  lemma TakenNameDiffers(x: Copying, f: FileData, g: FileData)
    requires x.Protects(f) && x.Filled(g) && f.name != g.name
    requires x.Version(f).name == g.name && x.Version(f).Stripped() != g.Stripped()
    ensures var c := x.Copy(Copied([f, g], [f, g]), [f, g]); StripFiles(c.target) != StripFiles(c.origin)
  {
    var files := [f, g];
    assert files[..1][..0] == [] && files[2..] == [];
    assert LastVersion(x, files[..1], g.name) == Some(x.Version(f).Stripped());
    assert x.Filled(files[1]) && !IntactAt(x, files, 1);
    FilesAgreeExactly(x, files);
  }

  /** The version itself is then overwritten by that file: the previous content of the uploaded file is in
      the new snapshot no more, unless one of the two files holds the same bytes. */
  lemma TakenNameLosesContent(x: Copying, f: FileData, g: FileData)
    requires x.Protects(f) && x.Filled(g) && f.name != g.name && x.Version(f).name == g.name
    ensures var c := x.Copy(Copied([f, g], [f, g]), [f, g]);
            forall h :: h in c.target ==>
              h.content == f.content || h.content == FindFile(x.source, g.name).value.content
  {
    var filled := g.(content := FindFile(x.source, g.name).value.content);
    var once := CopyFile(x.cfg, x.source, Copied([f, g], [f, g]), f, x.list, x.now);
    IndexUnique([f, g], g.name, 1);
    assert once.target == [f, x.Version(f)];
    IndexUnique(once.target, g.name, 1);
    assert [f, g][1..] == [g] && [g][1..] == [];
    assert x.Copy(Copied([f, g], [f, g]), [f, g]) == x.Copy(once, [g]);
    var twice := CopyFile(x.cfg, x.source, once, g, x.list, x.now);
    assert x.Copy(once, [g]) == x.Copy(twice, []) == twice;
    assert twice.target == [f, filled];
  }
}
