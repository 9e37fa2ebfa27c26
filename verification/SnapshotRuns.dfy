/** What repeated edits and saves of one document keep: no uploaded content is lost. */
module SnapshotRuns {
  import opened Order
  import opened Items
  import opened Ids
  import opened VersionNames
  import opened Snapshots

  // ---- the effect of taking over contents, in closed form ----

  /** A file without new content takes the bytes of the last snapshot. */
  function Fill(source: seq<FileData>, f: FileData): FileData {
    match FindFile(source, f.name)
    case Some(prior) => if f.content == [] then f.(content := prior.content) else f
    case None => f
  }

  function FillAll(source: seq<FileData>, files: seq<FileData>): (r: seq<FileData>)
    ensures |r| == |files| && forall i :: 0 <= i < |files| ==> r[i] == Fill(source, files[i])
  {
    seq(|files|, i requires 0 <= i < |files| => Fill(source, files[i]))
  }

  predicate IsProtected(cfg: Settings, source: seq<FileData>, f: FileData, list: seq<Value>) {
    FindFile(source, f.name).Some? && Protects(cfg, f, FindFile(source, f.name).value, list)
  }

  /** The version files a save adds, in the order of the files they protect. */
  function Versions(cfg: Settings, source: seq<FileData>, files: seq<FileData>, list: seq<Value>,
          now: int): seq<FileData> {
    if files == [] then [] else
    var f := files[|files| - 1];
    Versions(cfg, source, files[..|files| - 1], list, now)
    + if IsProtected(cfg, source, f, list) then [VersionFile(cfg, f.name, FindFile(source, f.name).value, now)] else []
  }

  lemma {:induction false} VersionsFrom(cfg: Settings, source: seq<FileData>, files: seq<FileData>, list: seq<Value>,
          now: int, v: FileData)
    ensures v in Versions(cfg, source, files, list, now)
            <==> exists f :: f in files && IsProtected(cfg, source, f, list)
                             && v == VersionFile(cfg, f.name, FindFile(source, f.name).value, now)
  {
    if files != [] {
      VersionsFrom(cfg, source, files[..|files| - 1], list, now, v);
      assert files == files[..|files| - 1] + [files[|files| - 1]];
    }
  }

  lemma {:induction false} VersionsGrow(cfg: Settings, source: seq<FileData>, files: seq<FileData>, list: seq<Value>,
          now: int, i: nat)
    requires i <= |files|
    ensures Versions(cfg, source, files[..i], list, now) <= Versions(cfg, source, files, list, now)
    decreases |files| - i
  {
    if i < |files| {
      VersionsGrow(cfg, source, files, list, now, i + 1);
      assert files[..i + 1][..i] == files[..i];
    } else { assert files[..i] == files; }
  }

  /** The state of the two file lists before file `i` is looked at. */
  function After(cfg: Settings, source: seq<FileData>, files: seq<FileData>, list: seq<Value>, now: int, i: nat): Copied
    requires i <= |files|
  {
    var v := Versions(cfg, source, files[..i], list, now);
    Copied(FillAll(source, files[..i]) + (files[i..] + v), files + StripFiles(v))
  }

  /** No two files and no two versions share a name. */
  ghost predicate NoClash(cfg: Settings, source: seq<FileData>, files: seq<FileData>, list: seq<Value>, now: int) {
    UniqueNames(files + Versions(cfg, source, files, list, now))
  }

  lemma AfterUnique(cfg: Settings, source: seq<FileData>, files: seq<FileData>, list: seq<Value>, now: int, i: nat)
    requires i <= |files| && NoClash(cfg, source, files, list, now)
    ensures UniqueNames(After(cfg, source, files, list, now, i).target)
    ensures UniqueNames(After(cfg, source, files, list, now, i).origin)
  {
    VersionsGrow(cfg, source, files, list, now, i);
    NamesKept(source, files, i, Versions(cfg, source, files[..i], list, now), Versions(cfg, source, files, list, now));
  }

  lemma NamesKept(source: seq<FileData>, files: seq<FileData>, i: nat, v: seq<FileData>, w: seq<FileData>)
    requires i <= |files| && v <= w && UniqueNames(files + w)
    ensures UniqueNames(FillAll(source, files[..i]) + (files[i..] + v))
    ensures UniqueNames(files + StripFiles(v))
  {
    var all, target, origin := files + w, FillAll(source, files[..i]) + (files[i..] + v), files + StripFiles(v);
    assert forall k :: 0 <= k < |target| ==> target[k].name == all[k].name;
    assert forall k :: 0 <= k < |origin| ==> origin[k].name == all[k].name;
  }

  /** Looking at one file, given the lists before and after it. */
  lemma CopyOne(cfg: Settings, source: seq<FileData>, list: seq<Value>, now: int,
                p: seq<FileData>, f: FileData, rest: seq<FileData>, origin: seq<FileData>, v: seq<FileData>)
    requires var w := v + (if !IsProtected(cfg, source, f, list) then []
                            else [VersionFile(cfg, f.name, FindFile(source, f.name).value, now)]);
             && UniqueNames(p + [f] + (rest + v)) && UniqueNames(origin + StripFiles(w))
             && (IsProtected(cfg, source, f, list) ==> UniqueNames((p + [f]) + (rest + w)))
    ensures var w := v + (if !IsProtected(cfg, source, f, list) then []
                           else [VersionFile(cfg, f.name, FindFile(source, f.name).value, now)]);
            CopyFile(cfg, source, Copied(p + [f] + (rest + v), origin + StripFiles(v)), f, list, now)
            == Copied(p + [Fill(source, f)] + (rest + w), origin + StripFiles(w))
  {
    if IsProtected(cfg, source, f, list) {
      AddVersion(p + [f], rest, origin, v, VersionFile(cfg, f.name, FindFile(source, f.name).value, now));
    } else {
      assert v + [] == v;
      if FindFile(source, f.name).Some? && f.content == [] { AddBetween(p, f, Fill(source, f), rest + v); }
    }
  }

  /** The lists before and after file `i`, with that file singled out. */
  lemma AfterParts(cfg: Settings, source: seq<FileData>, files: seq<FileData>, list: seq<Value>, now: int, i: nat)
    requires i < |files|
    ensures var p, rest := FillAll(source, files[..i]), files[i + 1..];
            && After(cfg, source, files, list, now, i).target
               == p + [files[i]] + (rest + Versions(cfg, source, files[..i], list, now))
            && After(cfg, source, files, list, now, i + 1).target
               == p + [Fill(source, files[i])] + (rest + Versions(cfg, source, files[..i + 1], list, now))
  {
    assert files[i..] == [files[i]] + files[i + 1..];
    FillOneMore(source, files, i);
    Regroup(FillAll(source, files[..i]), files[i], files[i + 1..], Versions(cfg, source, files[..i], list, now));
  }

  lemma FillOneMore(source: seq<FileData>, files: seq<FileData>, i: nat)
    requires i < |files|
    ensures FillAll(source, files[..i + 1]) == FillAll(source, files[..i]) + [Fill(source, files[i])]
  {
  }

  lemma Regroup(p: seq<FileData>, f: FileData, rest: seq<FileData>, v: seq<FileData>)
    ensures p + (([f] + rest) + v) == p + [f] + (rest + v)
  {
  }

  lemma CopyStep(cfg: Settings, source: seq<FileData>, files: seq<FileData>, list: seq<Value>, now: int, i: nat)
    requires i < |files| && NoClash(cfg, source, files, list, now)
    ensures CopyFile(cfg, source, After(cfg, source, files, list, now, i), files[i], list, now)
            == After(cfg, source, files, list, now, i + 1)
  {
    AfterUnique(cfg, source, files, list, now, i);
    AfterUnique(cfg, source, files, list, now, i + 1);
    AfterParts(cfg, source, files, list, now, i);
    assert files[..i + 1][..i] == files[..i];
    CopyOne(cfg, source, list, now, FillAll(source, files[..i]), files[i], files[i + 1..], files,
            Versions(cfg, source, files[..i], list, now));
  }

  lemma AddVersion(p: seq<FileData>, rest: seq<FileData>, origin: seq<FileData>, v: seq<FileData>, version: FileData)
    requires UniqueNames(p + (rest + (v + [version]))) && UniqueNames(origin + StripFiles(v + [version]))
    ensures AddFile(p + (rest + v), version) == p + (rest + (v + [version]))
    ensures AddFile(origin + StripFiles(v), version.Stripped()) == origin + StripFiles(v + [version])
  {
    assert StripFiles(v + [version]) == StripFiles(v) + [version.Stripped()];
    LastIsNew(p + (rest + v), version, p + (rest + (v + [version])));
    LastIsNew(origin + StripFiles(v), version.Stripped(), origin + StripFiles(v + [version]));
  }

  lemma LastIsNew(files: seq<FileData>, f: FileData, all: seq<FileData>)
    requires all == files + [f] && UniqueNames(all)
    ensures AddFile(files, f) == all
  {
    forall g | g in files ensures g.name != f.name {
      var i :| 0 <= i < |files| && files[i] == g;
      assert all[i].name != all[|files|].name;
    }
    AddNew(files, f);
  }

  lemma {:induction false} CopyFrom(cfg: Settings, source: seq<FileData>, files: seq<FileData>, list: seq<Value>,
          now: int, i: nat)
    requires i <= |files| && NoClash(cfg, source, files, list, now)
    ensures CopyFiles(cfg, source, After(cfg, source, files, list, now, i), files[i..], list, now)
            == After(cfg, source, files, list, now, |files|)
    decreases |files| - i
  {
    if i < |files| {
      CopyStep(cfg, source, files, list, now, i);
      assert files[i..][1..] == files[i + 1..];
      CopyFrom(cfg, source, files, list, now, i + 1);
    }
  }

  lemma AfterEnds(cfg: Settings, source: seq<FileData>, files: seq<FileData>, list: seq<Value>, now: int)
    ensures After(cfg, source, files, list, now, 0) == Copied(files, files)
    ensures var v := Versions(cfg, source, files, list, now);
            After(cfg, source, files, list, now, |files|) == Copied(FillAll(source, files) + v, files + StripFiles(v))
  {
    assert files[..0] == [] && files[..|files|] == files;
    assert FillAll(source, []) == [] && StripFiles([]) == [];
  }

  /** If no version name is taken, every file keeps its place and gets its bytes, and one version
      file is appended to both documents for each protected content. */
  lemma CopyClosedForm(cfg: Settings, source: seq<FileData>, files: seq<FileData>, list: seq<Value>, now: int)
    requires NoClash(cfg, source, files, list, now)
    ensures var v := Versions(cfg, source, files, list, now);
            CopyFiles(cfg, source, Copied(files, files), files, list, now)
            == Copied(FillAll(source, files) + v, files + StripFiles(v))
  {
    AfterEnds(cfg, source, files, list, now);
    CopyFrom(cfg, source, files, list, now, 0);
  }
}
