/** What an archive guarantees over any run of saves, deletions and history cleanups. */
module ArchiveRuns {
  import opened Order
  import opened Items
  import opened Ids
  import opened Splitter
  import opened ArchiveTables
  import opened ArchiveInvariant

  // ---- the operations on the simple view ----

  function ViewIds(view: View, uniqueId: string): set<string> {
    set id | id in view && QueryText(GetUniqueID(id)) == uniqueId
  }

  predicate ViewDeleteCompletes(view: View, id: string) {
    (id in view && Modified(view[id]).Some?) || GetSnapshotTime(id).Some?
  }

  function ViewDeleteAll(view: View, ids: seq<string>): View
    decreases |ids|
  {
    if ids == [] then view
    else if !ViewDeleteCompletes(view, ids[0]) then view - {ids[0]}
    else ViewDeleteAll(view - {ids[0]}, ids[1..])
  }

  function ViewCleanup(view: View, s: ItemCollection): View {
    ViewDeleteAll(view, Victims(SortedStrings(ViewIds(view, QueryText(GetUniqueID(s.UniqueId())))), History(s)))
  }

  lemma {:induction false} ViewDeleteAllShrinks(view: View, ids: seq<string>)
    ensures forall id :: id in ViewDeleteAll(view, ids) ==> id in view && ViewDeleteAll(view, ids)[id] == view[id]
    decreases |ids|
  {
    if ids != [] && ViewDeleteCompletes(view, ids[0]) { ViewDeleteAllShrinks(view - {ids[0]}, ids[1..]); }
  }

  predicate ViewAccepts(view: View, s: ItemCollection) {
    IsSnapshotID(s.UniqueId()) && MODIFIED in s.items && s.UniqueId() !in view
  }

  function ViewSave(view: View, s: ItemCollection): View {
    if !ViewAccepts(view, s) then view
    else if Modified(s).None? then view[s.UniqueId() := s]
    else ViewCleanup(view[s.UniqueId() := s], s)
  }

  function ViewStep(view: View, op: Operation): View {
    match op
    case Save(s) => ViewSave(view, s)
    case Delete(id) => view - {id}
    case Metadata(_) => view
  }

  function ViewRun(view: View, ops: seq<Operation>): View
    decreases |ops|
  {
    if ops == [] then view else ViewRun(ViewStep(view, ops[0]), ops[1..])
  }

  /** Saved contents are in play, and the metadata document carries no files. */
  ghost predicate Admissible(pool: iset<Bytes>, op: Operation) {
    match op
    case Save(s) => forall f :: f in s.files && f.content != [] ==> f.content in pool
    case Delete(_) => true
    case Metadata(d) => d.files == []
  }

  // ---- every operation keeps the invariant ----

  lemma InsertKeepsRep(cfg: Config, pool: iset<Bytes>, t: Tables, view: View, s: ItemCollection)
    requires Sound(cfg, pool) && Rep(cfg, pool, t, view) && Admissible(pool, Save(s)) && Accepts(t, s)
    ensures Rep(cfg, pool, Insert(cfg, t, s), view[s.UniqueId() := s])
  {
    var id := s.UniqueId();
    assert id != METADATA;
    var t1, u, v := Extract(cfg, t, s.files, id), Insert(cfg, t, s), view[id := s];
    ExtractKeeps(cfg, pool, t, s.files, id);
    SameDocuments(cfg, pool, t1, u);
    forall r | r in u.byDocument ensures HasRows(u, r.0) { assert HasRows(t1, r.0); }
    assert Needs(cfg, pool, u, id, s.files);
    SnapshotsGrow(cfg, pool, t, u, view, s);
    InsertKeepsIndex(cfg, t, u, view, s);
  }

  lemma SnapshotsGrow(cfg: Config, pool: iset<Bytes>, t: Tables, u: Tables, view: View, s: ItemCollection)
    requires SnapshotsRep(cfg, pool, t, view) && s.UniqueId() !in t.snapshots && s.UniqueId() != METADATA
    requires u.snapshots == t.snapshots[s.UniqueId() := s.Stripped()] && t.byDocument <= u.byDocument
    requires Needs(cfg, pool, u, s.UniqueId(), s.files)
    ensures SnapshotsRep(cfg, pool, u, view[s.UniqueId() := s])
  {
    var v := view[s.UniqueId() := s];
    forall x | x in v ensures Needs(cfg, pool, u, x, v[x].files) {
      if x != s.UniqueId() { assert Needs(cfg, pool, t, x, view[x].files); }
    }
  }

  lemma InsertKeepsIndex(cfg: Config, t: Tables, u: Tables, view: View, s: ItemCollection)
    requires IndexRep(t, view) && s.UniqueId() !in view
    requires u.byUniqueId == t.byUniqueId + {UniqueIdRow(s.UniqueId())}
    requires u.byModified == t.byModified
                             + if Modified(s).Some? then {(Day(Modified(s).value), s.UniqueId())} else {}
    ensures IndexRep(u, view[s.UniqueId() := s])
  {
    var v := view[s.UniqueId() := s];
    assert forall id :: id in v <==> id in view || id == s.UniqueId();
    assert forall id :: id in view ==> v[id] == view[id];
  }

  /** Deleting `id` removes it from the view and leaves every other snapshot intact. */
  lemma DeleteKeepsRep(cfg: Config, pool: iset<Bytes>, t: Tables, view: View, id: string)
    requires Rep(cfg, pool, t, view)
    ensures Rep(cfg, pool, DeleteSnapshot(cfg, t, id), view - {id})
  {
    var u, time := DeleteSnapshot(cfg, t, id), DeletionTime(LoadSnapshot(t, id), id);
    DeletedDocuments(cfg, pool, t, view, id);
    SnapshotsShrink(cfg, pool, t, u, view, id);
    if id in view { assert LoadSnapshot(t, id).items == view[id].items; }
    DeleteKeepsIndex(t, u, view, id, time);
  }

  /** A deletion keeps the stored documents in order and every reference of another snapshot. */
  lemma DeletedDocuments(cfg: Config, pool: iset<Bytes>, t: Tables, view: View, id: string)
    requires Rep(cfg, pool, t, view)
    ensures var u, time := DeleteSnapshot(cfg, t, id), DeletionTime(LoadSnapshot(t, id), id);
            && DocumentsRep(cfg, pool, u) && ReferencesRep(u)
            && (forall r :: r in t.byDocument && r.1 != id ==> r in u.byDocument)
            && u.snapshots == t.snapshots - {id} && u.byUniqueId == t.byUniqueId - {UniqueIdRow(id)}
            && u.byModified == t.byModified - if time.Some? then {(Day(time.value), id)} else {}
  {
    var s, t1 := LoadSnapshot(t, id), DropIndexRows(t, id);
    var time := DeletionTime(s, id);
    var t2 := if time.None? then t1 else t1.(byModified := t1.byModified - {(Day(time.value), id)});
    SameDocuments(cfg, pool, t, t2);
    DropFilesKeeps(cfg, pool, t2, s.files, id);
    if id in view { assert s.UniqueId() == id; } else { assert s.files == []; }
  }

  lemma SnapshotsShrink(cfg: Config, pool: iset<Bytes>, t: Tables, u: Tables, view: View, id: string)
    requires SnapshotsRep(cfg, pool, t, view) && u.snapshots == t.snapshots - {id}
    requires forall r :: r in t.byDocument && r.1 != id ==> r in u.byDocument
    ensures SnapshotsRep(cfg, pool, u, view - {id})
  {
    forall x | x in view && x != id ensures Needs(cfg, pool, u, x, view[x].files) {
      assert Needs(cfg, pool, t, x, view[x].files);
    }
  }

  lemma DeleteKeepsIndex(t: Tables, u: Tables, view: View, id: string, time: Option<int>)
    requires IndexRep(t, view)
    requires id in view && Modified(view[id]).Some? ==> time == Modified(view[id])
    requires u.byUniqueId == t.byUniqueId - {UniqueIdRow(id)}
    requires u.byModified == t.byModified - if time.Some? then {(Day(time.value), id)} else {}
    ensures IndexRep(u, view - {id})
  {
    var v := view - {id};
    assert forall x :: x in v <==> x in view && x != id;
  }

  lemma {:induction false} DeleteAllKeepsRep(cfg: Config, pool: iset<Bytes>, t: Tables, view: View, ids: seq<string>)
    requires Rep(cfg, pool, t, view)
    ensures Rep(cfg, pool, DeleteAll(cfg, t, ids), ViewDeleteAll(view, ids))
    decreases |ids|
  {
    if ids != [] {
      DeleteKeepsRep(cfg, pool, t, view, ids[0]);
      CompletesAgree(cfg, pool, t, view, ids[0]);
      if DeleteCompletes(t, ids[0]) {
        DeleteAllKeepsRep(cfg, pool, DeleteSnapshot(cfg, t, ids[0]), view - {ids[0]}, ids[1..]);
      }
    }
  }

  lemma CompletesAgree(cfg: Config, pool: iset<Bytes>, t: Tables, view: View, id: string)
    requires Rep(cfg, pool, t, view)
    ensures DeleteCompletes(t, id) <==> ViewDeleteCompletes(view, id)
  {
    if id == METADATA { assert GetSnapshotTime(METADATA) == Some(0); }
    if id in view { assert Modified(LoadSnapshot(t, id)) == Modified(view[id]); }
  }

  lemma IdsAgree(t: Tables, view: View, uniqueId: string)
    requires IndexRep(t, view)
    ensures IdsOf(t, uniqueId) == ViewIds(view, uniqueId)
  {
    forall id ensures id in IdsOf(t, uniqueId) <==> id in ViewIds(view, uniqueId) {
      if id in ViewIds(view, uniqueId) { assert UniqueIdRow(id) in t.byUniqueId; }
    }
  }

  lemma CleanupKeepsRep(cfg: Config, pool: iset<Bytes>, t: Tables, view: View, s: ItemCollection)
    requires Rep(cfg, pool, t, view)
    ensures Rep(cfg, pool, Cleanup(cfg, t, s), ViewCleanup(view, s))
  {
    var uid := QueryText(GetUniqueID(s.UniqueId()));
    IdsAgree(t, view, uid);
    DeleteAllKeepsRep(cfg, pool, t, view, Victims(SnapshotsByUniqueId(t, uid), History(s)));
  }

  lemma StepKeepsRep(cfg: Config, pool: iset<Bytes>, t: Tables, view: View, op: Operation)
    requires Sound(cfg, pool) && Rep(cfg, pool, t, view) && Admissible(pool, op)
    ensures Rep(cfg, pool, Step(cfg, t, op), ViewStep(view, op))
  {
    match op
    case Save(s) =>
      assert IsSnapshotID(s.UniqueId()) ==> s.UniqueId() != METADATA;
      if Accepts(t, s) {
        InsertKeepsRep(cfg, pool, t, view, s);
        CleanupKeepsRep(cfg, pool, Insert(cfg, t, s), view[s.UniqueId() := s], s);
      }
    case Delete(id) => DeleteKeepsRep(cfg, pool, t, view, id);
    case Metadata(d) =>
      var u := SaveMetadata(t, d);
      SameDocuments(cfg, pool, t, u);
      forall x | x in view ensures Needs(cfg, pool, u, x, view[x].files) {
        assert Needs(cfg, pool, t, x, view[x].files);
      }
  }

  /** In every reachable state the tables represent the view computed by the simple operations. */
  lemma {:induction false} RunKeepsRep(cfg: Config, pool: iset<Bytes>, t: Tables, view: View, ops: seq<Operation>)
    requires Sound(cfg, pool) && Rep(cfg, pool, t, view)
    requires forall op :: op in ops ==> Admissible(pool, op)
    ensures Rep(cfg, pool, Run(cfg, t, ops), ViewRun(view, ops))
    decreases |ops|
  {
    if ops != [] {
      StepKeepsRep(cfg, pool, t, view, ops[0]);
      RunKeepsRep(cfg, pool, Step(cfg, t, ops[0]), ViewStep(view, ops[0]), ops[1..]);
    }
  }

  // ---- what is read back ----

  /** The checksum attribute that makes a file load as it was saved. */
  predicate Labelled(cfg: Config, f: FileData) {
    f.Md5Attribute() == if f.content == [] then "" else cfg.md5(f.content)
  }

  /** A file is read back as saved exactly when its checksum attribute leads to its own content:
      the checksum of the content, or for a file without content nothing that is stored. */
  predicate LoadsBack(cfg: Config, t: Tables, f: FileData) {
    if f.content == [] then f.Md5Attribute() == "" || !HasRows(t, f.Md5Attribute())
    else f.Md5Attribute() != "" && f.Md5Attribute() == cfg.md5(f.content)
  }

  lemma FileLoadsBack(cfg: Config, pool: iset<Bytes>, t: Tables, f: FileData)
    requires Sound(cfg, pool) && DocumentsRep(cfg, pool, t)
    requires f.content != [] ==> f.content in pool && HasRows(t, cfg.md5(f.content))
    ensures MergeFile(t, f.Stripped()) == f <==> LoadsBack(cfg, t, f)
  {
    var m := f.Md5Attribute();
    assert f.Stripped().Md5Attribute() == m;
    if HasRows(t, m) {
      var c :| Stored(cfg, pool, t, m, c);
      BlocksReadBack(t, m, c);
    }
  }

  /** Loading a stored snapshot returns exactly the document that was saved if and only if the
      checksum attributes of its files lead to their contents. */
  lemma LoadReturnsSaved(cfg: Config, pool: iset<Bytes>, t: Tables, view: View, id: string)
    requires Sound(cfg, pool) && Rep(cfg, pool, t, view) && id in view
    ensures LoadSnapshot(t, id) == view[id] <==> forall f :: f in view[id].files ==> LoadsBack(cfg, t, f)
  {
    var files, loaded := view[id].files, LoadSnapshot(t, id).files;
    assert Needs(cfg, pool, t, id, files);
    forall i | 0 <= i < |files| ensures loaded[i] == files[i] <==> LoadsBack(cfg, t, files[i]) {
      var f := files[i];
      assert f in files;
      if f.content != [] { assert HasRows(t, (cfg.md5(f.content), id).0); }
      FileLoadsBack(cfg, pool, t, f);
    }
    if forall f :: f in files ==> LoadsBack(cfg, t, f) {
      assert loaded == files;
    } else {
      var f :| f in files && !LoadsBack(cfg, t, f);
      var i :| 0 <= i < |files| && files[i] == f;
      assert loaded[i] != files[i];
    }
  }

  ghost predicate AllLabelled(cfg: Config, s: ItemCollection) {
    forall f :: f in s.files ==> Labelled(cfg, f)
  }

  lemma LabelledLoads(cfg: Config, pool: iset<Bytes>, t: Tables, view: View, id: string)
    requires Sound(cfg, pool) && Rep(cfg, pool, t, view) && id in view && AllLabelled(cfg, view[id])
    ensures LoadSnapshot(t, id) == view[id]
  {
    LoadReturnsSaved(cfg, pool, t, view, id);
    assert Needs(cfg, pool, t, id, view[id].files);
  }

  /** Over any run from the empty archive: a snapshot still stored is loaded as it was saved exactly
      if the checksum attributes of its files lead to their contents, and ids that are not stored
      load as the empty document. */
  lemma RunLoadsWhatWasSaved(cfg: Config, pool: iset<Bytes>, ops: seq<Operation>, id: string)
    requires Sound(cfg, pool) && id != METADATA
    requires forall op :: op in ops ==> Admissible(pool, op)
    ensures var t, view := Run(cfg, EMPTY_TABLES, ops), ViewRun(map[], ops);
            && (id in view ==> (LoadSnapshot(t, id) == view[id] <==>
                                forall f :: f in view[id].files ==> LoadsBack(cfg, t, f)))
            && (id !in view ==> LoadSnapshot(t, id) == EMPTY)
  {
    var t, view := Run(cfg, EMPTY_TABLES, ops), ViewRun(map[], ops);
    EmptyRep(cfg, pool);
    RunKeepsRep(cfg, pool, EMPTY_TABLES, map[], ops);
    if id in view { LoadReturnsSaved(cfg, pool, t, view, id); }
  }

  /** A save is read back as it was made exactly if its own cleanup leaves it and the checksum
      attributes of its files lead to their contents. */
  lemma SaveThenLoad(cfg: Config, pool: iset<Bytes>, t: Tables, view: View, s: ItemCollection)
    requires Sound(cfg, pool) && Rep(cfg, pool, t, view) && Admissible(pool, Save(s))
    requires s.UniqueId() !in view && s.UniqueId() !in ["", METADATA]
    ensures var u := SaveSnapshot(cfg, t, s);
            LoadSnapshot(u, s.UniqueId()) == s <==>
            s.UniqueId() in ViewSave(view, s) && forall f :: f in s.files ==> LoadsBack(cfg, u, f)
  {
    var id, u, after := s.UniqueId(), SaveSnapshot(cfg, t, s), ViewSave(view, s);
    StepKeepsRep(cfg, pool, t, view, Save(s));
    if id in after {
      SavedIsUnchanged(view, s);
      LoadReturnsSaved(cfg, pool, u, after, id);
    } else {
      assert id !in u.snapshots;
      assert EMPTY.UniqueId() == "";
    }
  }

  lemma SavedIsUnchanged(view: View, s: ItemCollection)
    requires s.UniqueId() !in view && s.UniqueId() in ViewSave(view, s)
    ensures ViewSave(view, s)[s.UniqueId()] == s
  {
    var v := view[s.UniqueId() := s];
    var ids := SortedStrings(ViewIds(v, QueryText(GetUniqueID(s.UniqueId()))));
    ViewDeleteAllShrinks(v, Victims(ids, History(s)));
  }

  /** The checksum attribute is missing or the checksum of the file's own content. */
  predicate OwnLabel(cfg: Config, f: FileData) {
    f.Md5Attribute() == "" || (f.content != [] && f.Md5Attribute() == cfg.md5(f.content))
  }

  /** A document stored before and after a change has the same content in both states. */
  lemma SameChecksumSameContent(cfg: Config, pool: iset<Bytes>, t: Tables, u: Tables, m: string)
    requires Sound(cfg, pool) && DocumentsRep(cfg, pool, t) && DocumentsRep(cfg, pool, u)
    requires HasRows(t, m) <==> HasRows(u, m)
    ensures Content(t, m) == Content(u, m)
  {
    if HasRows(t, m) {
      var c :| Stored(cfg, pool, t, m, c);
      var c' :| Stored(cfg, pool, u, m, c');
      BlocksReadBack(t, m, c);
      BlocksReadBack(u, m, c');
    }
  }

  lemma LoadsAlike(t: Tables, u: Tables, id: string, s: ItemCollection)
    requires id in t.snapshots && id in u.snapshots && t.snapshots[id] == u.snapshots[id] == s.Stripped()
    ensures LoadSnapshot(t, id) == LoadSnapshot(u, id) <==>
            forall f :: f in s.files ==> MergeFile(t, f.Stripped()) == MergeFile(u, f.Stripped())
  {
    var before, after := LoadSnapshot(t, id), LoadSnapshot(u, id);
    if f :| f in s.files && MergeFile(t, f.Stripped()) != MergeFile(u, f.Stripped()) {
      var i :| 0 <= i < |s.files| && s.files[i] == f;
      assert before.files[i] != after.files[i];
    } else {
      assert forall i :: 0 <= i < |s.files| ==> s.files[i] in s.files;
      assert before.files == after.files;
    }
  }

  lemma OwnContentStays(cfg: Config, pool: iset<Bytes>, t: Tables, u: Tables, f: FileData, id: string)
    requires Sound(cfg, pool) && DocumentsRep(cfg, pool, t) && DocumentsRep(cfg, pool, u)
    requires ReferencesRep(t) && ReferencesRep(u) && OwnLabel(cfg, f)
    requires f.content != [] ==> (cfg.md5(f.content), id) in t.byDocument && (cfg.md5(f.content), id) in u.byDocument
    ensures MergeFile(t, f.Stripped()) == MergeFile(u, f.Stripped())
  {
    assert f.Stripped().Md5Attribute() == f.Md5Attribute();
    if f.Md5Attribute() != "" {
      var row := (cfg.md5(f.content), id);
      assert HasRows(t, row.0) && HasRows(u, row.0);
      SameChecksumSameContent(cfg, pool, t, u, f.Md5Attribute());
    }
  }

  /** Deleting one snapshot never changes what another one with its own labels loads as, even if
      they share contents. */
  lemma DeleteLeavesOthers(cfg: Config, pool: iset<Bytes>, t: Tables, view: View, s: string, other: string)
    requires Sound(cfg, pool) && Rep(cfg, pool, t, view) && other in view && other != s
    requires forall f :: f in view[other].files ==> OwnLabel(cfg, f)
    ensures LoadSnapshot(DeleteSnapshot(cfg, t, s), other) == LoadSnapshot(t, other)
    ensures AllLabelled(cfg, view[other]) ==> LoadSnapshot(t, other) == view[other]
  {
    var u := DeleteSnapshot(cfg, t, s);
    DeletedDocuments(cfg, pool, t, view, s);
    assert Needs(cfg, pool, t, other, view[other].files);
    forall f | f in view[other].files ensures MergeFile(t, f.Stripped()) == MergeFile(u, f.Stripped()) {
      OwnContentStays(cfg, pool, t, u, f, other);
    }
    LoadsAlike(t, u, other, view[other]);
    if AllLabelled(cfg, view[other]) { LabelledLoads(cfg, pool, t, view, other); }
  }

  // ---- index agreement ----

  /** In every reachable state an id other than the metadata id is in the main table exactly when
      its row is in the by-uniqueid index, and no index row exists outside of these; the
      by-modified index has a row for it exactly under the day of a stored date. */
  lemma RunKeepsIndexes(cfg: Config, pool: iset<Bytes>, ops: seq<Operation>, id: string)
    requires Sound(cfg, pool) && id != METADATA
    requires forall op :: op in ops ==> Admissible(pool, op)
    ensures var t := Run(cfg, EMPTY_TABLES, ops);
            && (id in t.snapshots <==> (QueryText(GetUniqueID(id)), id) in t.byUniqueId)
            && (forall r :: r in t.byUniqueId && r.1 == id ==> r.0 == QueryText(GetUniqueID(id)))
            && (forall d :: (d, id) in t.byModified <==>
                  id in t.snapshots && GetDate(t.snapshots[id].items, "$modified").Some?
                  && d == GetDate(t.snapshots[id].items, "$modified").value / 86_400_000)
  {
    var t, view := Run(cfg, EMPTY_TABLES, ops), ViewRun(map[], ops);
    EmptyRep(cfg, pool);
    RunKeepsRep(cfg, pool, EMPTY_TABLES, map[], ops);
    assert id in t.snapshots <==> id in view;
    if id in view { assert t.snapshots[id].items == view[id].items; }
  }

  /** Deleting an id that is not stored changes nothing. */
  lemma DeleteAbsentChangesNothing(cfg: Config, pool: iset<Bytes>, t: Tables, view: View, id: string)
    requires Rep(cfg, pool, t, view) && id !in t.snapshots
    ensures DeleteSnapshot(cfg, t, id) == t
  {
    assert UniqueIdRow(id) !in t.byUniqueId;
    assert forall d :: (d, id) !in t.byModified;
  }
}
