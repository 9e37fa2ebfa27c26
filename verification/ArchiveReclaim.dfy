/** Which rows a deletion reclaims, and that deleting undoes saving. */
module ArchiveReclaim {
  import opened Items
  import opened Ids
  import opened Splitter
  import opened ArchiveTables
  import opened ArchiveInvariant
  import opened ArchiveRuns

  /** Another snapshot than `id` refers to the content. */
  ghost predicate Shared(t: Tables, md5: string, id: string) {
    exists r :: r in t.byDocument && r.0 == md5 && r.1 != id
  }

  function Sums(cfg: Config, files: seq<FileData>): set<string> {
    set f | f in files && f.content != [] :: cfg.md5(f.content)
  }

  /** The contents the deletion walk reaches: it ends after the first shared one. */
  ghost function Reached(cfg: Config, t: Tables, files: seq<FileData>, id: string): set<string> {
    if files == [] then {}
    else if files[0].content == [] then Reached(cfg, t, files[1..], id)
    else var m := cfg.md5(files[0].content);
         {m} + if Shared(t, m, id) then {} else Reached(cfg, t, files[1..], id)
  }

  function Rows(md5s: set<string>, id: string): set<(string, string)> { set m | m in md5s :: (m, id) }

  /** The data row belongs to one of the documents. */
  ghost predicate Owned(t: Tables, md5s: set<string>, dataId: string) {
    exists m :: m in md5s && HasRows(t, m) && dataId in DataIds(t.documents[m])
  }

  /** References of `id` to `refs` removed, documents `docs` reclaimed, nothing else changed. */
  ghost function Reclaim(t: Tables, refs: set<string>, docs: set<string>, id: string): Tables {
    t.(byDocument := t.byDocument - Rows(refs, id),
       documents := t.documents - docs,
       documentsData := map d | d in t.documentsData && !Owned(t, docs, d) :: t.documentsData[d])
  }

  ghost function Unshared(t: Tables, md5s: set<string>, id: string): set<string> {
    set m | m in md5s && !Shared(t, m, id)
  }

  /** The exact effect of the deletion walk: the references it reaches disappear, and of the
      contents behind them exactly those that no other snapshot refers to. */
  lemma {:induction false} DropFilesEffect(cfg: Config, t: Tables, files: seq<FileData>, id: string)
    ensures var reached := Reached(cfg, t, files, id);
            DropFiles(cfg, t, files, id) == Reclaim(t, reached, Unshared(t, reached, id), id)
    decreases |files|
  {
    if files != [] {
      if files[0].content == [] {
        DropFilesEffect(cfg, t, files[1..], id);
      } else {
        var m := cfg.md5(files[0].content);
        var t1 := t.(byDocument := t.byDocument - {(m, id)});
        assert Referenced(t1, m) <==> Shared(t, m, id) by {
          if r :| r in t.byDocument && r.0 == m && r.1 != id { assert r in t1.byDocument; }
        }
        if Shared(t, m, id) {
          assert Unshared(t, {m}, id) == {};
        } else {
          var t2 := DropDocument(t1, m);
          DropFilesEffect(cfg, t2, files[1..], id);
          SharedSame(cfg, t, t2, files[1..], id);
          var rest := Reached(cfg, t, files[1..], id);
          assert Unshared(t, {m} + rest, id) == {m} + Unshared(t, rest, id);
          ReclaimMore(t, m, rest, Unshared(t, rest, id), id);
          assert Unshared(t2, rest, id) == Unshared(t, rest, id);
        }
      }
    }
  }

  lemma ReclaimMore(t: Tables, m: string, refs: set<string>, docs: set<string>, id: string)
    ensures Reclaim(DropDocument(t.(byDocument := t.byDocument - {(m, id)}), m), refs, docs, id)
            == Reclaim(t, {m} + refs, {m} + docs, id)
  {
    var t2 := DropDocument(t.(byDocument := t.byDocument - {(m, id)}), m);
    assert Rows({m} + refs, id) == {(m, id)} + Rows(refs, id);
    forall d ensures Owned(t, {m} + docs, d) <==> d in DataIds(Partition(t, m)) || Owned(t2, docs, d) {
      if x :| x in {m} + docs && HasRows(t, x) && d in DataIds(t.documents[x]) {
        if x != m { assert HasRows(t2, x) && t2.documents[x] == t.documents[x]; }
      }
      if x :| x in docs && HasRows(t2, x) && d in DataIds(t2.documents[x]) {
        assert HasRows(t, x) && t2.documents[x] == t.documents[x];
      }
    }
  }

  /** Whether a content is shared does not depend on the references of `id` itself. */
  lemma {:induction false} SharedSame(cfg: Config, t: Tables, u: Tables, files: seq<FileData>, id: string)
    requires forall r: (string, string) :: r.1 != id ==> (r in t.byDocument <==> r in u.byDocument)
    ensures forall m :: Shared(t, m, id) <==> Shared(u, m, id)
    ensures Reached(cfg, t, files, id) == Reached(cfg, u, files, id)
  {
    forall m ensures Shared(t, m, id) <==> Shared(u, m, id) {
      if r :| r in t.byDocument && r.0 == m && r.1 != id { assert r in u.byDocument; }
      if r :| r in u.byDocument && r.0 == m && r.1 != id { assert r in t.byDocument; }
    }
    if files != [] { SharedSame(cfg, t, u, files[1..], id); }
  }

  /** The contents a deletion of `id` reaches: none if it ends early at an unparsable time. */
  ghost function DeletionReaches(cfg: Config, t: Tables, id: string): set<string> {
    if DeleteCompletes(t, id) then Reached(cfg, t, LoadSnapshot(t, id).files, id) else {}
  }

  /** Deleting a stored snapshot leaves none of its references behind exactly when the walk over
      the loaded files reaches each of its contents, and of all documents it reclaims exactly those
      the walk reaches and no other snapshot refers to. */
  lemma DeleteReclaimsAll(cfg: Config, pool: iset<Bytes>, t: Tables, view: View, id: string)
    requires Sound(cfg, pool) && Rep(cfg, pool, t, view) && id in view
    ensures var u, sums, reached := DeleteSnapshot(cfg, t, id), Sums(cfg, view[id].files), DeletionReaches(cfg, t, id);
            && ((forall m :: m in sums ==> (m, id) !in u.byDocument) <==> sums <= reached)
            && (forall m :: HasRows(u, m) <==> HasRows(t, m) && !(m in reached && !Shared(t, m, id)))
  {
    var files, u, reached := view[id].files, DeleteSnapshot(cfg, t, id), DeletionReaches(cfg, t, id);
    assert Needs(cfg, pool, t, id, files);
    DeletionEffect(cfg, t, id);
    assert u.byDocument == t.byDocument - Rows(reached, id);
    forall m | m in Sums(cfg, files) ensures (m, id) in u.byDocument <==> m !in reached {
      assert (m, id) in t.byDocument;
      assert (m, id) in Rows(reached, id) <==> m in reached;
    }
  }

  /** The document tables after a deletion, whether it completes or not. */
  lemma DeletionEffect(cfg: Config, t: Tables, id: string)
    requires id in t.snapshots && t.snapshots[id].UniqueId() == id
    ensures var u, reached := DeleteSnapshot(cfg, t, id), DeletionReaches(cfg, t, id);
            && u.byDocument == t.byDocument - Rows(reached, id)
            && u.documents == t.documents - Unshared(t, reached, id)
  {
    var t1, time, files := DropIndexRows(t, id), DeletionTime(LoadSnapshot(t, id), id), LoadSnapshot(t, id).files;
    if time.Some? {
      var t2 := t1.(byModified := t1.byModified - {(Day(time.value), id)});
      DropFilesEffect(cfg, t2, files, id);
      SharedSame(cfg, t, t2, files, id);
      var reached := Reached(cfg, t, files, id);
      assert Unshared(t2, reached, id) == Unshared(t, reached, id);
    } else {
      assert Rows({}, id) == {};
    }
  }

  /** Another snapshot loads as before exactly when none of its checksum attributes names a document
      that the deletion reclaims: what it holds itself is safe, a foreign checksum is not. */
  lemma DeleteLeavesExactly(cfg: Config, pool: iset<Bytes>, t: Tables, view: View, id: string, other: string)
    requires Sound(cfg, pool) && Rep(cfg, pool, t, view) && id in view && other in view && other != id
    ensures var reached := DeletionReaches(cfg, t, id);
            LoadSnapshot(DeleteSnapshot(cfg, t, id), other) == LoadSnapshot(t, other) <==>
            forall f :: f in view[other].files && HasRows(t, f.Md5Attribute()) ==>
              f.Md5Attribute() !in Unshared(t, reached, id)
  {
    var u, reached := DeleteSnapshot(cfg, t, id), DeletionReaches(cfg, t, id);
    DeletionEffect(cfg, t, id);
    DeletedDocuments(cfg, pool, t, view, id);
    LoadsAlike(t, u, other, view[other]);
    forall f | f in view[other].files
      ensures MergeFile(t, f.Stripped()) == MergeFile(u, f.Stripped()) <==>
              (HasRows(t, f.Md5Attribute()) ==> f.Md5Attribute() !in Unshared(t, reached, id))
    {
      assert f.Stripped().Md5Attribute() == f.Md5Attribute();
      MergeAfter(cfg, pool, t, u, f.Stripped());
    }
  }

  lemma MergeAfter(cfg: Config, pool: iset<Bytes>, t: Tables, u: Tables, f: FileData)
    requires Sound(cfg, pool) && DocumentsRep(cfg, pool, t) && DocumentsRep(cfg, pool, u) && f.content == []
    requires u.documents.Keys <= t.documents.Keys
    ensures MergeFile(t, f) == MergeFile(u, f) <==> (HasRows(t, f.Md5Attribute()) ==> HasRows(u, f.Md5Attribute()))
  {
    var m := f.Md5Attribute();
    if HasRows(t, m) {
      var c :| Stored(cfg, pool, t, m, c);
      BlocksReadBack(t, m, c);
    }
    if HasRows(t, m) <==> HasRows(u, m) { SameChecksumSameContent(cfg, pool, t, u, m); }
  }

  /** A content that no checksum attribute of its snapshot names stays behind, with its reference. */
  lemma UnlabelledStays(cfg: Config, pool: iset<Bytes>, t: Tables, view: View, id: string, c: Bytes)
    requires Sound(cfg, pool) && Rep(cfg, pool, t, view) && id in view && c != []
    requires cfg.md5(c) in Sums(cfg, view[id].files)
    requires forall f :: f in view[id].files ==> f.Md5Attribute() != cfg.md5(c)
    ensures var u := DeleteSnapshot(cfg, t, id);
            (cfg.md5(c), id) in u.byDocument && HasRows(u, cfg.md5(c))
  {
    var files, m, reached := LoadSnapshot(t, id).files, cfg.md5(c), DeletionReaches(cfg, t, id);
    assert Needs(cfg, pool, t, id, view[id].files);
    forall i | 0 <= i < |files| && files[i].content != [] ensures cfg.md5(files[i].content) != m {
      var f := view[id].files[i];
      assert files[i] == MergeFile(t, f.Stripped());
      MergedChecksum(cfg, pool, t, f.Stripped());
      assert f.Stripped().Md5Attribute() == f.Md5Attribute();
    }
    ReachedAreSums(cfg, t, files, id);
    assert m !in Sums(cfg, files);
    assert (m, id) in t.byDocument;
    DeletionEffect(cfg, t, id);
    assert (m, id) !in Rows(reached, id);
  }

  /** Bytes brought back by a load have the checksum that its attribute names. */
  lemma MergedChecksum(cfg: Config, pool: iset<Bytes>, t: Tables, f: FileData)
    requires DocumentsRep(cfg, pool, t) && f.content == []
    ensures var c := MergeFile(t, f).content; c != [] ==> cfg.md5(c) == f.Md5Attribute()
  {
    var m := f.Md5Attribute();
    if HasRows(t, m) {
      var c :| Stored(cfg, pool, t, m, c);
      BlocksReadBack(t, m, c);
    }
  }

  /** Saving a snapshot with a one-byte file, which a snapshot service leaves without a checksum,
      and deleting it again leaves the reference and the document for ever. */
  lemma OneByteStays(cfg: Config, pool: iset<Bytes>, b: Byte, date: int)
    requires Sound(cfg, pool) && [b] in pool
    ensures var id := "12345678-1";
            var items := map[UNIQUEID := [Text(id)], MODIFIED := [Date(date)]];
            var s := ItemCollection(items, [FileData("f", [b], "", map[])]);
            var u := DeleteSnapshot(cfg, SaveSnapshot(cfg, EMPTY_TABLES, s), id);
            id !in u.snapshots && (cfg.md5([b]), id) in u.byDocument && HasRows(u, cfg.md5([b]))
  {
    var id := "12345678-1";
    var f := FileData("f", [b], "", map[]);
    var s := ItemCollection(map[UNIQUEID := [Text(id)], MODIFIED := [Date(date)]], [f]);
    assert HexDashAny(id, 8);
    EmptyRep(cfg, pool);
    UnlabelledSaveStays(cfg, pool, EMPTY_TABLES, map[], s, f);
  }

  lemma UnlabelledSaveStays(
    cfg: Config, pool: iset<Bytes>, t: Tables, view: View, s: ItemCollection, f: FileData
  )
    requires Sound(cfg, pool) && Rep(cfg, pool, t, view) && Accepts(t, s) && Admissible(pool, Save(s))
    requires Modified(s).Some? && History(s) <= 0
    requires s.files == [f] && f.content != [] && f.Md5Attribute() == ""
    ensures var id, m := s.UniqueId(), cfg.md5(f.content);
            var u := DeleteSnapshot(cfg, SaveSnapshot(cfg, t, s), id);
            id !in u.snapshots && (m, id) in u.byDocument && HasRows(u, m)
  {
    var id, saved := s.UniqueId(), SaveSnapshot(cfg, t, s);
    assert id != METADATA;
    InsertedIsDropped(cfg, pool, t, view, s);
    InsertKeepsRep(cfg, pool, t, view, s);
    assert f in s.files;
    UnlabelledStays(cfg, pool, saved, view[id := s], id, f.content);
    IdIsGone(cfg, pool, saved, view[id := s], id);
  }

  lemma IdIsGone(cfg: Config, pool: iset<Bytes>, t: Tables, view: View, id: string)
    requires Rep(cfg, pool, t, view) && id != METADATA
    ensures id !in DeleteSnapshot(cfg, t, id).snapshots
  {
    DeletedDocuments(cfg, pool, t, view, id);
  }

  lemma {:induction false} ReachedAreSums(cfg: Config, t: Tables, files: seq<FileData>, id: string)
    ensures Reached(cfg, t, files, id) <= Sums(cfg, files)
    ensures (forall m :: m in Sums(cfg, files) ==> !Shared(t, m, id)) ==> Reached(cfg, t, files, id) == Sums(cfg, files)
  {
    if files != [] {
      ReachedAreSums(cfg, t, files[1..], id);
      SumsSplit(cfg, files);
    }
  }

  lemma SumsSplit(cfg: Config, files: seq<FileData>)
    requires files != []
    ensures Sums(cfg, files)
            == (if files[0].content == [] then {} else {cfg.md5(files[0].content)}) + Sums(cfg, files[1..])
  {
    assert files == [files[0]] + files[1..];
  }

  // ---- deleting undoes saving ----

  /** `u` is `t` with new documents `md5s`, whose data rows are all new. */
  ghost predicate Added(t: Tables, u: Tables, md5s: set<string>, id: string) {
    && u.byDocument == t.byDocument + Rows(md5s, id)
    && u.documents.Keys == t.documents.Keys + md5s
    && (forall m :: HasRows(t, m) ==> u.documents[m] == t.documents[m])
    && (forall d :: d in t.documentsData ==> d in u.documentsData && u.documentsData[d] == t.documentsData[d])
    && (forall d :: d in u.documentsData ==> d in t.documentsData || Owned(u, md5s - t.documents.Keys, d))
    && (forall d :: Owned(u, md5s - t.documents.Keys, d) ==> d !in t.documentsData)
  }

  lemma StoreBlocksAdds(cfg: Config, t: Tables, m: string, blocks: seq<Bytes>, id: string)
    requires DistinctIds(cfg) && t.documentsData.Keys <= Issued(cfg, 0, t.issued) && !HasRows(t, m) && blocks != []
    ensures var s := StoreBlocks(cfg, t, m, blocks);
            Added(t, s.(byDocument := s.byDocument + {(m, id)}), {m}, id)
  {
    var s := StoreBlocks(cfg, t, m, blocks);
    StoreBlocksEffect(cfg, t, m, blocks);
    assert Rows({m}, id) == {(m, id)};
    OneDocumentAdded(t, s.(byDocument := s.byDocument + {(m, id)}), m, id);
  }

  lemma ExtractFileAdds(cfg: Config, pool: iset<Bytes>, t: Tables, f: FileData, id: string)
    requires Sound(cfg, pool) && DocumentsRep(cfg, pool, t) && f.content != []
    ensures Added(t, ExtractFile(cfg, t, f, id), {cfg.md5(f.content)}, id)
  {
    var m := cfg.md5(f.content);
    if HasRows(t, m) {
      assert Rows({m}, id) == {(m, id)};
      assert {m} - t.documents.Keys == {};
    } else {
      StoreBlocksAdds(cfg, t, m, Chunks(f.content), id);
    }
  }

  lemma OneDocumentAdded(t: Tables, u: Tables, m: string, id: string)
    requires !HasRows(t, m) && HasRows(u, m) && u.documents == t.documents[m := u.documents[m]]
    requires u.byDocument == t.byDocument + Rows({m}, id)
    requires u.documentsData.Keys == t.documentsData.Keys + DataIds(u.documents[m])
    requires t.documentsData.Keys !! DataIds(u.documents[m])
    requires forall d :: d in t.documentsData ==> u.documentsData[d] == t.documentsData[d]
    ensures Added(t, u, {m}, id)
  {
    assert {m} - t.documents.Keys == {m};
    assert forall d :: Owned(u, {m}, d) <==> d in DataIds(u.documents[m]);
  }

  lemma AddedCompose(t: Tables, u: Tables, v: Tables, a: set<string>, b: set<string>, id: string)
    requires Added(t, u, a, id) && Added(u, v, b, id)
    ensures Added(t, v, a + b, id)
  {
    assert Rows(a + b, id) == Rows(a, id) + Rows(b, id);
    var oldDocs, midDocs := t.documents.Keys, u.documents.Keys;
    forall d ensures Owned(v, (a + b) - oldDocs, d) <==> Owned(u, a - oldDocs, d) || Owned(v, b - midDocs, d) {
      if m :| m in (a + b) - oldDocs && HasRows(v, m) && d in DataIds(v.documents[m]) {
        if m in a { assert HasRows(u, m); } else { assert m in b - midDocs; }
      }
      if m :| m in a - oldDocs && HasRows(u, m) && d in DataIds(u.documents[m]) { assert HasRows(v, m); }
      if m :| m in b - midDocs && HasRows(v, m) && d in DataIds(v.documents[m]) { assert m in (a + b) - oldDocs; }
    }
  }

  lemma NothingAdded(t: Tables, id: string)
    ensures Added(t, t, {}, id)
  {
    assert Rows({}, id) == {};
  }

  lemma {:induction false} ExtractAdds(cfg: Config, pool: iset<Bytes>, t: Tables, files: seq<FileData>, id: string)
    requires Sound(cfg, pool) && DocumentsRep(cfg, pool, t) && ReferencesRep(t)
    requires forall f :: f in files && f.content != [] ==> f.content in pool
    ensures Added(t, Extract(cfg, t, files, id), Sums(cfg, files), id)
    decreases |files|
  {
    if files == [] {
      NothingAdded(t, id);
    } else {
      var f, rest := files[0], files[1..];
      var t1 := ExtractFile(cfg, t, f, id);
      ExtractFileKeeps(cfg, pool, t, f, id);
      ExtractAdds(cfg, pool, t1, rest, id);
      SumsSplit(cfg, files);
      if f.content == [] {
        assert Sums(cfg, files) == Sums(cfg, rest);
      } else {
        ExtractFileAdds(cfg, pool, t, f, id);
        AddedCompose(t, t1, Extract(cfg, t1, rest, id), {cfg.md5(f.content)}, Sums(cfg, rest), id);
      }
    }
  }

  /** Deleting a snapshot just saved without a history limit restores all six tables exactly when
      the deletion reaches nothing that was there before unless another snapshot holds it, and
      everything that was not. */
  lemma DeleteUndoesSave(cfg: Config, pool: iset<Bytes>, t: Tables, view: View, s: ItemCollection)
    requires Sound(cfg, pool) && Rep(cfg, pool, t, view) && Accepts(t, s) && Admissible(pool, Save(s))
    requires Modified(s).Some? && History(s) <= 0
    ensures var id, saved := s.UniqueId(), SaveSnapshot(cfg, t, s);
            var reached := Reached(cfg, t, LoadSnapshot(saved, id).files, id);
            DeleteSnapshot(cfg, saved, id).(issued := t.issued) == t <==>
            ReachesOnlyNew(t, Sums(cfg, s.files), reached, id)
  {
    var id, sums, t1 := s.UniqueId(), Sums(cfg, s.files), Insert(cfg, t, s);
    var files, t3 := LoadSnapshot(t1, id).files, WithoutRows(t1, s);
    InsertedIsDropped(cfg, pool, t, view, s);
    RowsUndone(cfg, pool, t, view, s);
    SharedSame(cfg, t, t3, files, id);
    DropFilesEffect(cfg, t3, files, id);
    ReclaimUndoes(t, t3, sums, Reached(cfg, t, files, id), id);
  }

  /** What a deletion of `id` has reached was not there before, or belongs to another snapshot as
      well, and what it has not reached was there. */
  ghost predicate ReachesOnlyNew(t: Tables, sums: set<string>, reached: set<string>, id: string) {
    && (forall m :: m in reached ==> (m, id) !in t.byDocument && (HasRows(t, m) ==> Shared(t, m, id)))
    && (forall m :: m in sums - reached ==> (m, id) in t.byDocument)
  }

  /** In particular for a snapshot whose files are labelled and whose contents are all new. */
  lemma DeleteUndoesNewSave(cfg: Config, pool: iset<Bytes>, t: Tables, view: View, s: ItemCollection)
    requires Sound(cfg, pool) && Rep(cfg, pool, t, view) && Accepts(t, s) && Admissible(pool, Save(s))
    requires Modified(s).Some? && History(s) <= 0 && AllLabelled(cfg, s)
    requires forall m :: m in Sums(cfg, s.files) ==> !HasRows(t, m)
    ensures DeleteSnapshot(cfg, SaveSnapshot(cfg, t, s), s.UniqueId()).(issued := t.issued) == t
  {
    var id := s.UniqueId();
    assert id != METADATA;
    InsertedIsDropped(cfg, pool, t, view, s);
    InsertKeepsRep(cfg, pool, t, view, s);
    LabelledLoads(cfg, pool, Insert(cfg, t, s), view[id := s], id);
    AbsentIsUnshared(t, Sums(cfg, s.files), id);
    ReachedAreSums(cfg, t, s.files, id);
    DeleteUndoesSave(cfg, pool, t, view, s);
  }

  lemma AbsentIsUnshared(t: Tables, md5s: set<string>, id: string)
    requires ReferencesRep(t) && forall m :: m in md5s ==> !HasRows(t, m)
    ensures forall m :: m in md5s ==> !Shared(t, m, id) && (m, id) !in t.byDocument
  {
    forall m | m in md5s ensures !Shared(t, m, id) && (m, id) !in t.byDocument {
      assert forall r :: r in t.byDocument ==> HasRows(t, r.0);
      assert (m, id) in t.byDocument ==> HasRows(t, (m, id).0);
    }
  }

  /** The tables without the index rows of a snapshot. */
  function WithoutRows(t: Tables, s: ItemCollection): Tables
    requires Modified(s).Some?
  {
    var u := DropIndexRows(t, s.UniqueId());
    u.(byModified := u.byModified - {(Day(Modified(s).value), s.UniqueId())})
  }

  /** Deleting a snapshot just inserted drops its index rows and walks over its files. */
  lemma InsertedIsDropped(cfg: Config, pool: iset<Bytes>, t: Tables, view: View, s: ItemCollection)
    requires Sound(cfg, pool) && Rep(cfg, pool, t, view) && Accepts(t, s) && Admissible(pool, Save(s))
    requires Modified(s).Some? && History(s) <= 0
    ensures SaveSnapshot(cfg, t, s) == Insert(cfg, t, s)
    ensures var id, t1 := s.UniqueId(), Insert(cfg, t, s);
            DeleteSnapshot(cfg, t1, id) == DropFiles(cfg, WithoutRows(t1, s), LoadSnapshot(t1, id).files, id)
  {
    assert s.UniqueId() != METADATA;
    InsertKeepsRep(cfg, pool, t, view, s);
  }

  /** Without its index rows an inserted snapshot has left its documents and references only. */
  lemma RowsUndone(cfg: Config, pool: iset<Bytes>, t: Tables, view: View, s: ItemCollection)
    requires Sound(cfg, pool) && Rep(cfg, pool, t, view) && Accepts(t, s) && Admissible(pool, Save(s))
    requires Modified(s).Some?
    ensures var u := WithoutRows(Insert(cfg, t, s), s);
            && Added(t, u, Sums(cfg, s.files), s.UniqueId())
            && u.snapshots == t.snapshots && u.byUniqueId == t.byUniqueId && u.byModified == t.byModified
  {
    assert s.UniqueId() != METADATA;
    ExtractKeeps(cfg, pool, t, s.files, s.UniqueId());
    ExtractAdds(cfg, pool, t, s.files, s.UniqueId());
    IndexRowsUndone(t, Insert(cfg, t, s), WithoutRows(Insert(cfg, t, s), s), view, s);
    var id := s.UniqueId();
    AddedSame(t, Extract(cfg, t, s.files, id), WithoutRows(Insert(cfg, t, s), s), Sums(cfg, s.files), id);
  }

  lemma AddedSame(t: Tables, u: Tables, v: Tables, md5s: set<string>, id: string)
    requires Added(t, u, md5s, id) && v.byDocument == u.byDocument && v.documents == u.documents
    requires v.documentsData == u.documentsData
    ensures Added(t, v, md5s, id)
  {
    forall d ensures Owned(v, md5s - t.documents.Keys, d) <==> Owned(u, md5s - t.documents.Keys, d) {
      if m :| m in md5s - t.documents.Keys && HasRows(u, m) && d in DataIds(u.documents[m]) { assert HasRows(v, m); }
      if m :| m in md5s - t.documents.Keys && HasRows(v, m) && d in DataIds(v.documents[m]) { assert HasRows(u, m); }
    }
  }

  lemma IndexRowsUndone(t: Tables, t1: Tables, t3: Tables, view: View, s: ItemCollection)
    requires IndexRep(t, view) && s.UniqueId() !in view && s.UniqueId() !in t.snapshots && Modified(s).Some?
    requires t1.snapshots == t.snapshots[s.UniqueId() := s.Stripped()]
    requires t1.byUniqueId == t.byUniqueId + {UniqueIdRow(s.UniqueId())}
    requires t1.byModified == t.byModified + {(Day(Modified(s).value), s.UniqueId())}
    requires t3.snapshots == t1.snapshots - {s.UniqueId()}
    requires t3.byUniqueId == t1.byUniqueId - {UniqueIdRow(s.UniqueId())}
    requires t3.byModified == t1.byModified - {(Day(Modified(s).value), s.UniqueId())}
    ensures t3.snapshots == t.snapshots && t3.byUniqueId == t.byUniqueId && t3.byModified == t.byModified
  {
    assert UniqueIdRow(s.UniqueId()) !in t.byUniqueId;
    assert (Day(Modified(s).value), s.UniqueId()) !in t.byModified;
  }

  /** Reclaiming after an addition restores the tables exactly when it takes back the addition. */
  lemma ReclaimUndoes(t: Tables, u: Tables, sums: set<string>, reached: set<string>, id: string)
    requires ReferencesRep(t) && Added(t, u, sums, id)
    requires u.snapshots == t.snapshots && u.byUniqueId == t.byUniqueId && u.byModified == t.byModified
    requires forall m :: Shared(t, m, id) <==> Shared(u, m, id)
    ensures Reclaim(u, reached, Unshared(u, reached, id), id).(issued := t.issued) == t
            <==> ReachesOnlyNew(t, sums, reached, id)
  {
    var docs := Unshared(u, reached, id);
    var r := Reclaim(u, reached, docs, id);
    if ReachesOnlyNew(t, sums, reached, id) {
      RowsTakenBack(t, u, sums, reached, id);
      forall m ensures m in docs && HasRows(u, m) <==> m in sums - t.documents.Keys {
        if Shared(t, m, id) { SharedIsStored(t, m, id); }
        if m in sums && m !in reached { assert HasRows(t, (m, id).0); }
      }
      assert r.documents == t.documents;
      SameOwned(u, docs, sums - t.documents.Keys);
      assert r.documentsData == t.documentsData;
    } else {
      if m :| m in reached && (m, id) in t.byDocument {
        assert (m, id) in Rows(reached, id) && (m, id) !in r.byDocument;
      } else if m :| m in reached && HasRows(t, m) && !Shared(t, m, id) {
        assert m !in r.documents;
      } else {
        var m :| m in sums - reached && (m, id) !in t.byDocument;
        assert (m, id) in Rows(sums, id) && (m, id) !in Rows(reached, id) && (m, id) in r.byDocument;
      }
    }
  }

  lemma RowsTakenBack(t: Tables, u: Tables, sums: set<string>, reached: set<string>, id: string)
    requires ReachesOnlyNew(t, sums, reached, id) && u.byDocument == t.byDocument + Rows(sums, id)
    ensures u.byDocument - Rows(reached, id) == t.byDocument
  {
    forall x ensures x in u.byDocument - Rows(reached, id) <==> x in t.byDocument {
      if x in Rows(sums, id) && x !in Rows(reached, id) { assert x.0 in sums - reached; }
      if x in Rows(reached, id) { assert x.0 in reached; }
    }
  }

  lemma SharedIsStored(t: Tables, m: string, id: string)
    requires ReferencesRep(t) && Shared(t, m, id)
    ensures HasRows(t, m)
  {
    var r :| r in t.byDocument && r.0 == m && r.1 != id;
  }

  lemma SameOwned(t: Tables, a: set<string>, b: set<string>)
    requires forall m :: m in a && HasRows(t, m) <==> m in b
    ensures forall d :: Owned(t, a, d) <==> Owned(t, b, d)
  {
    forall d ensures Owned(t, a, d) <==> Owned(t, b, d) {
      if m :| m in a && HasRows(t, m) && d in DataIds(t.documents[m]) { assert m in b; }
      if m :| m in b && HasRows(t, m) && d in DataIds(t.documents[m]) { assert m in a; }
    }
  }
}
