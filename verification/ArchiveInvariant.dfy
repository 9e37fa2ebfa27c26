/** The representation invariant that ties the six tables to the simple view of an archive as a
    map from snapshot ids to documents with their files, and its preservation by every operation. */
module ArchiveInvariant {
  import opened Order
  import opened Items
  import opened Ids
  import opened Splitter
  import opened ArchiveTables

  type View = map<string, ItemCollection>

  /** A checksum is never the empty text, no two contents in play share one, and generated ids
      never repeat. */
  ghost predicate Sound(cfg: Config, pool: iset<Bytes>) {
    && (forall a :: cfg.md5(a) != "")
    && (forall a, b :: a in pool && b in pool && cfg.md5(a) == cfg.md5(b) ==> a == b)
    && DistinctIds(cfg)
  }

  ghost predicate DistinctIds(cfg: Config) {
    forall i: nat, j: nat :: cfg.newId(i) == cfg.newId(j) ==> i == j
  }

  /** The directory has exactly the sort ids 0..k-1 and they lead to the `k` blocks. */
  ghost predicate Holds(partition: map<int, string>, data: map<string, Bytes>, blocks: seq<Bytes>) {
    && (forall j :: j in partition <==> 0 <= j < |blocks|)
    && (forall j :: j in partition ==> partition[j] in data && data[partition[j]] == blocks[j])
  }

  ghost predicate Stored(cfg: Config, pool: iset<Bytes>, t: Tables, md5: string, c: Bytes)
    requires HasRows(t, md5)
  {
    c != [] && c in pool && cfg.md5(c) == md5 && Holds(t.documents[md5], t.documentsData, Chunks(c))
  }

  /** The data ids handed out after the first `from`. */
  function Issued(cfg: Config, from: nat, n: nat): set<string> {
    if n == 0 then {} else Issued(cfg, from, n - 1) + {cfg.newId(from + n - 1)}
  }

  /** Every document with a directory row is complete, and no two documents share a data row. */
  ghost predicate DocumentsRep(cfg: Config, pool: iset<Bytes>, t: Tables) {
    && (forall m :: HasRows(t, m) ==> exists c :: Stored(cfg, pool, t, m, c))
    && (forall m, n :: HasRows(t, m) && HasRows(t, n) && m != n ==> DataIds(t.documents[m]) !! DataIds(t.documents[n]))
    && t.documentsData.Keys <= Issued(cfg, 0, t.issued)
  }

  /** Whatever is referred to is stored. */
  ghost predicate ReferencesRep(t: Tables) {
    forall r :: r in t.byDocument ==> HasRows(t, r.0)
  }

  ghost predicate SnapshotsRep(cfg: Config, pool: iset<Bytes>, t: Tables, view: View) {
    && METADATA !in view
    && t.snapshots.Keys - {METADATA} == view.Keys
    && (METADATA in t.snapshots ==> t.snapshots[METADATA].files == [])
    && (forall id :: id in view ==> t.snapshots[id] == view[id].Stripped() && view[id].UniqueId() == id)
    && (forall id :: id in view ==> Needs(cfg, pool, t, id, view[id].files))
  }

  /** Every file saved with content has its reference row. */
  ghost predicate Needs(cfg: Config, pool: iset<Bytes>, t: Tables, id: string, files: seq<FileData>) {
    forall f :: f in files && f.content != [] ==> f.content in pool && (cfg.md5(f.content), id) in t.byDocument
  }

  function UniqueIdRow(id: string): (string, string) { (QueryText(GetUniqueID(id)), id) }

  /** Both secondary indexes hold exactly the rows of the snapshots in the view. */
  ghost predicate IndexRep(t: Tables, view: View) {
    && t.byUniqueId == (set id | id in view :: UniqueIdRow(id))
    && t.byModified == (set id | id in view && Modified(view[id]).Some? :: (Day(Modified(view[id]).value), id))
  }

  ghost predicate Rep(cfg: Config, pool: iset<Bytes>, t: Tables, view: View) {
    DocumentsRep(cfg, pool, t) && ReferencesRep(t) && SnapshotsRep(cfg, pool, t, view) && IndexRep(t, view)
  }

  lemma EmptyRep(cfg: Config, pool: iset<Bytes>)
    ensures Rep(cfg, pool, EMPTY_TABLES, map[])
  {
  }

  // ---- reading blocks back ----

  lemma {:induction false} GatherBlocks(p: map<int, string>, data: map<string, Bytes>, blocks: seq<Bytes>, n: nat)
    requires Holds(p, data, blocks) && n <= |blocks|
    ensures Gather(p, data, seq(n, i => i)) == Join(blocks[..n])
  {
    if n > 0 {
      GatherBlocks(p, data, blocks, n - 1);
      assert seq(n, i => i)[..n - 1] == seq(n - 1, i => i);
      assert blocks[..n][..n - 1] == blocks[..n - 1];
    }
  }

  lemma SortIdsOfBlocks(p: map<int, string>, k: nat)
    requires forall j :: j in p <==> 0 <= j < k
    ensures SortIds(p) == seq(k, i => i)
  {
    IntOrder();
    SortIdsEnumerate(p);
    var all := seq(k, i => i);
    forall x ensures x in SortIds(p) <==> x in all {
      if 0 <= x < k { assert all[x] == x; }
    }
    EnumerationUnique(SortIds(p), all, IntLeq);
  }

  /** A gap-free directory whose rows hold the blocks of `c` reads back as `c`. */
  lemma BlocksReadBack(t: Tables, md5: string, c: Bytes)
    requires HasRows(t, md5) && Holds(t.documents[md5], t.documentsData, Chunks(c))
    ensures Content(t, md5) == c
  {
    var blocks := Chunks(c);
    SortIdsOfBlocks(t.documents[md5], |blocks|);
    GatherBlocks(t.documents[md5], t.documentsData, blocks, |blocks|);
    assert blocks[..|blocks|] == blocks;
    JoinChunks(c);
  }

  // ---- storing ----

  lemma {:induction false} IssuedSplit(cfg: Config, a: nat, n: nat)
    ensures Issued(cfg, 0, a + n) == Issued(cfg, 0, a) + Issued(cfg, a, n)
  {
    if n > 0 { IssuedSplit(cfg, a, n - 1); }
  }

  lemma {:induction false} IssuedMember(cfg: Config, from: nat, n: nat, k: nat)
    requires DistinctIds(cfg)
    ensures cfg.newId(k) in Issued(cfg, from, n) <==> from <= k < from + n
  {
    if n > 0 { IssuedMember(cfg, from, n - 1, k); }
  }

  lemma {:induction false} IssuedDisjoint(cfg: Config, a: nat, n: nat)
    requires DistinctIds(cfg)
    ensures Issued(cfg, 0, a) !! Issued(cfg, a, n)
  {
    if n > 0 {
      IssuedDisjoint(cfg, a, n - 1);
      IssuedMember(cfg, 0, a, a + n - 1);
    }
  }

  lemma {:induction false} NewRowsIds(cfg: Config, issued: nat, n: nat)
    ensures forall j :: j in NewRows(cfg, issued, n) <==> 0 <= j < n
    ensures DataIds(NewRows(cfg, issued, n)) == Issued(cfg, issued, n)
  {
    if n > 0 {
      NewRowsIds(cfg, issued, n - 1);
      var p, r := NewRows(cfg, issued, n - 1), NewRows(cfg, issued, n);
      assert forall j :: j in p ==> r[j] == p[j];
      assert r[n - 1] == cfg.newId(issued + n - 1);
    }
  }

  lemma {:induction false} NewDataKeys(cfg: Config, data: map<string, Bytes>, issued: nat, blocks: seq<Bytes>)
    requires DistinctIds(cfg) && data.Keys <= Issued(cfg, 0, issued)
    ensures var data' := NewData(cfg, data, issued, blocks);
            && data'.Keys == data.Keys + Issued(cfg, issued, |blocks|)
            && data.Keys !! Issued(cfg, issued, |blocks|)
            && (forall d :: d in data ==> data'[d] == data[d])
  {
    IssuedDisjoint(cfg, issued, |blocks|);
    if blocks != [] {
      var n := |blocks| - 1;
      NewDataKeys(cfg, data, issued, blocks[..n]);
      IssuedMember(cfg, 0, issued, issued + n);
    }
  }

  /** The rows written for blocks lead to those blocks. */
  lemma {:induction false} NewRowsHold(cfg: Config, data: map<string, Bytes>, issued: nat, blocks: seq<Bytes>)
    requires DistinctIds(cfg) && data.Keys <= Issued(cfg, 0, issued)
    ensures Holds(NewRows(cfg, issued, |blocks|), NewData(cfg, data, issued, blocks), blocks)
  {
    if blocks != [] {
      var n := |blocks| - 1;
      NewRowsHold(cfg, data, issued, blocks[..n]);
      NewDataKeys(cfg, data, issued, blocks[..n]);
      IssuedMember(cfg, 0, issued, issued + n);
      IssuedMember(cfg, issued, n, issued + n);
      assert cfg.newId(issued + n) !in NewData(cfg, data, issued, blocks[..n]);
    }
  }

  lemma StoreBlocksEffect(cfg: Config, t: Tables, m: string, blocks: seq<Bytes>)
    requires DistinctIds(cfg) && t.documentsData.Keys <= Issued(cfg, 0, t.issued) && !HasRows(t, m) && blocks != []
    ensures var u := StoreBlocks(cfg, t, m, blocks);
            && u == t.(documents := u.documents, documentsData := u.documentsData, issued := u.issued)
            && HasRows(u, m) && u.documents == t.documents[m := u.documents[m]]
            && Holds(u.documents[m], u.documentsData, blocks)
            && u.documentsData.Keys == t.documentsData.Keys + DataIds(u.documents[m])
            && t.documentsData.Keys !! DataIds(u.documents[m])
            && u.documentsData.Keys <= Issued(cfg, 0, u.issued)
            && (forall d :: d in t.documentsData ==> u.documentsData[d] == t.documentsData[d])
  {
    var n := |blocks|;
    var rows, data' := NewRows(cfg, t.issued, n), NewData(cfg, t.documentsData, t.issued, blocks);
    assert map[] + rows == rows;
    var u := StoreBlocks(cfg, t, m, blocks);
    assert u == t.(documents := t.documents[m := rows], documentsData := data', issued := t.issued + n);
    assert u.documents[m] == rows;
    assert Holds(rows, data', blocks) by { NewRowsHold(cfg, t.documentsData, t.issued, blocks); }
    NewDataKeys(cfg, t.documentsData, t.issued, blocks);
    assert DataIds(rows) == Issued(cfg, t.issued, n) by { NewRowsIds(cfg, t.issued, n); }
    IssuedSplit(cfg, t.issued, n);
  }

  lemma StoreKeeps(cfg: Config, pool: iset<Bytes>, t: Tables, c: Bytes)
    requires Sound(cfg, pool) && DocumentsRep(cfg, pool, t) && ReferencesRep(t)
    requires c != [] && c in pool && !HasRows(t, cfg.md5(c))
    ensures var u := StoreDocument(cfg, t, cfg.md5(c), c);
            && DocumentsRep(cfg, pool, u) && ReferencesRep(u) && HasRows(u, cfg.md5(c))
            && u == t.(documents := u.documents, documentsData := u.documentsData, issued := u.issued)
  {
    assert Chunks(c) != [];
    var u := StoreDocument(cfg, t, cfg.md5(c), c);
    StoreBlocksEffect(cfg, t, cfg.md5(c), Chunks(c));
    NewDocumentKeeps(cfg, pool, t, u, c);
    forall r | r in u.byDocument ensures HasRows(u, r.0) { assert HasRows(t, r.0); }
  }

  /** A complete new document with fresh data ids leaves every other document as it was. */
  lemma NewDocumentKeeps(cfg: Config, pool: iset<Bytes>, t: Tables, u: Tables, c: Bytes)
    requires DocumentsRep(cfg, pool, t) && c != [] && c in pool
    requires var m := cfg.md5(c);
             && HasRows(u, m) && u.documents == t.documents[m := u.documents[m]]
             && Holds(u.documents[m], u.documentsData, Chunks(c)) && DataIds(u.documents[m]) !! t.documentsData.Keys
    requires u.documentsData.Keys <= Issued(cfg, 0, u.issued)
    requires forall d :: d in t.documentsData ==> d in u.documentsData && u.documentsData[d] == t.documentsData[d]
    ensures DocumentsRep(cfg, pool, u)
  {
    var m := cfg.md5(c);
    assert Stored(cfg, pool, u, m, c);
    forall x | x != m && HasRows(u, x)
      ensures exists c' :: Stored(cfg, pool, u, x, c')
      ensures DataIds(u.documents[x]) !! DataIds(u.documents[m])
    {
      assert HasRows(t, x);
      var c' := KeptDocument(cfg, pool, t, u, x);
    }
  }

  /** A document whose rows are the same in both states stays complete. */
  lemma KeptDocument(cfg: Config, pool: iset<Bytes>, t: Tables, u: Tables, x: string) returns (c: Bytes)
    requires HasRows(t, x) && HasRows(u, x) && u.documents[x] == t.documents[x]
    requires exists c :: Stored(cfg, pool, t, x, c)
    requires forall d :: d in DataIds(t.documents[x]) && d in t.documentsData ==>
               d in u.documentsData && u.documentsData[d] == t.documentsData[d]
    ensures Stored(cfg, pool, t, x, c) && Stored(cfg, pool, u, x, c)
    ensures forall d :: d in DataIds(t.documents[x]) ==> d in t.documentsData
  {
    c :| Stored(cfg, pool, t, x, c);
    var p := t.documents[x];
    assert forall j :: j in p ==> p[j] in DataIds(p);
    forall d | d in DataIds(p) ensures d in t.documentsData {
      var j :| j in p && p[j] == d;
    }
  }

  lemma ExtractFileKeeps(cfg: Config, pool: iset<Bytes>, t: Tables, f: FileData, id: string)
    requires Sound(cfg, pool) && DocumentsRep(cfg, pool, t) && ReferencesRep(t)
    requires f.content != [] ==> f.content in pool
    ensures var u := ExtractFile(cfg, t, f, id);
            && DocumentsRep(cfg, pool, u) && ReferencesRep(u)
            && u.byDocument == t.byDocument + (if f.content == [] then {} else {(cfg.md5(f.content), id)})
            && u.snapshots == t.snapshots && u.byUniqueId == t.byUniqueId && u.byModified == t.byModified
  {
    if f.content != [] {
      var m := cfg.md5(f.content);
      if !HasRows(t, m) { StoreKeeps(cfg, pool, t, f.content); }
      ReferenceAdded(cfg, pool, if HasRows(t, m) then t else StoreDocument(cfg, t, m, f.content), (m, id));
    }
  }

  /** Extraction adds references and complete documents and touches nothing else. */
  lemma {:induction false} ExtractKeeps(cfg: Config, pool: iset<Bytes>, t: Tables, files: seq<FileData>, id: string)
    requires Sound(cfg, pool) && DocumentsRep(cfg, pool, t) && ReferencesRep(t)
    requires forall f :: f in files && f.content != [] ==> f.content in pool
    ensures var u := Extract(cfg, t, files, id);
            && DocumentsRep(cfg, pool, u) && ReferencesRep(u) && Needs(cfg, pool, u, id, files)
            && t.byDocument <= u.byDocument
            && u.snapshots == t.snapshots && u.byUniqueId == t.byUniqueId && u.byModified == t.byModified
    decreases |files|
  {
    if files != [] {
      ExtractFileKeeps(cfg, pool, t, files[0], id);
      ExtractKeeps(cfg, pool, ExtractFile(cfg, t, files[0], id), files[1..], id);
      assert forall g :: g in files ==> g == files[0] || g in files[1..];
    }
  }

  lemma ReferenceAdded(cfg: Config, pool: iset<Bytes>, t: Tables, row: (string, string))
    requires DocumentsRep(cfg, pool, t) && ReferencesRep(t) && HasRows(t, row.0)
    ensures var u := t.(byDocument := t.byDocument + {row}); DocumentsRep(cfg, pool, u) && ReferencesRep(u)
  {
    SameDocuments(cfg, pool, t, t.(byDocument := t.byDocument + {row}));
  }

  /** The document part of the invariant depends on the document tables only. */
  lemma SameDocuments(cfg: Config, pool: iset<Bytes>, t: Tables, u: Tables)
    requires t.documents == u.documents && t.documentsData == u.documentsData && t.issued == u.issued
    requires DocumentsRep(cfg, pool, t)
    ensures DocumentsRep(cfg, pool, u)
    ensures forall m :: Content(u, m) == Content(t, m)
  {
    forall m | HasRows(u, m) ensures exists c :: Stored(cfg, pool, u, m, c) {
      assert HasRows(t, m);
      var c := KeptDocument(cfg, pool, t, u, m);
    }
  }

  // ---- dropping ----

  lemma DropKeeps(cfg: Config, pool: iset<Bytes>, t: Tables, m: string)
    requires DocumentsRep(cfg, pool, t) && ReferencesRep(t) && !Referenced(t, m)
    ensures DocumentsRep(cfg, pool, DropDocument(t, m)) && ReferencesRep(DropDocument(t, m))
  {
    var u := DropDocument(t, m);
    forall x | HasRows(u, x) ensures exists c :: Stored(cfg, pool, u, x, c) {
      assert HasRows(t, x) && x != m;
      var c := KeptDocument(cfg, pool, t, u, x);
    }
  }

  /** Dropping the files of `id` keeps every reference row of the other snapshots and every
      document they lead to. */
  lemma {:induction false} DropFilesKeeps(cfg: Config, pool: iset<Bytes>, t: Tables, files: seq<FileData>, id: string)
    requires DocumentsRep(cfg, pool, t) && ReferencesRep(t)
    ensures var u := DropFiles(cfg, t, files, id);
            && DocumentsRep(cfg, pool, u) && ReferencesRep(u)
            && (forall r :: r in t.byDocument && r.1 != id ==> r in u.byDocument)
            && u.snapshots == t.snapshots && u.byUniqueId == t.byUniqueId && u.byModified == t.byModified
    decreases |files|
  {
    if files != [] {
      if files[0].content == [] {
        DropFilesKeeps(cfg, pool, t, files[1..], id);
      } else {
        var m := cfg.md5(files[0].content);
        var t1 := t.(byDocument := t.byDocument - {(m, id)});
        SameDocuments(cfg, pool, t, t1);
        if !Referenced(t1, m) {
          DropKeeps(cfg, pool, t1, m);
          DropFilesKeeps(cfg, pool, DropDocument(t1, m), files[1..], id);
        }
      }
    }
  }
}
