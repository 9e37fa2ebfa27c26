/** The compactor removes old local snapshots that the archive can return, and snapshots are looked
    up in the archive once they are gone. */
module Compactors {
  import opened Order
  import opened Items
  import opened Ids
  import opened Snapshots
  import A = ArchiveTables
  import I = ArchiveInvariant
  import R = ArchiveRuns
  import Safety = SnapshotSafety
  import Runs = WorkitemRuns

  /** The answer of the archive: an exception, or a list of documents. */
  datatype Answer = Failed | Found(documents: seq<ItemCollection>)
  type Remote = string -> Answer

  /** The snapshot of a workitem: the local one, or else the first that the archive returns. */
  function FindSnapshot(documents: map<string, ItemCollection>, remote: Remote,
          workitem: ItemCollection): Option<ItemCollection> {
    var id := GetString(workitem.items, SNAPSHOTID);
    if id == "" then None
    else if id in documents then Some(documents[id])
    else match remote(id)
         case Failed => None
         case Found(list) => if list == [] then None else Some(list[0])
  }

  /** What a query for old snapshots of finished workitems may return. */
  ghost predicate IsBatch(documents: map<string, ItemCollection>, before: int, limit: nat, batch: seq<string>) {
    && |batch| <= limit && |Elements(batch)| == |batch|
    && (forall id :: id in batch ==> id in documents && IsOldSnapshot(documents[id], before))
  }

  predicate IsOldSnapshot(s: ItemCollection, before: int) {
    var t, modified := GetString(s.items, TYPE), GetDate(s.items, MODIFIED);
    (t == "snapshot-workitemarchive" || t == "snapshot-workitemarchivedeleted" || t == "snapshot-workitemdeleted")
    && modified.Some? && modified.value < before
  }

  predicate Returned(remote: Remote, id: string) { remote(id).Found? && remote(id).documents != [] }

  /** The snapshots a run removes. */
  function Removable(remote: Remote, batch: seq<string>, denied: set<string>): set<string> {
    set id | id in batch && Returned(remote, id) && id !in denied
  }

  /** The id the job takes for that of the origin: the part after the last dash. */
  function TakenForOrigin(id: string): string { id[LastIndexOf(id, '-') + 1..] }

  /** What a run is given: the configuration of the saves, the archive, the snapshots whose removal is denied,
      the clock and user of a save, and whether snapshots are removed at all. */
  datatype Job = Job(cfg: Settings, remote: Remote, denied: set<string>, context: string -> Context, doDelete: bool)

  /** A snapshot that the archive returns is removed; for one that it does not have the document taken for
      its origin is saved again. */
  function CompactOne(job: Job, store: Store, id: string): Store {
    if Returned(job.remote, id) then
      if job.doDelete && id !in job.denied then store.(documents := store.documents - {id}) else store
    else
      var origin := TakenForOrigin(id);
      if job.remote(id).Found? && origin in store.documents
      then Save(job.cfg, store, store.documents[origin], job.context(id)) else store
  }

  function CompactAll(job: Job, store: Store, batch: seq<string>): Store {
    if batch == [] then store
    else CompactOne(job, CompactAll(job, store, batch[..|batch| - 1]), batch[|batch| - 1])
  }

  /** The number of removals of a run. */
  function Deletions(job: Job, batch: seq<string>): nat {
    if job.doDelete then |Removable(job.remote, batch, job.denied)| else 0
  }

  /** The documents are left but for the removed snapshots, unless a document has as its id the time stamp of a
      snapshot that the archive does not have. */
  lemma {:induction false} CompactAllRemoves(job: Job, store: Store, batch: seq<string>)
    requires |Elements(batch)| == |batch|
    requires forall id :: id in batch && job.remote(id) == Found([]) ==> TakenForOrigin(id) !in store.documents
    ensures var gone := if job.doDelete then Removable(job.remote, batch, job.denied) else {};
            CompactAll(job, store, batch) == store.(documents := store.documents - gone)
  {
    if batch == [] {
      assert Removable(job.remote, batch, job.denied) == {};
      assert store.documents - {} == store.documents;
    } else {
      var n := |batch| - 1;
      assert batch[..n + 1] == batch && batch[n] in batch && forall id :: id in batch[..n] ==> id in batch;
      RemovableStep(job.remote, batch, job.denied, n);
      DistinctPrefix(batch, n);
      CompactAllRemoves(job, store, batch[..n]);
      CompactOneRemoves(job, CompactAll(job, store, batch[..n]), batch[n]);
      TwiceLess(store.documents, if job.doDelete then Removable(job.remote, batch[..n], job.denied) else {},
                if job.doDelete && Returned(job.remote, batch[n]) && batch[n] !in job.denied then {batch[n]} else {});
    }
  }

  lemma CompactOneRemoves(job: Job, store: Store, id: string)
    requires job.remote(id) == Found([]) ==> TakenForOrigin(id) !in store.documents
    ensures var gone := if job.doDelete && Returned(job.remote, id) && id !in job.denied then {id} else {};
            CompactOne(job, store, id) == store.(documents := store.documents - gone)
  {
    var answer := job.remote(id);
    if answer.Found? && answer.documents == [] { assert answer == Found([]); }
    EmptyLess(store);
  }

  lemma EmptyLess(store: Store)
    ensures store.(documents := store.documents - {}) == store
  {
  }

  lemma TwiceLess(m: map<string, ItemCollection>, a: set<string>, b: set<string>)
    ensures m - a - b == m - (a + b)
  {
  }

  /** With deletion on, a snapshot of the batch is removed exactly if the archive answers with a document and the
      removal is not denied, and without it none is. */
  lemma RemovedExactly(job: Job, store: Store, batch: seq<string>, id: string)
    requires |Elements(batch)| == |batch| && id in batch && id in store.documents
    requires forall x :: x in batch && job.remote(x) == Found([]) ==> TakenForOrigin(x) !in store.documents
    ensures id in CompactAll(job, store, batch).documents <==>
            || !job.doDelete || id in job.denied
            || match job.remote(id)
               case Failed => true
               case Found(documents) => documents == []
  {
    CompactAllRemoves(job, store, batch);
  }

  /** The count of a run is the number of documents that it removes. */
  lemma CountIsExact(job: Job, store: Store, batch: seq<string>)
    requires |Elements(batch)| == |batch| && Elements(batch) <= store.documents.Keys
    requires forall id :: id in batch && job.remote(id) == Found([]) ==> TakenForOrigin(id) !in store.documents
    ensures |CompactAll(job, store, batch).documents| == |store.documents| - Deletions(job, batch)
  {
    var gone := if job.doDelete then Removable(job.remote, batch, job.denied) else {};
    CompactAllRemoves(job, store, batch);
    assert gone <= store.documents.Keys;
    assert (store.documents - gone).Keys == store.documents.Keys - gone;
  }

  /** What a run removes is an old snapshot of an archived or deleted workitem. */
  lemma OnlyOldAreRemoved(job: Job, store: Store, batch: seq<string>, before: int, limit: nat, id: string)
    requires IsBatch(store.documents, before, limit, batch)
    requires forall x :: x in batch && job.remote(x) == Found([]) ==> TakenForOrigin(x) !in store.documents
    requires id in store.documents && id !in CompactAll(job, store, batch).documents
    ensures var items := store.documents[id].items;
            && GetString(items, "type") in ["snapshot-workitemarchive", "snapshot-workitemarchivedeleted",
                                            "snapshot-workitemdeleted"]
            && GetDate(items, "$modified").Some? && GetDate(items, "$modified").value < before
    ensures id in batch && |batch| <= limit
  {
    CompactAllRemoves(job, store, batch);
  }

  /** If a document has as its id the time of a snapshot that the archive does not have, it is saved again and so
      gets a new snapshot. */
  lemma MissingIsRefreshed(job: Job, store: Store, uid: string, time: nat)
    requires job.remote(MakeSnapshotID(uid, time)) == Found([])
    requires Decimal(time) in store.documents && TakesSnapshot(store.documents[Decimal(time)])
    ensures var id, doc := MakeSnapshotID(uid, time), store.documents[Decimal(time)];
            MakeSnapshotID(doc.UniqueId(), job.context(id).idTime) in CompactOne(job, store, id).documents
  {
    var id, doc := MakeSnapshotID(uid, time), store.documents[Decimal(time)];
    TimeIsTakenForOrigin(uid, time);
    Runs.SavedDocuments(job.cfg, store, doc, job.context(id));
  }

  /** The part of a snapshot id that is taken for the id of its origin is the time. */
  lemma TimeIsTakenForOrigin(uid: string, time: nat)
    ensures TakenForOrigin(MakeSnapshotID(uid, time)) == Decimal(time)
  {
    LastDash(uid, Decimal(time));
  }

  lemma DistinctPrefix(batch: seq<string>, n: nat)
    requires |Elements(batch)| == |batch| && n <= |batch|
    ensures |Elements(batch[..n])| == n
  {
    forall i, j | 0 <= i < j < n ensures batch[..n][i] != batch[..n][j] {
      CountMeansDistinct(batch, j);
      assert batch[..j][i] == batch[i];
    }
    DistinctCount(batch[..n]);
  }

  class CompactorJob {
    var store: Store
    const job: Job

    constructor (store: Store, job: Job)
      ensures this.store == store && this.job == job
    {
      this.store, this.job := store, job;
    }

    /** Selects a batch and removes what the archive returns; a grace period below one year is refused. */
    method ProcessSnapshotBatchWithFinding(period: int, found: seq<string>, ghost before: int, ghost limit: nat)
      returns (processed: Option<(nat, nat)>)
      requires IsBatch(store.documents, before, limit, found)
      modifies `store
      ensures processed.None? <==> period < 1
      ensures store == if period >= 1 then CompactAll(job, old(store), found) else old(store)
      ensures period >= 1 ==> processed == Some((|found|, Deletions(job, found)))
    {
      if period < 1 { return None; }
      if found == [] {
        assert Removable(job.remote, found, job.denied) == {};
        return Some((0, 0));
      }
      var deletions := ProcessSnapshotBatch(found);
      processed := Some((|found|, deletions));
    }

    /** Removes the snapshots of a batch that the archive returns, and saves the others' documents again. */
    method ProcessSnapshotBatch(batch: seq<string>) returns (deletions: nat)
      requires |Elements(batch)| == |batch|
      modifies `store
      ensures store == CompactAll(job, old(store), batch) && deletions == Deletions(job, batch)
    {
      deletions := 0;
      ghost var first := store;
      var i := 0;
      while i < |batch|
        invariant i <= |batch| && store == CompactAll(job, first, batch[..i]) && deletions == Deletions(job, batch[..i])
      {
        assert batch[..i + 1][..i] == batch[..i];
        DeletionsStep(job, batch, i);
        var removed := ProcessSnapshot(batch[i]);
        if removed { deletions := deletions + 1; }
        i := i + 1;
      }
      assert batch[..i] == batch;
    }

    /** Removes one snapshot, or saves the document taken for its origin. */
    method ProcessSnapshot(id: string) returns (removed: bool)
      modifies `store
      ensures store == CompactOne(job, old(store), id)
      ensures removed <==> job.doDelete && Returned(job.remote, id) && id !in job.denied
    {
      removed := false;
      if Returned(job.remote, id) {
        if job.doDelete && id !in job.denied {
          store := store.(documents := store.documents - {id});
          removed := true;
        }
      } else if job.remote(id).Found? {
        var origin := TakenForOrigin(id);
        if origin in store.documents { store := Save(job.cfg, store, store.documents[origin], job.context(id)); }
      }
    }
  }

  lemma DeletionsStep(job: Job, batch: seq<string>, i: nat)
    requires i < |batch| && |Elements(batch)| == |batch|
    ensures Deletions(job, batch[..i + 1]) == Deletions(job, batch[..i])
            + if job.doDelete && Returned(job.remote, batch[i]) && batch[i] !in job.denied then 1 else 0
  {
    RemovableStep(job.remote, batch, job.denied, i);
  }

  lemma RemovableStep(remote: Remote, batch: seq<string>, denied: set<string>, i: nat)
    requires i < |batch| && |Elements(batch)| == |batch|
    ensures Removable(remote, batch[..i + 1], denied)
            == Removable(remote, batch[..i], denied)
               + if Returned(remote, batch[i]) && batch[i] !in denied then {batch[i]} else {}
    ensures batch[i] !in Removable(remote, batch[..i], denied)
  {
    CountMeansDistinct(batch, i);
    assert batch[..i + 1] == batch[..i] + [batch[i]];
  }

  ghost predicate AnswersAsBefore(documents: map<string, ItemCollection>, after: map<string, ItemCollection>,
          remote: Remote) {
    forall w: ItemCollection :: FindSnapshot(after, remote, w) == FindSnapshot(documents, remote, w)
  }

  /** A run is invisible to all readers exactly when the archive returns every removed snapshot as
      it was stored locally. */
  lemma CompactionIsInvisible(documents: map<string, ItemCollection>, remote: Remote, batch: seq<string>,
          denied: set<string>)
    requires "" !in documents && forall id :: id in batch ==> id in documents
    ensures AnswersAsBefore(documents, documents - Removable(remote, batch, denied), remote)
            <==> forall id :: id in Removable(remote, batch, denied) ==> remote(id).documents[0] == documents[id]
  {
    var gone := Removable(remote, batch, denied);
    var after := documents - gone;
    forall w: ItemCollection
      ensures FindSnapshot(after, remote, w) == FindSnapshot(documents, remote, w)
              <==> (GetString(w.items, SNAPSHOTID) in gone ==>
                      remote(GetString(w.items, SNAPSHOTID)).documents[0] == documents[GetString(w.items, SNAPSHOTID)])
    {
    }
    if AnswersAsBefore(documents, after, remote) {
      forall id | id in gone ensures remote(id).documents[0] == documents[id] {
        var w := ItemCollection(map[SNAPSHOTID := [Text(id)]], []);
        assert GetString(w.items, SNAPSHOTID) == id;
        assert FindSnapshot(after, remote, w) == FindSnapshot(documents, remote, w);
      }
    }
  }

  // ---- the archive as the remote service ----

  /** The path of the archive's REST interface accepts these ids. */
  predicate IsPath(id: string) { HexDashAny(id, 8) || HexDashAny(id, 11) }

  /** The archive answers every accepted id with one document, the empty one if it has no such snapshot. */
  function ArchiveAnswer(t: A.Tables): Remote {
    (id: string) => if IsPath(id) then Found([A.LoadSnapshot(t, id)]) else Failed
  }

  lemma ArchivedIdsArePaths(id: string)
    requires IsSnapshotID(id)
    ensures IsPath(id)
  {
    if IsUuidSnapshotID(id) { UuidIsHexDashAny(id); }
  }

  /** Against an archive that represents `view` a run is invisible exactly when every removed
      snapshot is in the archive and is loaded back as it was stored locally. */
  lemma CompactionOverArchive(cfg: A.Config, pool: iset<Bytes>, t: A.Tables, view: I.View,
                              documents: map<string, ItemCollection>, batch: seq<string>, denied: set<string>)
    requires I.Sound(cfg, pool) && I.Rep(cfg, pool, t, view)
    requires "" !in documents && A.METADATA !in batch
    requires forall id :: id in batch ==> id in documents && documents[id].UniqueId() == id
    ensures var gone := Removable(ArchiveAnswer(t), batch, denied);
            AnswersAsBefore(documents, documents - gone, ArchiveAnswer(t))
            <==> forall id :: id in gone ==> id in view && A.LoadSnapshot(t, id) == documents[id]
  {
    var gone := Removable(ArchiveAnswer(t), batch, denied);
    CompactionIsInvisible(documents, ArchiveAnswer(t), batch, denied);
    forall id | id in gone && id !in view ensures A.LoadSnapshot(t, id) != documents[id] {
      assert id !in t.snapshots;
      assert EMPTY.UniqueId() == "";
    }
  }

  /** If every removed snapshot was archived as it was stored locally, a run is invisible exactly when
      the checksum attributes of the files lead to their contents. */
  lemma ArchivedCompaction(
    cfg: A.Config, pool: iset<Bytes>, t: A.Tables, view: I.View,
    documents: map<string, ItemCollection>, batch: seq<string>, denied: set<string>
  )
    requires I.Sound(cfg, pool) && I.Rep(cfg, pool, t, view)
    requires "" !in documents && A.METADATA !in batch
    requires forall id :: id in batch ==> id in documents && documents[id].UniqueId() == id
    requires forall id :: id in Removable(ArchiveAnswer(t), batch, denied) ==> id in view && view[id] == documents[id]
    ensures var gone := Removable(ArchiveAnswer(t), batch, denied);
            AnswersAsBefore(documents, documents - gone, ArchiveAnswer(t)) <==>
            forall id, f :: id in gone && f in documents[id].files ==> R.LoadsBack(cfg, t, f)
  {
    var gone := Removable(ArchiveAnswer(t), batch, denied);
    CompactionOverArchive(cfg, pool, t, view, documents, batch, denied);
    forall id | id in gone
      ensures A.LoadSnapshot(t, id) == documents[id] <==>
                forall f :: f in documents[id].files ==> R.LoadsBack(cfg, t, f)
    {
      R.LoadReturnsSaved(cfg, pool, t, view, id);
    }
  }

  /** A snapshot that was never archived is removed all the same, and from then on its workitem's
      snapshot is found as an empty document. */
  lemma UnarchivedIsLost(t: A.Tables, documents: map<string, ItemCollection>, batch: seq<string>, id: string,
          workitem: ItemCollection)
    requires id in batch && IsSnapshotID(id) && id !in t.snapshots && GetString(workitem.items, SNAPSHOTID) == id
    ensures FindSnapshot(documents - Removable(ArchiveAnswer(t), batch, {}), ArchiveAnswer(t), workitem) == Some(EMPTY)
  {
    ArchivedIdsArePaths(id);
    assert id != "";
  }

  /** A snapshot with files made by the snapshot service, once archived, is loaded back unchanged exactly
      when each of its contents carries a checksum, and a single byte that of its own. */
  lemma ServiceSnapshotsLoadBack(cfg: A.Config, settings: Settings, pool: iset<Bytes>, t: A.Tables, view: I.View,
          id: string)
    requires I.Sound(cfg, pool) && I.Rep(cfg, pool, t, view) && id in view && cfg.md5 == settings.md5
    requires Safety.Inv(settings, pool, view[id].files)
    ensures A.LoadSnapshot(t, id) == view[id] <==> forall f :: f in view[id].files ==> CarriesChecksum(cfg, f)
  {
    R.LoadReturnsSaved(cfg, pool, t, view, id);
    forall f | f in view[id].files ensures R.LoadsBack(cfg, t, f) <==> CarriesChecksum(cfg, f) {
      assert Safety.FileOk(settings, pool, f);
    }
  }

  /** The service gives a checksum to longer contents only, so a single byte has one only if it was
      uploaded with it. */
  predicate CarriesChecksum(cfg: A.Config, f: FileData) {
    f.content != [] ==> f.Md5Attribute() != "" && (|f.content| == 1 ==> f.Md5Attribute() == cfg.md5(f.content))
  }
}
