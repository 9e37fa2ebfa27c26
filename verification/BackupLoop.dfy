/** Importing snapshots from a backup space. Backup and restore do not feed each other: an imported
    snapshot is not backed up again, the snapshots of later saves are. */
module BackupLoop {
  import opened Items
  import opened Ids
  import S = Snapshots
  import opened SnapshotServices
  import opened SnapshotRestore
  import Runs = WorkitemRuns
  import opened SyncServices
  import T = ArchiveTables
  import I = ArchiveInvariant
  import A = ArchiveRuns
  import opened SaveOutcomes
  import opened EventLog

  /** Whenever an add event for the snapshot is processed, its entry is removed and none is written. */
  ghost predicate NotBackedUp(st: Settings, docs: map<string, ItemCollection>, id: string) {
    forall y: State, k: nat :: k in y.log && y.log[k] == Event(TOPIC_ADD, id) ==>
      Process(st, docs, y, k).log == y.log - {k}
  }

  lemma MarkedIsNotBackedUp(st: Settings, docs: map<string, ItemCollection>, id: string)
    requires id in docs && BACKUPRESTORE in docs[id].items
    ensures NotBackedUp(st, docs, id)
  {
    forall y: State, k: nat | k in y.log && y.log[k] == Event(TOPIC_ADD, id)
      ensures Process(st, docs, y, k).log == y.log - {k}
    {
      PullEmits(st, docs, y, k);
      assert (y.log - {k}) + Placed(y.next, []) == y.log - {k};
    }
  }

  /** A snapshot that a restore imports with its marker is not backed up, and the marker does not reach the
      origin document. */
  lemma RestoredIsNotBackedUp(cfg: S.Settings, st: Settings, store: S.Store, snapshot: ItemCollection,
                               uid: string, t: string, marker: Value, ctx: S.Context)
    requires GetString(snapshot.items, TYPE) == S.TYPE_PREFIX + t && !(S.TYPE_PREFIX <= t) && t != "model"
    requires GetUniqueID(snapshot.UniqueId()) == Some(uid) && !GetBoolean(snapshot.items, S.NOSNAPSHOT)
    requires snapshot.UniqueId() !in store.documents
    ensures var id, after := snapshot.UniqueId(), S.PostSnapshot(cfg, store, Marked(snapshot, Some(marker)), ctx);
            && NotBackedUp(st, after.documents, id)
            && uid in after.documents && BACKUPRESTORE !in after.documents[uid].items
  {
    MarkerKeeps(snapshot, marker);
    PostingMovesReference(cfg, store, Marked(snapshot, Some(marker)), uid, t, ctx);
    var after := S.PostSnapshot(cfg, store, Marked(snapshot, Some(marker)), ctx);
    MarkedIsNotBackedUp(st, after.documents, snapshot.UniqueId());
  }

  lemma MarkerKeeps(snapshot: ItemCollection, marker: Value)
    ensures var m := Marked(snapshot, Some(marker));
            && m.UniqueId() == snapshot.UniqueId() && GetString(m.items, TYPE) == GetString(snapshot.items, TYPE)
            && GetBoolean(m.items, S.NOSNAPSHOT) == GetBoolean(snapshot.items, S.NOSNAPSHOT) && BACKUPRESTORE in m.items
  {
  }

  /** A later save of a document without the marker is backed up, whatever the archive holds: processing its
      event writes one main event and one per mirror unless the pull fails. */
  lemma LaterSaveIsBackedUp(cfg: S.Settings, st: Settings, store: S.Store, doc: ItemCollection, ctx: S.Context,
          y: State, k: nat)
    requires S.TakesSnapshot(doc) && BACKUPRESTORE !in doc.items
    requires k in y.log && y.log[k] == Event(TOPIC_ADD, S.NewSnapshotID(doc, ctx))
    ensures var s, id := S.NewSnapshot(cfg, store, doc, ctx), S.NewSnapshotID(doc, ctx);
            Process(st, S.Save(cfg, store, doc, ctx).documents, y, k).log
            == (y.log - {k}) + Placed(y.next, if PullFails(st.cfg, y.t, s) then [] else Fan(st, id))
  {
    SavedFacts(cfg, store, doc, ctx);
    PullEmits(st, S.Save(cfg, store, doc, ctx).documents, y, k);
  }

  // ---- from a save to the archive ----

  /** The event that a save writes leads the archive to the snapshot that the save made: once the event
      is processed, the archive returns that snapshot with all its contents exactly if its own history
      cleanup leaves it and its checksum attributes lead to the contents. In the log the event is
      replaced by the backup events, and by none if the document carried the restore marker or the
      archive's save fails. */
  lemma SavedSnapshotReachesArchive(cfg: S.Settings, st: Settings, pool: iset<Bytes>, view: I.View, store: S.Store,
                                    doc: ItemCollection, ctx: S.Context, y: State, k: nat)
    requires S.TakesSnapshot(doc) && cfg.archive
    requires I.Sound(st.cfg, pool) && I.Rep(st.cfg, pool, y.t, view) && S.NewSnapshotID(doc, ctx) !in view
    requires A.Admissible(pool, T.Save(S.NewSnapshot(cfg, store, doc, ctx)))
    requires var log := S.Save(cfg, store, doc, ctx).log; log != [] && k in y.log && y.log[k] == log[|log| - 1]
    ensures var saved, s := S.Save(cfg, store, doc, ctx), S.NewSnapshot(cfg, store, doc, ctx);
            var y' := Process(st, saved.documents, y, k);
            && (T.LoadSnapshot(y'.t, Runs.CurrentId(saved, doc.UniqueId())) == s <==>
                s.UniqueId() in A.ViewSave(view, s) && forall f :: f in s.files ==> A.LoadsBack(st.cfg, y'.t, f))
            && y'.log == (y.log - {k})
                         + Placed(y.next, if BACKUPRESTORE in doc.items || SaveFails(view, s) then []
                                          else Fan(st, s.UniqueId()))
  {
    SavedFacts(cfg, store, doc, ctx);
    SavedEvent(cfg, store, doc, ctx);
    EventArchives(st, pool, view, S.Save(cfg, store, doc, ctx).documents, S.NewSnapshot(cfg, store, doc, ctx), y, k);
  }

  lemma SavedFacts(cfg: S.Settings, store: S.Store, doc: ItemCollection, ctx: S.Context)
    requires S.TakesSnapshot(doc)
    ensures var saved, id, s := S.Save(cfg, store, doc, ctx), S.NewSnapshotID(doc, ctx),
              S.NewSnapshot(cfg, store, doc, ctx);
            && id in saved.documents && saved.documents[id] == s && s.UniqueId() == id
            && Runs.CurrentId(saved, doc.UniqueId()) == id && (BACKUPRESTORE in s.items <==> BACKUPRESTORE in doc.items)
  {
    var id := S.NewSnapshotID(doc, ctx);
    Runs.SavedDocuments(cfg, store, doc, ctx);
    SavedItems(cfg, store, doc, ctx);
    MarkerCopied(doc.items, id, GetString(doc.items, TYPE));
    OriginTexts(doc.items, id, S.LastSnapshot(store, doc).Some?);
    SnapshotTexts(doc.items, id, GetString(doc.items, TYPE), None);
  }

  /** Processing the add event of a document archives it, and it is loaded back as it is exactly if its
      own history cleanup leaves it and the checksum attributes of its files lead to their contents. */
  lemma EventArchives(st: Settings, pool: iset<Bytes>, view: I.View, docs: map<string, ItemCollection>,
          s: ItemCollection, y: State, k: nat)
    requires I.Sound(st.cfg, pool) && I.Rep(st.cfg, pool, y.t, view) && s.UniqueId() !in view
    requires A.Admissible(pool, T.Save(s)) && s.UniqueId() in docs && docs[s.UniqueId()] == s
    requires s.UniqueId() != "" && s.UniqueId() != T.METADATA
    requires k in y.log && IsAdd(y.log[k]) && y.log[k].ref == s.UniqueId()
    ensures var y' := Process(st, docs, y, k);
            && (T.LoadSnapshot(y'.t, s.UniqueId()) == s <==>
                s.UniqueId() in A.ViewSave(view, s) && forall f :: f in s.files ==> A.LoadsBack(st.cfg, y'.t, f))
            && y'.log == (y.log - {k})
                         + Placed(y.next, if BACKUPRESTORE in s.items || SaveFails(view, s) then []
                                          else Fan(st, s.UniqueId()))
  {
    ProcessTables(st, docs, y, k);
    A.SaveThenLoad(st.cfg, pool, y.t, view, s);
    PullFailsExactly(st.cfg, pool, y.t, view, s);
    PullEmits(st, docs, y, k);
  }

  lemma SavedEvent(cfg: S.Settings, store: S.Store, doc: ItemCollection, ctx: S.Context)
    requires S.TakesSnapshot(doc) && cfg.archive
    ensures S.Save(cfg, store, doc, ctx).log == store.log + [Event(TOPIC_ADD, S.NewSnapshotID(doc, ctx))]
    ensures IsAdd(Event(TOPIC_ADD, S.NewSnapshotID(doc, ctx)))
    ensures S.NewSnapshotID(doc, ctx) != "" && S.NewSnapshotID(doc, ctx) != T.METADATA
  {
    IdRoundTrip(doc.UniqueId(), ctx.idTime);
    assert GetUniqueID(T.METADATA) == None && GetUniqueID("") == None;
  }

  lemma MarkerCopied(items: Attributes, id: string, t: string)
    ensures BACKUPRESTORE in SnapshotItems(items, id, t) <==> BACKUPRESTORE in items
  {
  }

  // ---- the import ----

  /** A file of a backup space as the snapshot service makes its snapshots. */
  predicate IsBackup(s: ItemCollection) {
    var t := GetString(s.items, TYPE);
    && GetUniqueID(s.UniqueId()).Some? && S.TYPE_PREFIX <= t
    && !(S.TYPE_PREFIX <= t[|S.TYPE_PREFIX|..]) && t[|S.TYPE_PREFIX|..] != "model" && !GetBoolean(s.items, S.NOSNAPSHOT)
  }

  function Origin(s: ItemCollection): string {
    if GetUniqueID(s.UniqueId()).Some? then GetUniqueID(s.UniqueId()).value else ""
  }

  /** A snapshot the instance does not have is marked and posted. */
  function ImportOne(cfg: S.Settings, store: S.Store, s: ItemCollection, marker: Value, ctx: S.Context): S.Store {
    if s.UniqueId() in store.documents then store else S.PostSnapshot(cfg, store, Marked(s, Some(marker)), ctx)
  }

  function ImportAll(cfg: S.Settings, store: S.Store, files: seq<ItemCollection>, marker: Value,
          ctx: S.Context): S.Store
    decreases |files|
  {
    if files == [] then store else ImportAll(cfg, ImportOne(cfg, store, files[0], marker, ctx), files[1..], marker, ctx)
  }

  class RestoreService {
    const instance: SnapshotService

    constructor (instance: SnapshotService)
      ensures this.instance == instance
    {
      this.instance := instance;
    }

    /** Imports the files of a backup space unless the run is cancelled; returns how many were read. */
    method Import(files: seq<ItemCollection>, marker: Value, ctx: S.Context, canceled: nat -> bool)
      returns (verified: nat)
      requires forall f :: f in files ==> f.WellFormed()
      modifies instance
      ensures verified <= |files|
      ensures instance.S() == ImportAll(instance.cfg, old(instance.S()), files[..verified], marker, ctx)
      ensures verified < |files| ==> verified > 0 && canceled(verified)
    {
      verified := 0;
      while verified < |files|
        invariant verified <= |files|
        invariant instance.S() == ImportAll(instance.cfg, old(instance.S()), files[..verified], marker, ctx)
      {
        var snapshot := files[verified];
        ImportAppend(instance.cfg, old(instance.S()), files[..verified], snapshot, marker, ctx);
        assert files[..verified + 1] == files[..verified] + [snapshot];
        if snapshot.UniqueId() !in instance.documents {
          assert snapshot in files && snapshot.Set(BACKUPRESTORE, marker).WellFormed();
          instance.PostSnapshot(snapshot.Set(BACKUPRESTORE, marker), ctx);
        }
        verified := verified + 1;
        if canceled(verified) { return; }
      }
    }
  }

  lemma {:induction false} ImportAppend(cfg: S.Settings, store: S.Store, files: seq<ItemCollection>, s: ItemCollection,
          marker: Value, ctx: S.Context)
    ensures ImportAll(cfg, store, files + [s], marker, ctx) ==
              ImportOne(cfg, ImportAll(cfg, store, files, marker, ctx), s, marker, ctx)
    decreases |files|
  {
    if files == [] {
      assert (files + [s])[1..] == [];
    } else {
      assert (files + [s])[1..] == files[1..] + [s];
      ImportAppend(cfg, ImportOne(cfg, store, files[0], marker, ctx), files[1..], s, marker, ctx);
    }
  }

  /** Importing a snapshot the instance does not have adds it with its marker and makes it the current
      one of its origin; all other documents stay as they are. */
  lemma ImportOneEffect(cfg: S.Settings, store: S.Store, s: ItemCollection, marker: Value, ctx: S.Context)
    requires IsBackup(s)
    ensures var after, id, uid := ImportOne(cfg, store, s, marker, ctx), s.UniqueId(), Origin(s);
            && (forall x :: x != uid && x != id ==> after.Load(x) == store.Load(x))
            && (id in store.documents ==> after == store)
            && (id !in store.documents ==> Recovered(after, s, marker))
  {
    if s.UniqueId() !in store.documents {
      var t := GetString(s.items, TYPE);
      assert t == S.TYPE_PREFIX + t[|S.TYPE_PREFIX|..];
      MarkerKeeps(s, marker);
      PostingMovesReference(cfg, store, Marked(s, Some(marker)), Origin(s), t[|S.TYPE_PREFIX|..], ctx);
    }
  }

  /** The origin of a snapshot refers to it again and can read its files; the origin has no marker. */
  ghost predicate Recovered(store: S.Store, s: ItemCollection, marker: Value) {
    && store.Load(s.UniqueId()) == Some(Marked(s, Some(marker)))
    && Runs.CurrentId(store, Origin(s)) == s.UniqueId() && Runs.CurrentFiles(store, Origin(s)) == s.files
    && Origin(s) in store.documents && BACKUPRESTORE !in store.documents[Origin(s)].items
  }

  /** The files of different origins, none of whose ids is an origin of another file. */
  ghost predicate Separate(files: seq<ItemCollection>) {
    && (forall i, j :: 0 <= i < j < |files| ==>
          Origin(files[i]) != Origin(files[j]) && files[i].UniqueId() != files[j].UniqueId())
    && (forall i, j :: 0 <= i < |files| && 0 <= j < |files| ==> Origin(files[i]) != files[j].UniqueId())
  }

  lemma RecoveredStays(store: S.Store, store': S.Store, s: ItemCollection, marker: Value)
    requires Recovered(store, s, marker) && store'.Load(s.UniqueId()) == store.Load(s.UniqueId())
    requires store'.Load(Origin(s)) == store.Load(Origin(s))
    ensures Recovered(store', s, marker)
  {
  }

  lemma {:induction false} ImportTouches(cfg: S.Settings, store: S.Store, files: seq<ItemCollection>, marker: Value,
          ctx: S.Context, x: string)
    requires (forall f :: f in files ==> IsBackup(f)) && forall f :: f in files ==> x != Origin(f) && x != f.UniqueId()
    ensures ImportAll(cfg, store, files, marker, ctx).Load(x) == store.Load(x)
    decreases |files|
  {
    if files != [] {
      assert files[0] in files && forall f :: f in files[1..] ==> f in files;
      ImportOneEffect(cfg, store, files[0], marker, ctx);
      ImportTouches(cfg, ImportOne(cfg, store, files[0], marker, ctx), files[1..], marker, ctx, x);
    }
  }

  /** Importing a whole backup space recovers the workitem of every file whose snapshot the instance did
      not have: its document refers to the snapshot and reads the backed-up files from it. Where the
      instance has the snapshot already, the workitem is left as it is. No import is backed up again. */
  lemma {:induction false} ImportRecovers(cfg: S.Settings, st: Settings, store: S.Store, files: seq<ItemCollection>,
          marker: Value, ctx: S.Context, i: nat)
    requires (forall f :: f in files ==> IsBackup(f)) && Separate(files) && i < |files|
    ensures var after, id := ImportAll(cfg, store, files, marker, ctx), files[i].UniqueId();
            && (id !in store.documents ==>
                  Recovered(after, files[i], marker) && NotBackedUp(st, after.documents, id))
            && (id in store.documents ==>
                  after.Load(id) == store.Load(id) && after.Load(Origin(files[i])) == store.Load(Origin(files[i])))
    decreases |files|
  {
    var first, rest := ImportOne(cfg, store, files[0], marker, ctx), files[1..];
    assert files[0] in files && forall f :: f in rest ==> f in files;
    ImportOneEffect(cfg, store, files[0], marker, ctx);
    if i == 0 {
      ImportFirst(cfg, st, store, files, marker, ctx);
    } else {
      SeparateRest(files);
      ImportRecovers(cfg, st, first, rest, marker, ctx, i - 1);
      assert files[0].UniqueId() != files[i].UniqueId() && Origin(files[0]) != Origin(files[i]);
      assert Origin(files[0]) != files[i].UniqueId() && Origin(files[i]) != files[0].UniqueId();
      assert first.Load(files[i].UniqueId()) == store.Load(files[i].UniqueId());
    }
  }

  /** The first file of an import: the later ones do not touch its documents. */
  lemma ImportFirst(cfg: S.Settings, st: Settings, store: S.Store, files: seq<ItemCollection>, marker: Value,
          ctx: S.Context)
    requires (forall f :: f in files ==> IsBackup(f)) && Separate(files) && files != []
    ensures var after, id := ImportAll(cfg, store, files, marker, ctx), files[0].UniqueId();
            && (id !in store.documents ==>
                  Recovered(after, files[0], marker) && NotBackedUp(st, after.documents, id))
            && (id in store.documents ==>
                  after.Load(id) == store.Load(id) && after.Load(Origin(files[0])) == store.Load(Origin(files[0])))
  {
    var first, rest, after := ImportOne(cfg, store, files[0], marker, ctx), files[1..],
        ImportAll(cfg, store, files, marker, ctx);
    assert files[0] in files && forall f :: f in rest ==> f in files;
    ImportOneEffect(cfg, store, files[0], marker, ctx);
    OthersDiffer(files);
    ImportTouches(cfg, first, rest, marker, ctx, files[0].UniqueId());
    ImportTouches(cfg, first, rest, marker, ctx, Origin(files[0]));
    if files[0].UniqueId() !in store.documents {
      RecoveredStays(first, after, files[0], marker);
      MarkerKeeps(files[0], marker);
      MarkedIsNotBackedUp(st, after.documents, files[0].UniqueId());
    }
  }

  lemma OthersDiffer(files: seq<ItemCollection>)
    requires Separate(files) && files != []
    ensures forall f :: f in files[1..] ==> Origin(files[0]) != Origin(f) && Origin(files[0]) != f.UniqueId()
                                            && files[0].UniqueId() != Origin(f) && files[0].UniqueId() != f.UniqueId()
  {
    forall f | f in files[1..] ensures Origin(files[0]) != Origin(f) && Origin(files[0]) != f.UniqueId()
                                       && files[0].UniqueId() != Origin(f) && files[0].UniqueId() != f.UniqueId() {
      var k :| 0 <= k < |files[1..]| && files[1..][k] == f;
      assert files[k + 1] == f;
    }
  }

  lemma SeparateRest(files: seq<ItemCollection>)
    requires Separate(files) && files != []
    ensures Separate(files[1..])
  {
    var rest := files[1..];
    assert forall i :: 0 <= i < |rest| ==> rest[i] == files[i + 1];
  }
}
