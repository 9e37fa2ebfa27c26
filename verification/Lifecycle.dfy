/** The instance and the archive together: over any run of saves, pulls, compactions and deletions in the
    archive the lookup of a snapshot answers with what the save made, as long as one of the two holds it. */
module Lifecycle {
  import opened Items
  import opened Ids
  import S = Snapshots
  import opened WorkitemRuns
  import opened Compactors
  import Order
  import opened ArchiveTables
  import I = ArchiveInvariant
  import A = ArchiveRuns

  /** The documents of the instance, the tables of the archive, and the snapshots that saves have made. */
  datatype System = System(store: S.Store, t: Tables, made: map<string, ItemCollection>)

  datatype Step =
    | Save(doc: ItemCollection, ctx: S.Context)
    | Put(document: ItemCollection)
    | Pull(ref: string)
    | Compact(batch: seq<string>, denied: set<string>)
    | Drop(id: string)

  function Apply(cfg: S.Settings, archive: Config, y: System, step: Step): System {
    match step
    case Save(doc, ctx) =>
      y.(store := S.Save(cfg, y.store, doc, ctx),
         made := y.made[S.NewSnapshotID(doc, ctx) := S.NewSnapshot(cfg, y.store, doc, ctx)])
    case Put(d) => y.(store := y.store.(documents := y.store.documents[d.UniqueId() := d]))
    case Pull(ref) =>
      if ref in y.store.documents then y.(t := SaveSnapshot(archive, y.t, y.store.documents[ref])) else y
    case Compact(batch, denied) =>
      var gone := Removable(ArchiveAnswer(y.t), batch, denied);
      y.(store := y.store.(documents := y.store.documents - gone))
    case Drop(id) => y.(t := DeleteSnapshot(archive, y.t, id))
  }

  /** A compaction leaves of its batch what is denied or what the archive does not return. */
  lemma CompactRemoves(cfg: S.Settings, archive: Config, y: System, batch: seq<string>, denied: set<string>, id: string)
    ensures id in Apply(cfg, archive, y, Compact(batch, denied)).store.documents <==>
              id in y.store.documents && !(id in batch && id !in denied && Returned(ArchiveAnswer(y.t), id))
  {
  }

  ghost predicate InPlay(pool: iset<Bytes>, d: ItemCollection) { A.Admissible(pool, Operation.Save(d)) }

  /** A save takes a snapshot under a new id; no document is stored under the id of a snapshot. */
  ghost predicate Enabled(cfg: S.Settings, pool: iset<Bytes>, y: System, step: Step) {
    match step
    case Save(doc, ctx) =>
      var id := S.NewSnapshotID(doc, ctx);
      && S.TakesSnapshot(doc) && doc.UniqueId() !in y.made && InPlay(pool, S.NewSnapshot(cfg, y.store, doc, ctx))
      && id !in y.made && id !in y.t.snapshots
    case Put(d) => d.UniqueId() !in y.made && InPlay(pool, d)
    case _ => true
  }

  function ViewStep(y: System, view: I.View, step: Step): I.View {
    match step
    case Pull(ref) => if ref in y.store.documents then A.ViewSave(view, y.store.documents[ref]) else view
    case Drop(id) => view - {id}
    case _ => view
  }

  /** The instance has its documents under their own ids, and under the id of a snapshot what the save made. */
  ghost predicate InstanceOk(pool: iset<Bytes>, y: System) {
    && (forall id :: id in y.store.documents ==>
          y.store.documents[id].UniqueId() == id && InPlay(pool, y.store.documents[id]))
    && (forall id :: id in y.made && id in y.store.documents ==> y.store.documents[id] == y.made[id])
    && (forall id :: id in y.made ==> y.made[id].UniqueId() == id && id != METADATA && id != "")
  }

  /** The archive represents the view, which has under the id of a snapshot what the save made. */
  ghost predicate ArchiveOk(archive: Config, pool: iset<Bytes>, y: System, view: I.View) {
    && I.Sound(archive, pool) && I.Rep(archive, pool, y.t, view)
    && (forall id :: id in view ==> IsSnapshotID(id))
    && (forall id :: id in y.made && id in view ==> view[id] == y.made[id])
  }

  ghost predicate Inv(archive: Config, pool: iset<Bytes>, y: System, view: I.View) {
    InstanceOk(pool, y) && ArchiveOk(archive, pool, y, view)
  }

  lemma StepKeepsInv(cfg: S.Settings, archive: Config, pool: iset<Bytes>, y: System, view: I.View, step: Step)
    requires Inv(archive, pool, y, view) && Enabled(cfg, pool, y, step)
    ensures Inv(archive, pool, Apply(cfg, archive, y, step), ViewStep(y, view, step))
  {
    match step
    case Save(doc, ctx) => SaveKeepsInv(cfg, archive, pool, y, view, doc, ctx);
    case Put(d) =>
    case Pull(ref) => if ref in y.store.documents { PullKeepsInv(archive, pool, y, view, ref); }
    case Compact(batch, denied) =>
    case Drop(id) => A.DeleteKeepsRep(archive, pool, y.t, view, id);
  }

  lemma SaveKeepsInv(cfg: S.Settings, archive: Config, pool: iset<Bytes>, y: System, view: I.View,
          doc: ItemCollection, ctx: S.Context)
    requires Inv(archive, pool, y, view) && Enabled(cfg, pool, y, Step.Save(doc, ctx))
    ensures Inv(archive, pool, Apply(cfg, archive, y, Step.Save(doc, ctx)), view)
  {
    SaveKeepsInstance(cfg, archive, pool, y, doc, ctx);
    assert S.NewSnapshotID(doc, ctx) !in view;
  }

  lemma SaveKeepsInstance(cfg: S.Settings, archive: Config, pool: iset<Bytes>, y: System, doc: ItemCollection,
          ctx: S.Context)
    requires InstanceOk(pool, y) && Enabled(cfg, pool, y, Step.Save(doc, ctx))
    ensures InstanceOk(pool, Apply(cfg, archive, y, Step.Save(doc, ctx)))
  {
    SavedDocuments(cfg, y.store, doc, ctx);
    SavedKeeps(cfg, y.store, doc, ctx);
    SavedIds(cfg, y.store, doc, ctx);
    OriginInPlay(cfg, pool, y.store, doc, ctx);
    InstanceGrows(pool, y, Apply(cfg, archive, y, Step.Save(doc, ctx)), S.NewOrigin(cfg, y.store, doc, ctx),
                  S.NewSnapshot(cfg, y.store, doc, ctx));
  }

  lemma InstanceGrows(pool: iset<Bytes>, y: System, y': System, origin: ItemCollection, snapshot: ItemCollection)
    requires InstanceOk(pool, y) && InPlay(pool, origin) && InPlay(pool, snapshot)
    requires var uid, id, after := origin.UniqueId(), snapshot.UniqueId(), y'.store.documents;
             && uid != id && id != METADATA && id != "" && uid !in y.made && y'.made == y.made[id := snapshot]
             && uid in after && after[uid] == origin && id in after && after[id] == snapshot
             && forall x :: x in after && x != uid && x != id ==>
                  x in y.store.documents && after[x] == y.store.documents[x]
    ensures InstanceOk(pool, y')
  {
  }

  lemma SavedIds(cfg: S.Settings, env: S.Store, doc: ItemCollection, ctx: S.Context)
    ensures var id := S.NewSnapshotID(doc, ctx);
            && S.NewSnapshot(cfg, env, doc, ctx).UniqueId() == id && id != METADATA && id != ""
            && S.NewOrigin(cfg, env, doc, ctx).UniqueId() == doc.UniqueId()
  {
    OriginItems(cfg, env, doc, ctx);
    IdRoundTrip(doc.UniqueId(), ctx.idTime);
    assert GetUniqueID(METADATA) == None && GetUniqueID("") == None;
  }

  lemma OriginInPlay(cfg: S.Settings, pool: iset<Bytes>, env: S.Store, doc: ItemCollection, ctx: S.Context)
    ensures InPlay(pool, S.NewOrigin(cfg, env, doc, ctx))
  {
    SavedFiles(cfg, env, doc, ctx);
  }

  /** A save changes no document but the origin and the new snapshot, and adds no other. */
  lemma SavedKeeps(cfg: S.Settings, env: S.Store, doc: ItemCollection, ctx: S.Context)
    requires S.TakesSnapshot(doc)
    ensures var after := S.Save(cfg, env, doc, ctx).documents;
            forall x :: x in after && x != doc.UniqueId() && x != S.NewSnapshotID(doc, ctx) ==>
              x in env.documents && after[x] == env.documents[x]
  {
    OriginItems(cfg, env, doc, ctx);
  }

  lemma PullKeepsInv(archive: Config, pool: iset<Bytes>, y: System, view: I.View, ref: string)
    requires Inv(archive, pool, y, view) && ref in y.store.documents
    ensures var s := y.store.documents[ref];
            Inv(archive, pool, y.(t := SaveSnapshot(archive, y.t, s)), A.ViewSave(view, s))
  {
    var s := y.store.documents[ref];
    A.StepKeepsRep(archive, pool, y.t, view, Operation.Save(s));
    SavedView(view, s);
  }

  /** A save adds its own snapshot to the view at most. */
  lemma SavedView(view: I.View, s: ItemCollection)
    ensures forall id :: id in A.ViewSave(view, s) ==>
              || (id in view && A.ViewSave(view, s)[id] == view[id])
              || (id == s.UniqueId() && IsSnapshotID(id) && A.ViewSave(view, s)[id] == s)
  {
    var v := view[s.UniqueId() := s];
    var uid := QueryText(GetUniqueID(s.UniqueId()));
    A.ViewDeleteAllShrinks(v, Victims(Order.SortedStrings(A.ViewIds(v, uid)), History(s)));
  }

  ghost predicate IsRun(cfg: S.Settings, archive: Config, pool: iset<Bytes>, y: System, steps: seq<Step>, final: System)
    decreases |steps|
  {
    if steps == [] then final == y
    else (
      && Enabled(cfg, pool, y, steps[0])
      && IsRun(cfg, archive, pool, Apply(cfg, archive, y, steps[0]), steps[1..], final)
    )
  }

  function ViewAfter(cfg: S.Settings, archive: Config, y: System, view: I.View, steps: seq<Step>): I.View
    decreases |steps|
  {
    if steps == [] then view
    else ViewAfter(cfg, archive, Apply(cfg, archive, y, steps[0]), ViewStep(y, view, steps[0]), steps[1..])
  }

  lemma MadeStays(cfg: S.Settings, archive: Config, pool: iset<Bytes>, y: System, step: Step)
    requires Enabled(cfg, pool, y, step)
    ensures forall id :: id in y.made ==>
              id in Apply(cfg, archive, y, step).made && Apply(cfg, archive, y, step).made[id] == y.made[id]
  {
  }

  lemma {:induction false} RunKeepsInv(cfg: S.Settings, archive: Config, pool: iset<Bytes>, y: System, view: I.View,
          steps: seq<Step>, final: System)
    requires Inv(archive, pool, y, view) && IsRun(cfg, archive, pool, y, steps, final)
    ensures Inv(archive, pool, final, ViewAfter(cfg, archive, y, view, steps))
    ensures forall id :: id in y.made ==> id in final.made && final.made[id] == y.made[id]
    decreases |steps|
  {
    if steps != [] {
      var y' := Apply(cfg, archive, y, steps[0]);
      StepKeepsInv(cfg, archive, pool, y, view, steps[0]);
      MadeStays(cfg, archive, pool, y, steps[0]);
      RunKeepsInv(cfg, archive, pool, y', ViewStep(y, view, steps[0]), steps[1..], final);
    }
  }

  /** Over any run, a workitem that refers to a snapshot finds exactly what the save made if and only if the
      instance still has it, or the archive holds it and the checksum attributes of its files lead to
      their contents. */
  lemma LookupAnswers(cfg: S.Settings, archive: Config, pool: iset<Bytes>, y: System, view: I.View,
          steps: seq<Step>, final: System, workitem: ItemCollection)
    requires Inv(archive, pool, y, view) && IsRun(cfg, archive, pool, y, steps, final)
    requires GetString(workitem.items, SNAPSHOTID) in final.made
    ensures var id := GetString(workitem.items, SNAPSHOTID);
            var s := final.made[id];
            FindSnapshot(final.store.documents, ArchiveAnswer(final.t), workitem) == Some(s) <==>
            || id in final.store.documents
            || (id in ViewAfter(cfg, archive, y, view, steps)
                && forall f :: f in s.files ==> A.LoadsBack(archive, final.t, f))
  {
    RunKeepsInv(cfg, archive, pool, y, view, steps, final);
    LookupInState(archive, pool, final, ViewAfter(cfg, archive, y, view, steps), workitem);
  }

  /** A snapshot that the archive does not hold is answered with another document than the save made. */
  lemma AbsentIsEmpty(archive: Config, pool: iset<Bytes>, y: System, view: I.View, id: string)
    requires Inv(archive, pool, y, view) && id in y.made && id !in view && id != "" && id != METADATA
    ensures LoadSnapshot(y.t, id) != y.made[id]
  {
    assert id !in y.t.snapshots;
    assert EMPTY.UniqueId() == "";
  }

  /** In particular for the snapshot that a save has made, whatever run follows. */
  lemma SavedIsFound(cfg: S.Settings, archive: Config, pool: iset<Bytes>, y: System, view: I.View,
          doc: ItemCollection, ctx: S.Context, steps: seq<Step>, final: System, workitem: ItemCollection)
    requires Inv(archive, pool, y, view) && Enabled(cfg, pool, y, Step.Save(doc, ctx))
    requires IsRun(cfg, archive, pool, Apply(cfg, archive, y, Step.Save(doc, ctx)), steps, final)
    requires GetString(workitem.items, SNAPSHOTID) == S.NewSnapshotID(doc, ctx)
    ensures var id, s := S.NewSnapshotID(doc, ctx), S.NewSnapshot(cfg, y.store, doc, ctx);
            var after := ViewAfter(cfg, archive, Apply(cfg, archive, y, Step.Save(doc, ctx)), view, steps);
            FindSnapshot(final.store.documents, ArchiveAnswer(final.t), workitem) == Some(s) <==>
            || id in final.store.documents
            || (id in after && forall f :: f in s.files ==> A.LoadsBack(archive, final.t, f))
  {
    var saved := Apply(cfg, archive, y, Step.Save(doc, ctx));
    SaveKeepsInv(cfg, archive, pool, y, view, doc, ctx);
    RunKeepsInv(cfg, archive, pool, saved, view, steps, final);
    assert S.NewSnapshotID(doc, ctx) in saved.made;
    LookupAnswers(cfg, archive, pool, saved, view, steps, final, workitem);
  }

  lemma LookupInState(archive: Config, pool: iset<Bytes>, y: System, view: I.View, workitem: ItemCollection)
    requires Inv(archive, pool, y, view)
    requires GetString(workitem.items, SNAPSHOTID) in y.made
    ensures var id := GetString(workitem.items, SNAPSHOTID);
            FindSnapshot(y.store.documents, ArchiveAnswer(y.t), workitem) == Some(y.made[id]) <==>
            || id in y.store.documents
            || (id in view && forall f :: f in y.made[id].files ==> A.LoadsBack(archive, y.t, f))
  {
    var id := GetString(workitem.items, SNAPSHOTID);
    if id !in y.store.documents {
      if id in view {
        ArchivedIdsArePaths(id);
        A.LoadReturnsSaved(archive, pool, y.t, view, id);
      } else {
        AbsentIsEmpty(archive, pool, y, view, id);
      }
    }
  }
}
