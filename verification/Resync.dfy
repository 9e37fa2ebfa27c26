/** Resynchronisation: the archive catches up with a workflow instance, time stamp by time stamp. */
module Resyncs {
  import opened Order
  import opened Items
  import opened Ids
  import opened Splitter
  import opened ArchiveTables
  import opened ArchiveInvariant
  import opened ArchiveRuns
  import opened DataServices
  import opened SaveOutcomes

  const SYNC_POINT := "sync.point"
  const SYNC_COUNT := "sync.count"
  const MAX_BATCH := 16

  /** The snapshots of a workflow instance. */
  type Source = map<string, ItemCollection>

  // ---- reading the next time stamp ----

  function TimeOf(s: ItemCollection): int { if Modified(s).Some? then Modified(s).value else 0 }

  function Beyond(source: Source, point: int): set<string> { set id | id in source && TimeOf(source[id]) > point }

  function At(source: Source, time: int): set<string> { set id | id in source && TimeOf(source[id]) == time }

  function Times(source: Source, ids: set<string>): set<int> {
    set id | id in ids && id in source :: TimeOf(source[id])
  }

  lemma TimesExist(source: Source, ids: set<string>)
    requires ids != {} && ids <= source.Keys
    ensures Times(source, ids) != {}
  {
    var id :| id in ids;
    assert TimeOf(source[id]) in Times(source, ids);
  }

  /** The next time stamp after the point. */
  function NextTime(source: Source, point: int): int
    requires Beyond(source, point) != {}
  {
    IntOrder();
    TimesExist(source, Beyond(source, point));
    Least(Times(source, Beyond(source, point)), IntLeq)
  }

  datatype Batch = TooMany | Batch(ids: seq<string>)

  /** The snapshots with the next time stamp, an empty list if nothing is left. */
  function NextBatch(source: Source, point: int): Batch {
    if Beyond(source, point) == {} then Batch([])
    else var ids := SortedStrings(At(source, NextTime(source, point)));
         if |ids| > MAX_BATCH then TooMany else Batch(ids)
  }

  lemma NextTimeIsLeast(source: Source, point: int)
    requires Beyond(source, point) != {}
    ensures var next := NextTime(source, point);
            next > point && At(source, next) != {} && At(source, next) <= Beyond(source, point)
            && (forall id :: id in Beyond(source, point) ==> next <= TimeOf(source[id]))
            && Beyond(source, next) == Beyond(source, point) - At(source, next)
            && |Beyond(source, next)| < |Beyond(source, point)|
  {
    IntOrder();
    var times, next := Times(source, Beyond(source, point)), NextTime(source, point);
    TimesExist(source, Beyond(source, point));
    assert IsLeast(next, times, IntLeq);
    var id :| id in Beyond(source, point) && TimeOf(source[id]) == next;
    assert id in At(source, next);
    forall x | x in Beyond(source, point) ensures next <= TimeOf(source[x]) {
      assert TimeOf(source[x]) in times;
      assert IntLeq(next, TimeOf(source[x]));
    }
    assert Beyond(source, next) == Beyond(source, point) - At(source, next);
    assert Beyond(source, next) < Beyond(source, point);
    SmallerCount(Beyond(source, next), Beyond(source, point));
  }

  lemma SmallerCount<T>(a: set<T>, b: set<T>)
    requires a < b
    ensures |a| < |b|
  {
    assert b == a + (b - a);
    var x :| x in b - a;
  }

  lemma NextBatchIsNextTime(source: Source, point: int)
    requires Beyond(source, point) != {}
    ensures match NextBatch(source, point)
            case TooMany => |At(source, NextTime(source, point))| > MAX_BATCH
            case Batch(ids) =>
              Elements(ids) == At(source, NextTime(source, point)) && |Elements(ids)| == |ids| <= MAX_BATCH
                               && ids != []
  {
    NextTimeIsLeast(source, point);
    var at := At(source, NextTime(source, point));
    SortedStringsEnumerate(at);
    assert Elements(SortedStrings(at)) == at;
  }

  // ---- a run ----

  /** The tables, the metadata, the time stamp reached, the counters and the snapshots read so far. */
  datatype State = State(t: Tables, metadata: ItemCollection, point: int, count: int, read: nat, order: seq<string>)
  {
    function Done(): set<string> { Elements(order) }
  }

  datatype Outcome = Finished | Canceled | TooManyAtOnce | InvalidId

  /** The exception that ends a run. */
  predicate Stops(t: Tables, s: ItemCollection) {
    s.UniqueId() !in t.snapshots && (!IsSnapshotID(s.UniqueId()) || MODIFIED !in s.items)
  }

  /** Archives a snapshot unless it is archived already, counts complete saves, and stores the point and the
      count. */
  function SyncOne(cfg: Config, y: State, s: ItemCollection): State {
    Advance(y, SaveSnapshot(cfg, y.t, s), s, StatusOf(cfg, y.t, s).Saved?)
  }

  /** The state after a snapshot is dealt with, given the tables and whether it was saved. */
  function Advance(y: State, t: Tables, s: ItemCollection, saved: bool): State {
    var count := if saved then y.count + 1 else y.count;
    var m := y.metadata.Set(SYNC_POINT, Number(TimeOf(s))).Set(SYNC_COUNT, Number(count));
    State(SaveMetadata(t, m), m, TimeOf(s), count, y.read + 1, y.order + [s.UniqueId()])
  }

  datatype Result = Result(outcome: Outcome, y: State)

  function SyncIds(cfg: Config, source: Source, y: State, ids: seq<string>, canceled: nat -> bool): Result
    requires Elements(ids) <= source.Keys
    decreases |ids|
  {
    if ids == [] then Result(Finished, y) else
    assert ids[0] in Elements(ids);
    if Stops(y.t, source[ids[0]]) then Result(InvalidId, y) else
    var y' := SyncOne(cfg, y, source[ids[0]]);
    if canceled(y'.read) then Result(Canceled, y')
    else assert Elements(ids[1..]) <= Elements(ids); SyncIds(cfg, source, y', ids[1..], canceled)
  }

  lemma {:induction false} SyncIdsPoint(cfg: Config, source: Source, y: State, ids: seq<string>, canceled: nat -> bool,
          time: int)
    requires Elements(ids) <= source.Keys && forall id :: id in Elements(ids) ==> TimeOf(source[id]) == time
    ensures var r := SyncIds(cfg, source, y, ids, canceled);
            && r.y.read >= y.read && (r.y.read > y.read ==> r.y.point == time) && (r.y.read == y.read ==> r.y == y)
            && (ids != [] && r.outcome.Finished? ==> r.y.read > y.read)
    decreases |ids|
  {
    if ids != [] {
      assert ids[0] in Elements(ids) && Elements(ids[1..]) <= Elements(ids);
      if !Stops(y.t, source[ids[0]]) {
        SyncIdsPoint(cfg, source, SyncOne(cfg, y, source[ids[0]]), ids[1..], canceled, time);
      }
    }
  }

  function Resync(cfg: Config, source: Source, y: State, canceled: nat -> bool): Result
    decreases |Beyond(source, y.point)|
  {
    match NextBatch(source, y.point)
    case TooMany => Result(TooManyAtOnce, y)
    case Batch(ids) =>
      if ids == [] then Result(Finished, y) else
      NextBatchIsNextTime(source, y.point);
      NextTimeIsLeast(source, y.point);
      var r := SyncIds(cfg, source, y, ids, canceled);
      SyncIdsPoint(cfg, source, y, ids, canceled, NextTime(source, y.point));
      if r.outcome.Finished? then Resync(cfg, source, r.y, canceled) else r
  }

  // ---- what a run achieves ----

  /** What is needed of the documents of the instance: own ids, dates, contents in play. */
  ghost predicate SourceOk(pool: iset<Bytes>, source: Source) {
    forall id :: id in source ==> SnapshotOk(pool, id, source[id])
  }

  ghost predicate SnapshotOk(pool: iset<Bytes>, id: string, s: ItemCollection) {
    s.UniqueId() == id && id != METADATA && Modified(s).Some? && Admissible(pool, Operation.Save(s))
  }

  /** The view after archiving the snapshots in their order, each with its history. */
  function Synced(source: Source, view: View, order: seq<string>): View {
    if order == [] then view else
    var id, before := order[|order| - 1], Synced(source, view, order[..|order| - 1]);
    if id in source then ViewSave(before, source[id]) else before
  }

  /** How many of them are newly stored by complete saves. */
  function Stored(source: Source, view: View, order: seq<string>): nat {
    if order == [] then 0 else
    var id, before := order[|order| - 1], Synced(source, view, order[..|order| - 1]);
    Stored(source, view, order[..|order| - 1])
    + if id in source && id !in before && !SaveFails(before, source[id]) then 1 else 0
  }

  /** The archive holds nothing but snapshots. */
  ghost predicate OnlySnapshots(view: View) { forall id :: id in view ==> IsSnapshotID(id) }

  ghost predicate Progress(cfg: Config, pool: iset<Bytes>, source: Source, view: View, count: int, y: State) {
    var synced := Synced(source, view, y.order);
    && Rep(cfg, pool, y.t, synced) && OnlySnapshots(synced) && y.metadata.files == []
    && y.count == count + Stored(source, view, y.order)
  }

  lemma SyncedStep(source: Source, view: View, order: seq<string>, id: string)
    requires id in source
    ensures var before := Synced(source, view, order);
            && Synced(source, view, order + [id]) == ViewSave(before, source[id])
            && Stored(source, view, order + [id])
               == Stored(source, view, order) + if id !in before && !SaveFails(before, source[id]) then 1 else 0
  {
    assert (order + [id])[..|order|] == order;
  }

  lemma OneMoreDone(order: seq<string>, id: string)
    ensures Elements(order + [id]) == Elements(order) + {id}
  {
  }

  /** A save adds a snapshot at most. */
  lemma OnlySnapshotsStay(view: View, s: ItemCollection)
    requires OnlySnapshots(view)
    ensures OnlySnapshots(ViewSave(view, s))
  {
    var v, uid := view[s.UniqueId() := s], QueryText(GetUniqueID(s.UniqueId()));
    ViewDeleteAllShrinks(v, Victims(SortedStrings(ViewIds(v, uid)), History(s)));
  }

  /** Every archive that saves, deletions and metadata updates lead to holds snapshots only. */
  lemma {:induction false} RunOnlySnapshots(view: View, ops: seq<Operation>)
    requires OnlySnapshots(view)
    ensures OnlySnapshots(ViewRun(view, ops))
    decreases |ops|
  {
    if ops != [] {
      if ops[0].Save? { OnlySnapshotsStay(view, ops[0].snapshot); }
      RunOnlySnapshots(ViewStep(view, ops[0]), ops[1..]);
    }
  }

  /** Which status a save has, given the view. */
  lemma StatusExactly(cfg: Config, pool: iset<Bytes>, t: Tables, view: View, s: ItemCollection)
    requires Sound(cfg, pool) && Rep(cfg, pool, t, view) && Admissible(pool, Operation.Save(s))
    requires s.UniqueId() != METADATA
    ensures StatusOf(cfg, t, s).Saved? <==> s.UniqueId() !in view && !SaveFails(view, s)
  {
    PullFailsExactly(cfg, pool, t, view, s);
    assert s.UniqueId() in t.snapshots <==> s.UniqueId() in view;
  }

  /** One snapshot more: the tables represent the view extended by it. */
  lemma SyncOneKeeps(cfg: Config, pool: iset<Bytes>, source: Source, view: View, count: int, y: State, id: string)
    requires Sound(cfg, pool) && Progress(cfg, pool, source, view, count, y)
    requires id in source && SnapshotOk(pool, id, source[id])
    ensures Stops(y.t, source[id]) <==> !IsSnapshotID(id)
    ensures Progress(cfg, pool, source, view, count, SyncOne(cfg, y, source[id]))
  {
    var s, before := source[id], Synced(source, view, y.order);
    assert id in y.t.snapshots <==> id in before;
    SyncedStep(source, view, y.order, id);
    StatusExactly(cfg, pool, y.t, before, s);
    StepKeepsRep(cfg, pool, y.t, before, Operation.Save(s));
    OnlySnapshotsStay(before, s);
    MetadataKeeps(cfg, pool, SaveSnapshot(cfg, y.t, s), ViewSave(before, s), SyncOne(cfg, y, s).metadata);
  }

  lemma MetadataKeeps(cfg: Config, pool: iset<Bytes>, t: Tables, view: View, m: ItemCollection)
    requires Sound(cfg, pool) && Rep(cfg, pool, t, view) && m.files == []
    ensures Rep(cfg, pool, SaveMetadata(t, m), view)
  {
    StepKeepsRep(cfg, pool, t, view, Operation.Metadata(m));
  }

  /** The metadata hold the point and the count of a state. */
  ghost predicate Recorded(y: State) {
    var m := LoadSnapshot(y.t, METADATA).items;
    GetInteger(m, SYNC_POINT) == y.point && GetInteger(m, SYNC_COUNT) == y.count
  }

  lemma SyncOneRecords(cfg: Config, y: State, s: ItemCollection)
    requires y.metadata.files == []
    ensures Recorded(SyncOne(cfg, y, s))
  {
  }

  /** Reading a batch: what was done, and why it ended. */
  ghost predicate BatchEffect(y: State, ids: seq<string>, r: Result, canceled: nat -> bool) {
    && y.Done() <= r.y.Done() <= y.Done() + Elements(ids) && r.y.read >= y.read
    && (forall n :: y.read < n < r.y.read ==> !canceled(n))
    && (if r.y.read > y.read then Recorded(r.y) else r.y == y)
    && match r.outcome
       case Finished => r.y.Done() == y.Done() + Elements(ids) && r.y.order == y.order + ids
                        && (r.y.read > y.read ==> !canceled(r.y.read))
                        && forall id :: id in Elements(ids) ==> IsSnapshotID(id)
       case Canceled => canceled(r.y.read) && r.y.read > y.read
       case TooManyAtOnce => false
       case InvalidId => exists id :: id in Elements(ids) - r.y.Done() && !IsSnapshotID(id)
  }

  lemma {:induction false} SyncIdsKeeps(cfg: Config, pool: iset<Bytes>, source: Source, view: View, count: int,
                                        y: State, ids: seq<string>, canceled: nat -> bool)
    requires Sound(cfg, pool) && SourceOk(pool, source) && Progress(cfg, pool, source, view, count, y)
    requires Elements(ids) <= source.Keys && Elements(ids) !! y.Done() && |Elements(ids)| == |ids|
    ensures Progress(cfg, pool, source, view, count, SyncIds(cfg, source, y, ids, canceled).y)
    decreases |ids|
  {
    if ids != [] {
      HeadStep(cfg, pool, source, view, count, y, ids);
      var y' := SyncOne(cfg, y, source[ids[0]]);
      if !Stops(y.t, source[ids[0]]) {
        if canceled(y'.read) {
          assert SyncIds(cfg, source, y, ids, canceled).y == y';
        } else {
          SyncIdsKeeps(cfg, pool, source, view, count, y', ids[1..], canceled);
          assert SyncIds(cfg, source, y, ids, canceled) == SyncIds(cfg, source, y', ids[1..], canceled);
        }
      }
    }
  }

  lemma {:induction false} SyncIdsEffect(cfg: Config, pool: iset<Bytes>, source: Source, view: View, count: int,
                                         y: State, ids: seq<string>, canceled: nat -> bool)
    requires Sound(cfg, pool) && SourceOk(pool, source) && Progress(cfg, pool, source, view, count, y)
    requires Elements(ids) <= source.Keys && Elements(ids) !! y.Done() && |Elements(ids)| == |ids|
    ensures BatchEffect(y, ids, SyncIds(cfg, source, y, ids, canceled), canceled)
    decreases |ids|
  {
    if ids == [] {
      NothingRead(y, canceled);
    } else {
      HeadStep(cfg, pool, source, view, count, y, ids);
      var y' := SyncOne(cfg, y, source[ids[0]]);
      if Stops(y.t, source[ids[0]]) {
        StoppedHead(y, ids, canceled);
      } else if canceled(y'.read) {
        CanceledHead(y, y', ids, canceled);
      } else {
        SyncIdsEffect(cfg, pool, source, view, count, y', ids[1..], canceled);
        EffectCons(y, y', ids, SyncIds(cfg, source, y', ids[1..], canceled), canceled);
      }
    }
  }

  lemma NothingRead(y: State, canceled: nat -> bool)
    ensures BatchEffect(y, [], Result(Finished, y), canceled)
  {
    assert y.Done() + Elements([]) == y.Done() && y.order + [] == y.order;
  }

  lemma StoppedHead(y: State, ids: seq<string>, canceled: nat -> bool)
    requires ids != [] && !IsSnapshotID(ids[0]) && Elements(ids) !! y.Done()
    ensures BatchEffect(y, ids, Result(InvalidId, y), canceled)
  {
    assert ids[0] in Elements(ids) - y.Done();
  }

  lemma HeadStep(cfg: Config, pool: iset<Bytes>, source: Source, view: View, count: int, y: State, ids: seq<string>)
    requires Sound(cfg, pool) && SourceOk(pool, source) && Progress(cfg, pool, source, view, count, y) && ids != []
    requires Elements(ids) <= source.Keys && Elements(ids) !! y.Done() && |Elements(ids)| == |ids|
    ensures Elements(ids) == {ids[0]} + Elements(ids[1..]) && ids[0] !in Elements(ids[1..])
    ensures |Elements(ids[1..])| == |ids[1..]|
    ensures ids[0] in source && (Stops(y.t, source[ids[0]]) <==> !IsSnapshotID(ids[0]))
    ensures var y' := SyncOne(cfg, y, source[ids[0]]);
            && y'.order == y.order + [ids[0]] && y'.Done() == y.Done() + {ids[0]}
            && Elements(ids[1..]) !! y'.Done() && Recorded(y') && Progress(cfg, pool, source, view, count, y')
  {
    HeadIsNew(ids);
    assert ids[0] in Elements(ids);
    assert SnapshotOk(pool, ids[0], source[ids[0]]);
    SyncOneKeeps(cfg, pool, source, view, count, y, ids[0]);
    SyncOneRecords(cfg, y, source[ids[0]]);
    OneMoreDone(y.order, ids[0]);
  }

  lemma CanceledHead(y: State, y': State, ids: seq<string>, canceled: nat -> bool)
    requires ids != [] && Elements(ids) == {ids[0]} + Elements(ids[1..])
    requires y'.Done() == y.Done() + {ids[0]} && y'.read == y.read + 1 && canceled(y'.read) && Recorded(y')
    ensures BatchEffect(y, ids, Result(Canceled, y'), canceled)
  {
  }

  lemma EffectCons(y: State, y': State, ids: seq<string>, r: Result, canceled: nat -> bool)
    requires ids != [] && Elements(ids) == {ids[0]} + Elements(ids[1..]) && ids[0] !in Elements(ids[1..])
    requires y'.Done() == y.Done() + {ids[0]} && y'.order == y.order + [ids[0]]
    requires y'.read == y.read + 1 && !canceled(y'.read) && Recorded(y')
    requires IsSnapshotID(ids[0])
    requires BatchEffect(y', ids[1..], r, canceled)
    ensures BatchEffect(y, ids, r, canceled)
  {
    assert y'.Done() + Elements(ids[1..]) == y.Done() + Elements(ids);
    assert y'.order + ids[1..] == y.order + ids;
    if r.outcome.InvalidId? {
      var id :| id in Elements(ids[1..]) - r.y.Done() && !IsSnapshotID(id);
      assert id in Elements(ids) - r.y.Done();
    }
  }

  lemma HeadIsNew<T>(ids: seq<T>)
    requires ids != [] && |Elements(ids)| == |ids|
    ensures Elements(ids) == {ids[0]} + Elements(ids[1..]) && ids[0] !in Elements(ids[1..])
    ensures |Elements(ids[1..])| == |ids[1..]|
  {
    assert ids == [ids[0]] + ids[1..];
    forall j | 1 <= j < |ids| ensures ids[j] != ids[0] {
      CountMeansDistinct(ids, j);
      assert ids[..j][0] == ids[0];
    }
  }

  /** Nothing beyond the point stops a resync: no time stamp has more than sixteen snapshots, and all ids are
      snapshot ids. */
  ghost predicate Syncable(source: Source, point: int) {
    forall id :: id in Beyond(source, point) ==> |At(source, TimeOf(source[id]))| <= 16 && IsSnapshotID(id)
  }

  /** All snapshots beyond the point, by time stamp and id. */
  function Batches(source: Source, point: int): seq<string>
    decreases |Beyond(source, point)|
  {
    if Beyond(source, point) == {} then [] else
    NextTimeIsLeast(source, point);
    var next := NextTime(source, point);
    SortedStrings(At(source, next)) + Batches(source, next)
  }

  /** The end of a run. A finished one has read everything beyond the point; a cancelled one
      everything up to the point it reached except for a part of the snapshots of that time stamp. */
  ghost predicate RunEffect(source: Source, y: State, r: Result, canceled: nat -> bool) {
    && y.Done() <= r.y.Done() && y.point <= r.y.point
    && r.y.Done() - y.Done() <= Beyond(source, y.point) - Beyond(source, r.y.point)
    && (if r.y.read > y.read then Recorded(r.y) else r.y == y)
    && match r.outcome
       case Finished => r.y.Done() == y.Done() + Beyond(source, y.point) && Beyond(source, r.y.point) == {}
                        && r.y.order == y.order + Batches(source, y.point)
                        && Syncable(source, y.point)
       case Canceled => canceled(r.y.read) && r.y.read > y.read
                        && Beyond(source, y.point) - Beyond(source, r.y.point) - r.y.Done() ==
                             At(source, r.y.point) - r.y.Done()
       case TooManyAtOnce => NextBatch(source, r.y.point).TooMany?
                             && r.y.Done() == y.Done() + (Beyond(source, y.point) - Beyond(source, r.y.point))
       case InvalidId => exists id :: id in Beyond(source, y.point) - r.y.Done() && !IsSnapshotID(id)
  }

  /** A run that ends with its first batch. */
  lemma FirstBatchEnds(source: Source, y: State, ids: seq<string>, r: Result, canceled: nat -> bool)
    requires Beyond(source, y.point) != {} && Elements(ids) == At(source, NextTime(source, y.point))
    requires y.Done() !! Beyond(source, y.point) && BatchEffect(y, ids, r, canceled) && !r.outcome.Finished?
    requires r.y.read > y.read ==> r.y.point == NextTime(source, y.point)
    ensures RunEffect(source, y, r, canceled)
  {
    NextTimeIsLeast(source, y.point);
    if r.outcome.InvalidId? {
      var id :| id in Elements(ids) - r.y.Done() && !IsSnapshotID(id);
      assert id in Beyond(source, y.point) - r.y.Done();
    }
  }

  /** A first batch followed by the rest of the run. */
  lemma BatchThenRun(source: Source, y: State, y': State, r: Result, canceled: nat -> bool)
    requires Beyond(source, y.point) != {}
    requires var next := NextTime(source, y.point);
             && y'.point == next && y'.Done() == y.Done() + At(source, next) && |At(source, next)| <= MAX_BATCH
             && y'.order == y.order + SortedStrings(At(source, next))
             && forall id :: id in At(source, next) ==> IsSnapshotID(id)
    requires y'.read > y.read && Recorded(y') && RunEffect(source, y', r, canceled)
    ensures RunEffect(source, y, r, canceled)
  {
    var next := NextTime(source, y.point);
    NextTimeIsLeast(source, y.point);
    assert Beyond(source, r.y.point) <= Beyond(source, next);
    Combine(Beyond(source, y.point), At(source, next), Beyond(source, next), Beyond(source, r.y.point), y.Done(),
        r.y.Done());
    SyncableFrom(source, y.point);
    BatchesSplit(source, y.point, y.order);
    if r.outcome.InvalidId? {
      var id :| id in Beyond(source, y'.point) - r.y.Done() && !IsSnapshotID(id);
      assert id in Beyond(source, y.point) - r.y.Done();
    }
  }

  lemma BatchesSplit(source: Source, point: int, order: seq<string>)
    requires Beyond(source, point) != {}
    ensures var next := NextTime(source, point);
            (order + SortedStrings(At(source, next))) + Batches(source, next) == order + Batches(source, point)
  {
  }

  lemma Combine(all: set<string>, first: set<string>, rest: set<string>, left: set<string>, done: set<string>,
          d: set<string>)
    requires first <= all && rest == all - first && left <= rest && done + first <= d
    requires d - (done + first) <= rest - left
    ensures done <= d && d - done <= all - left && all - left - d == rest - left - d
    ensures d == done + first + rest ==> d == done + all
    ensures d == done + first + (rest - left) ==> d == done + (all - left)
  {
    forall x | x in d - done ensures x in all - left {
      assert x in first || x in d - (done + first);
    }
  }

  lemma SyncableFrom(source: Source, point: int)
    requires Beyond(source, point) != {}
    requires var next := NextTime(source, point);
             |At(source, next)| <= MAX_BATCH && forall id :: id in At(source, next) ==> IsSnapshotID(id)
    ensures Syncable(source, NextTime(source, point)) ==> Syncable(source, point)
  {
    NextTimeIsLeast(source, point);
  }

  lemma {:induction false} ResyncEffect(cfg: Config, pool: iset<Bytes>, source: Source, view: View, count: int,
          y: State, canceled: nat -> bool)
    requires Sound(cfg, pool) && SourceOk(pool, source) && Progress(cfg, pool, source, view, count, y)
    requires y.Done() !! Beyond(source, y.point)
    ensures Progress(cfg, pool, source, view, count, Resync(cfg, source, y, canceled).y)
    ensures RunEffect(source, y, Resync(cfg, source, y, canceled), canceled)
    decreases |Beyond(source, y.point)|
  {
    var b := NextBatch(source, y.point);
    if b.TooMany? || b.ids == [] {
      NothingToRead(source, y, canceled);
    } else {
      NextBatchIsNextTime(source, y.point);
      NextTimeIsLeast(source, y.point);
      SyncIdsPoint(cfg, source, y, b.ids, canceled, NextTime(source, y.point));
      SyncIdsKeeps(cfg, pool, source, view, count, y, b.ids, canceled);
      SyncIdsEffect(cfg, pool, source, view, count, y, b.ids, canceled);
      var r := SyncIds(cfg, source, y, b.ids, canceled);
      if r.outcome.Finished? {
        ResyncEffect(cfg, pool, source, view, count, r.y, canceled);
        BatchThenRun(source, y, r.y, Resync(cfg, source, r.y, canceled), canceled);
      } else {
        FirstBatchEnds(source, y, b.ids, r, canceled);
      }
    }
  }

  lemma NothingToRead(source: Source, y: State, canceled: nat -> bool)
    requires y.Done() !! Beyond(source, y.point)
    ensures NextBatch(source, y.point).TooMany? ==> RunEffect(source, y, Result(TooManyAtOnce, y), canceled)
    ensures NextBatch(source, y.point) == Batch([]) ==> RunEffect(source, y, Result(Finished, y), canceled)
  {
    if Beyond(source, y.point) != {} { NextBatchIsNextTime(source, y.point); }
  }

  // ---- main results ----

  ghost predicate NeverCanceled(canceled: nat -> bool) { forall n :: !canceled(n) }

  /** A run that is not cancelled comes to an end; it finishes exactly if nothing beyond the point
      stops it. Then every snapshot beyond the point has been saved in the order of the time stamps,
      each with its own history, and the count is raised by the number newly stored. */
  lemma ResyncCompletes(cfg: Config, pool: iset<Bytes>, source: Source, view: View, y: State, canceled: nat -> bool)
    requires Sound(cfg, pool) && SourceOk(pool, source) && Rep(cfg, pool, y.t, view) && OnlySnapshots(view)
    requires y.metadata.files == [] && y.order == [] && NeverCanceled(canceled)
    ensures var r, order := Resync(cfg, source, y, canceled), Batches(source, y.point);
            && (r.outcome.Finished? <==> Syncable(source, y.point))
            && (r.outcome.Finished? ==>
                  && r.y.order == order && Elements(order) == Beyond(source, y.point)
                  && Rep(cfg, pool, r.y.t, Synced(source, view, order))
                  && r.y.count == y.count + Stored(source, view, order)
                  && (r.y.read > y.read ==> Recorded(r.y)) && Beyond(source, r.y.point) == {})
  {
    Start(cfg, pool, source, view, y);
    ResyncEffect(cfg, pool, source, view, y.count, y, canceled);
    EndOfRun(source, y, Resync(cfg, source, y, canceled), canceled);
  }

  /** Without history settings every snapshot beyond the point is archived after a resync, and those that
      were archived before are left as they were. */
  lemma {:induction false} SyncedWithoutHistory(pool: iset<Bytes>, source: Source, view: View, order: seq<string>)
    requires SourceOk(pool, source) && Elements(order) <= source.Keys
    requires forall id :: id in order ==> IsSnapshotID(id) && History(source[id]) <= 0
    ensures Synced(source, view, order) == view + NewIn(source, view, order)
    ensures Stored(source, view, order) == |Elements(order) - view.Keys|
  {
    if order == [] {
      assert Elements(order) - view.Keys == {};
    } else {
      var rest, id := order[..|order| - 1], order[|order| - 1];
      assert order == rest + [id];
      assert id in Elements(order) && forall x :: x in rest ==> x in order;
      OneMoreDone(rest, id);
      SyncedWithoutHistory(pool, source, view, rest);
      assert SnapshotOk(pool, id, source[id]);
      OneMoreSynced(source, view, rest, id);
    }
  }

  lemma OneMoreSynced(source: Source, view: View, rest: seq<string>, id: string)
    requires id in source && source[id].UniqueId() == id && Modified(source[id]).Some?
    requires IsSnapshotID(id) && History(source[id]) <= 0
    requires Synced(source, view, rest) == view + NewIn(source, view, rest)
    requires Stored(source, view, rest) == |Elements(rest) - view.Keys|
    ensures Synced(source, view, rest + [id]) == view + NewIn(source, view, rest + [id])
    ensures Stored(source, view, rest + [id]) == |Elements(rest) + {id} - view.Keys|
  {
    SyncedStep(source, view, rest, id);
    SaveWithoutHistory(Synced(source, view, rest), source[id]);
    CountOneMore(Elements(rest), view.Keys, id);
    NewGrows(source, view, rest, id);
  }

  /** The snapshots of the list that are not archived yet. */
  function NewIn(source: Source, view: View, order: seq<string>): View {
    map id | id in order && id in source && id !in view :: source[id]
  }

  lemma NewGrows(source: Source, view: View, rest: seq<string>, id: string)
    requires id in source
    ensures var before := view + NewIn(source, view, rest);
            && view + NewIn(source, view, rest + [id]) == (if id in before then before else before[id := source[id]])
            && (id in before <==> id in view || id in rest)
  {
  }

  lemma SaveWithoutHistory(view: View, s: ItemCollection)
    requires IsSnapshotID(s.UniqueId()) && Modified(s).Some? && History(s) <= 0
    ensures ViewSave(view, s) == if s.UniqueId() in view then view else view[s.UniqueId() := s]
    ensures !SaveFails(view, s)
  {
  }

  lemma CountOneMore(done: set<string>, known: set<string>, id: string)
    ensures |done + {id} - known| == |done - known| + if id in known || id in done then 0 else 1
  {
    assert done + {id} - known == (done - known) + if id in known || id in done then {} else {id};
  }

  /** A run that is not cancelled finishes exactly if nothing stops it. */
  lemma EndOfRun(source: Source, y: State, r: Result, canceled: nat -> bool)
    requires RunEffect(source, y, r, canceled) && NeverCanceled(canceled) && y.order == []
    ensures r.outcome.Finished? <==> Syncable(source, y.point)
    ensures r.outcome.Finished? ==> r.y.Done() == Beyond(source, y.point) && Beyond(source, r.y.point) == {}
    ensures r.outcome.Finished? ==> r.y.order == Batches(source, y.point)
    ensures r.y.read > y.read ==> Recorded(r.y)
  {
    assert y.Done() == {} && {} + Beyond(source, y.point) == Beyond(source, y.point);
    assert [] + Batches(source, y.point) == Batches(source, y.point);
    if r.outcome.TooManyAtOnce? { TooManyStops(source, y.point, r.y.point); }
  }

  lemma Start(cfg: Config, pool: iset<Bytes>, source: Source, view: View, y: State)
    requires Rep(cfg, pool, y.t, view) && OnlySnapshots(view) && y.metadata.files == [] && y.order == []
    ensures Progress(cfg, pool, source, view, y.count, y) && y.Done() == {}
  {
  }

  lemma TooManyStops(source: Source, point: int, reached: int)
    requires point <= reached && NextBatch(source, reached).TooMany?
    ensures !Syncable(source, point) && !Syncable(source, reached)
  {
    NextBatchIsNextTime(source, reached);
    NextTimeIsLeast(source, reached);
    var id :| id in At(source, NextTime(source, reached));
    assert id in Beyond(source, reached) && id in Beyond(source, point);
  }

  /** What a resync reads: every document with a modification date beyond the point once, by that date. */
  lemma BatchesAre(pool: iset<Bytes>, source: Source, point: int)
    requires SourceOk(pool, source)
    ensures var order := Batches(source, point);
            && (forall id :: id in order <==>
                  id in source && GetDate(source[id].items, "$modified").Some?
                  && GetDate(source[id].items, "$modified").value > point)
            && (forall i, j :: 0 <= i < j < |order| ==>
                  order[i] != order[j]
                  && GetDate(source[order[i]].items, "$modified").value
                     <= GetDate(source[order[j]].items, "$modified").value)
  {
    BatchesByTime(source, point);
    forall id | id in source ensures TimeOf(source[id]) == GetDate(source[id].items, "$modified").value {
      assert SnapshotOk(pool, id, source[id]);
    }
  }

  lemma {:induction false} BatchesByTime(source: Source, point: int)
    ensures ByTime(source, Batches(source, point))
    ensures forall id :: id in Batches(source, point) <==> id in Beyond(source, point)
    decreases |Beyond(source, point)|
  {
    if Beyond(source, point) == {} {
      assert Batches(source, point) == [];
    } else {
      NextTimeIsLeast(source, point);
      var next := NextTime(source, point);
      SortedStringsEnumerate(At(source, next));
      BatchesByTime(source, next);
      OrderedJoin(source, SortedStrings(At(source, next)), Batches(source, next), next);
      BeyondSplit(source, point, next);
    }
  }

  lemma BeyondSplit(source: Source, point: int, next: int)
    requires Beyond(source, point) != {} && next == NextTime(source, point)
    ensures forall id :: id in Beyond(source, point) <==> id in At(source, next) || id in Beyond(source, next)
  {
    NextTimeIsLeast(source, point);
  }

  ghost predicate ByTime(source: Source, order: seq<string>) {
    && (forall i :: 0 <= i < |order| ==> order[i] in source)
    && forall i, j :: 0 <= i < j < |order| ==>
         order[i] != order[j] && TimeOf(source[order[i]]) <= TimeOf(source[order[j]])
  }

  /** A batch of one time followed by what comes later. */
  lemma OrderedJoin(source: Source, first: seq<string>, later: seq<string>, time: int)
    requires Ascending(first, StrLeq) && ByTime(source, later)
    requires forall id :: id in first ==> id in source && TimeOf(source[id]) == time
    requires forall id :: id in later ==> id in source && TimeOf(source[id]) > time
    ensures ByTime(source, first + later)
  {
    var order := first + later;
    forall i | 0 <= i < |order| ensures order[i] in source {
      if i < |first| { assert order[i] == first[i]; } else { assert order[i] == later[i - |first|]; }
    }
    forall i, j | 0 <= i < j < |order|
        ensures order[i] != order[j] && TimeOf(source[order[i]]) <= TimeOf(source[order[j]]) {
      if i < |first| { assert order[i] == first[i]; } else { assert order[i] == later[i - |first|]; }
      if j < |first| { assert order[j] == first[j]; } else { assert order[j] == later[j - |first|]; }
    }
  }

  /** A snapshot read by a resync is loaded back as it is in the workflow instance exactly if no history
      cleanup removed it and the checksum attributes of its files lead to their contents. */
  lemma ResyncedLoads(cfg: Config, pool: iset<Bytes>, source: Source, view: View, y: State, canceled: nat -> bool,
          id: string)
    requires Sound(cfg, pool) && SourceOk(pool, source) && Rep(cfg, pool, y.t, view) && OnlySnapshots(view)
    requires y.metadata.files == [] && y.order == []
    requires NeverCanceled(canceled) && Syncable(source, y.point)
    requires id in Beyond(source, y.point) && id !in view
    ensures var t := Resync(cfg, source, y, canceled).y.t;
            LoadSnapshot(t, id) == source[id] <==>
            && id in Synced(source, view, Batches(source, y.point))
            && forall f :: f in source[id].files ==> LoadsBack(cfg, t, f)
  {
    ResyncCompletes(cfg, pool, source, view, y, canceled);
    var t, synced := Resync(cfg, source, y, canceled).y.t, Synced(source, view, Batches(source, y.point));
    SyncedFrom(pool, source, view, Batches(source, y.point), id);
    assert SnapshotOk(pool, id, source[id]) && IsSnapshotID(id);
    if id in synced {
      LoadReturnsSaved(cfg, pool, t, synced, id);
    } else {
      assert id !in t.snapshots;
      assert EMPTY.UniqueId() == "";
    }
  }

  /** What is new in the archive after a resync is as in the instance. */
  lemma {:induction false} SyncedFrom(pool: iset<Bytes>, source: Source, view: View, order: seq<string>, id: string)
    requires SourceOk(pool, source) && id !in view
    ensures id in Synced(source, view, order) ==> id in source && Synced(source, view, order)[id] == source[id]
  {
    if order != [] {
      var last, before := order[|order| - 1], Synced(source, view, order[..|order| - 1]);
      SyncedFrom(pool, source, view, order[..|order| - 1], id);
      if last in source {
        assert SnapshotOk(pool, last, source[last]);
        SaveFrom(before, source[last], id);
      }
    }
  }

  lemma SaveFrom(view: View, s: ItemCollection, id: string)
    ensures id in ViewSave(view, s) ==>
              (id in view && ViewSave(view, s)[id] == view[id]) || (id == s.UniqueId() && ViewSave(view, s)[id] == s)
  {
    var v, uid := view[s.UniqueId() := s], QueryText(GetUniqueID(s.UniqueId()));
    ViewDeleteAllShrinks(v, Victims(SortedStrings(ViewIds(v, uid)), History(s)));
  }

  /** A run cancelled in the middle of a time stamp and resumed later reads everything beyond the
      first point except the rest of that time stamp: nothing is skipped exactly if the cancelled
      run had read all snapshots of the time stamp it reached. */
  lemma ResumeAfterCancel(cfg: Config, pool: iset<Bytes>, source: Source, view: View, y: State, canceled: nat -> bool,
          again: nat -> bool)
    requires Sound(cfg, pool) && SourceOk(pool, source) && Rep(cfg, pool, y.t, view) && OnlySnapshots(view)
    requires y.metadata.files == [] && y.order == []
    requires Syncable(source, y.point) && NeverCanceled(again)
    requires Resync(cfg, source, y, canceled).outcome.Canceled?
    ensures var c := Resync(cfg, source, y, canceled).y;
            var r := Resync(cfg, source, c, again);
            && Recorded(c) && r.outcome.Finished?
            && Rep(cfg, pool, r.y.t, Synced(source, view, r.y.order))
            && Beyond(source, y.point) - r.y.Done() == At(source, c.point) - c.Done()
            && (r.y.Done() == Beyond(source, y.point) <==> At(source, c.point) <= c.Done())
  {
    var c := Resync(cfg, source, y, canceled).y;
    CanceledState(cfg, pool, source, view, y, canceled);
    ResyncEffect(cfg, pool, source, view, y.count, c, again);
    var r := Resync(cfg, source, c, again);
    if r.outcome.TooManyAtOnce? { TooManyStops(source, c.point, r.y.point); }
    Rest(Beyond(source, y.point), Beyond(source, c.point), At(source, c.point), c.Done(), r.y.Done());
  }

  lemma CanceledState(cfg: Config, pool: iset<Bytes>, source: Source, view: View, y: State, canceled: nat -> bool)
    requires Sound(cfg, pool) && SourceOk(pool, source) && Rep(cfg, pool, y.t, view) && OnlySnapshots(view)
    requires y.metadata.files == [] && y.order == []
    requires Syncable(source, y.point) && Resync(cfg, source, y, canceled).outcome.Canceled?
    ensures var c := Resync(cfg, source, y, canceled).y;
            && Progress(cfg, pool, source, view, y.count, c) && Recorded(c) && Syncable(source, c.point)
            && c.Done() <= Beyond(source, y.point) - Beyond(source, c.point)
            && Beyond(source, c.point) <= Beyond(source, y.point)
            && Beyond(source, y.point) - Beyond(source, c.point) - c.Done() == At(source, c.point) - c.Done()
  {
    Start(cfg, pool, source, view, y);
    ResyncEffect(cfg, pool, source, view, y.count, y, canceled);
  }

  lemma Rest(all: set<string>, left: set<string>, at: set<string>, done: set<string>, d: set<string>)
    requires left <= all && done <= all - left && all - left - done == at - done && d == done + left
    ensures all - d == at - done && (d == all <==> at <= done)
  {
    assert d <= all && all - d == all - left - done;
    NoneLeft(all, d);
    NoneLeft(at, done);
  }

  lemma NoneLeft(a: set<string>, b: set<string>)
    ensures a - b == {} <==> a <= b
  {
    if a - b == {} {
      forall x | x in a ensures x in b { assert x !in a - b; }
    }
  }

  /** The cancelled status is never taken back, so every later run ends after one snapshot. */
  lemma CancelIsSticky(cfg: Config, source: Source, y: State, canceled: nat -> bool)
    requires forall n :: canceled(n)
    ensures var r := Resync(cfg, source, y, canceled);
            && (r.outcome.Finished? ==> r.y == y && Beyond(source, y.point) == {})
            && (r.outcome.Canceled? ==>
                  r.y.read == y.read + 1 && exists id :: id in source && r.y == SyncOne(cfg, y, source[id]))
  {
    var b := NextBatch(source, y.point);
    if b.Batch? && b.ids != [] {
      NextBatchIsNextTime(source, y.point);
      NextTimeIsLeast(source, y.point);
      assert b.ids[0] in Elements(b.ids);
      assert SyncIds(cfg, source, y, b.ids, canceled)
             == if Stops(y.t, source[b.ids[0]]) then Result(InvalidId, y)
                 else Result(Canceled, SyncOne(cfg, y, source[b.ids[0]]));
    } else if Beyond(source, y.point) != {} {
      NextBatchIsNextTime(source, y.point);
    }
  }

  // ---- the service ----

  class ResyncService {
    const archive: DataService
    const source: Source

    constructor (archive: DataService, source: Source)
      ensures this.archive == archive && this.source == source
    {
      this.archive, this.source := archive, source;
    }

    /** Archives one snapshot unless it is archived already. */
    method ArchiveOne(snapshot: ItemCollection) returns (ok: bool, saved: bool)
      requires archive.Valid() && Readable(snapshot)
      modifies archive
      ensures archive.Valid() && ok == !Stops(old(archive.T()), snapshot)
      ensures archive.T() == SaveSnapshot(archive.cfg, old(archive.T()), snapshot)
      ensures saved == StatusOf(archive.cfg, old(archive.T()), snapshot).Saved?
      ensures !ok ==> archive.T() == old(archive.T())
    {
      var stored := archive.ExistSnapshot(snapshot.UniqueId());
      if stored { return true, false; }
      var status := archive.SaveSnapshot(snapshot);
      ok, saved := !status.InvalidDocument?, status.Saved?;
    }

    /** Archives one snapshot and stores the progress; a save that is cut short is not counted. */
    method SyncSnapshot(snapshot: ItemCollection, y: Progressing) returns (ok: bool, y': Progressing)
      requires archive.Valid() && y.metadata.WellFormed() && Readable(snapshot)
      modifies archive
      ensures archive.Valid() && y'.metadata.WellFormed()
      ensures ok <==> !Stops(old(archive.T()), snapshot)
      ensures y'.At(archive.T()) == if ok then SyncOne(archive.cfg, y.At(old(archive.T())), snapshot)
                else y.At(old(archive.T()))
    {
      var saved;
      ok, saved := ArchiveOne(snapshot);
      if !ok { return false, y; }
      y' := Record(snapshot, y, saved);
    }

    /** Stores the progress after a snapshot. */
    method Record(snapshot: ItemCollection, y: Progressing, saved: bool) returns (y': Progressing)
      requires archive.Valid() && y.metadata.WellFormed() && Modified(snapshot).Some?
      modifies archive
      ensures archive.Valid() && y'.metadata.WellFormed()
      ensures forall t :: y'.At(archive.T()) == Advance(y.At(t), old(archive.T()), snapshot, saved)
    {
      var count := if saved then y.count + 1 else y.count;
      var time := Modified(snapshot).value;
      var metadata := y.metadata.Set(SYNC_POINT, Number(time)).Set(SYNC_COUNT, Number(count));
      archive.SaveMetadata(metadata);
      y' := Progressing(metadata, time, count, y.read + 1, y.order + [snapshot.UniqueId()]);
    }

    /** Reads the snapshots of one time stamp. */
    method SyncBatch(ids: seq<string>, y: Progressing, canceled: nat -> bool)
      returns (outcome: Outcome, y': Progressing)
      requires archive.Valid() && y.metadata.WellFormed() && Elements(ids) <= source.Keys
      requires forall id :: id in source ==> Readable(source[id])
      modifies archive
      ensures archive.Valid() && y'.metadata.WellFormed()
      ensures Result(outcome, y'.At(archive.T())) == SyncIds(archive.cfg, source, y.At(old(archive.T())), ids, canceled)
    {
      y' := y;
      var i := 0;
      while i < |ids|
        invariant i <= |ids| && archive.Valid() && y'.metadata.WellFormed() && Elements(ids[i..]) <= source.Keys
        invariant SyncIds(archive.cfg, source, y'.At(archive.T()), ids[i..], canceled)
                  == SyncIds(archive.cfg, source, y.At(old(archive.T())), ids, canceled)
      {
        var id := ids[i];
        assert ids[i..][0] == id && ids[i..][1..] == ids[i + 1..] && id in Elements(ids[i..]);
        assert Elements(ids[i + 1..]) <= Elements(ids[i..]);
        var ok;
        ok, y' := SyncSnapshot(source[id], y');
        if !ok { outcome := InvalidId; return; }
        if canceled(y'.read) { outcome := Canceled; return; }
        i := i + 1;
      }
      outcome := Finished;
    }

    /** Reads time stamp after time stamp, from the stored point or from now if that lies in the future. */
    method OnTimeout(now: int, canceled: nat -> bool) returns (outcome: Outcome, y: Progressing)
      requires archive.Valid() && forall id :: id in source ==> Readable(source[id])
      modifies archive
      ensures archive.Valid()
      ensures var metadata := LoadSnapshot(old(archive.T()), METADATA);
              var stored := GetInteger(metadata.items, SYNC_POINT);
              var point, count := if stored > now then now else stored, GetInteger(metadata.items, SYNC_COUNT);
              var start := State(old(archive.T()), metadata, point, count, 0, []);
              Result(outcome, y.At(archive.T())) == Resync(archive.cfg, source, start, canceled)
    {
      var metadata := archive.LoadMetadata();
      var point := GetInteger(metadata.items, SYNC_POINT);
      if point > now { point := now; }
      y := Progressing(metadata, point, GetInteger(metadata.items, SYNC_COUNT), 0, []);
      ghost var start := y.At(archive.T());
      while true
        invariant archive.Valid() && y.metadata.WellFormed()
        invariant Resync(archive.cfg, source, y.At(archive.T()), canceled) ==
                    Resync(archive.cfg, source, start, canceled)
        decreases |Beyond(source, y.point)|
      {
        var b := NextBatch(source, y.point);
        if b.TooMany? { outcome := TooManyAtOnce; return; }
        if b.ids == [] { outcome := Finished; return; }
        NextBatchIsNextTime(source, y.point);
        NextTimeIsLeast(source, y.point);
        SyncIdsPoint(archive.cfg, source, y.At(archive.T()), b.ids, canceled, NextTime(source, y.point));
        outcome, y := SyncBatch(b.ids, y, canceled);
        if !outcome.Finished? { return; }
      }
    }
  }

  /** What the methods ask of a document of the instance. */
  ghost predicate Readable(s: ItemCollection) {
    && s.WellFormed() && Modified(s).Some?
    && forall f :: f in s.files ==> |f.content| <= MAX_CONTENT
  }

  /** The local variables of a run. */
  datatype Progressing = Progressing(metadata: ItemCollection, point: int, count: int, read: nat, order: seq<string>)
  {
    function At(t: Tables): State { State(t, metadata, point, count, read, order) }
  }
}
