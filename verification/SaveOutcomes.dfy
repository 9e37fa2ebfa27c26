/** When a save of the archive ends in an exception, said of the tables and of the simple view. */
module SaveOutcomes {
  import opened Order
  import opened Items
  import opened Ids
  import opened ArchiveTables
  import opened ArchiveInvariant
  import opened ArchiveRuns
  import opened ArchiveHistory
  import opened DataServices

  /** A cleanup ends early at one of the snapshots it selects. */
  predicate CleanupFails(view: View, s: ItemCollection) {
    var uid := QueryText(GetUniqueID(s.UniqueId()));
    exists id :: id in Victims(SortedStrings(ViewIds(view, uid)), History(s)) && !ViewDeleteCompletes(view, id)
  }

  /** A save ends in an exception: the id is no snapshot id, there is no modification item, or a snapshot
      that is not stored yet has a modification item without a date or a cleanup that ends early. */
  predicate SaveFails(view: View, s: ItemCollection) {
    || !IsSnapshotID(s.UniqueId()) || MODIFIED !in s.items
    || (s.UniqueId() !in view && (Modified(s).None? || CleanupFails(view[s.UniqueId() := s], s)))
  }

  predicate PullFails(cfg: Config, t: Tables, s: ItemCollection) {
    StatusOf(cfg, t, s).InvalidDocument? || StatusOf(cfg, t, s).Aborted?
  }

  lemma {:induction false} DeleteAllAgrees(cfg: Config, pool: iset<Bytes>, t: Tables, view: View, ids: seq<string>)
    requires Rep(cfg, pool, t, view) && forall i, j :: 0 <= i < j < |ids| ==> ids[i] != ids[j]
    ensures DeleteAllCompletes(cfg, t, ids) <==> forall id :: id in ids ==> ViewDeleteCompletes(view, id)
    decreases |ids|
  {
    if ids != [] {
      CompletesAgree(cfg, pool, t, view, ids[0]);
      DeleteKeepsRep(cfg, pool, t, view, ids[0]);
      DeleteAllAgrees(cfg, pool, DeleteSnapshot(cfg, t, ids[0]), view - {ids[0]}, ids[1..]);
      forall id | id in ids[1..] ensures ViewDeleteCompletes(view - {ids[0]}, id) == ViewDeleteCompletes(view, id) {
        assert id != ids[0];
      }
      assert forall id :: id in ids <==> id == ids[0] || id in ids[1..];
    }
  }

  lemma CleanupAgrees(cfg: Config, pool: iset<Bytes>, t: Tables, view: View, s: ItemCollection)
    requires Rep(cfg, pool, t, view)
    ensures var victims := Victims(SnapshotsByUniqueId(t, QueryText(GetUniqueID(s.UniqueId()))), History(s));
            DeleteAllCompletes(cfg, t, victims) <==> !CleanupFails(view, s)
  {
    var uid := QueryText(GetUniqueID(s.UniqueId()));
    IdsAgree(t, view, uid);
    var ids := SortedStrings(ViewIds(view, uid));
    SortedStringsEnumerate(ViewIds(view, uid));
    VictimsAreOldest(ids, History(s));
    DeleteAllAgrees(cfg, pool, t, view, Victims(ids, History(s)));
  }

  /** A pull fails exactly if the save of the document fails on the view. */
  lemma PullFailsExactly(cfg: Config, pool: iset<Bytes>, t: Tables, view: View, s: ItemCollection)
    requires Sound(cfg, pool) && Rep(cfg, pool, t, view) && Admissible(pool, Operation.Save(s))
    ensures PullFails(cfg, t, s) <==> SaveFails(view, s)
  {
    assert IsSnapshotID(s.UniqueId()) ==> s.UniqueId() != METADATA;
    if Accepts(t, s) && Modified(s).Some? {
      InsertKeepsRep(cfg, pool, t, view, s);
      CleanupAgrees(cfg, pool, Insert(cfg, t, s), view[s.UniqueId() := s], s);
    }
  }

  /** Eight, four, four, four and twelve hexadecimal digits with dashes between them. */
  ghost predicate IsUuid(u: string) {
    |u| == 36 && forall i :: 0 <= i < 36 ==> if i in {8, 13, 18, 23} then u[i] == '-' else u[i] in "0123456789abcdef"
  }

  /** The first snapshot with an id made of a UUID and a time, with a date and without a history, is saved
      completely and is in the archive from then on. */
  lemma UuidIsSaved(cfg: Config, pool: iset<Bytes>, t: Tables, view: View, s: ItemCollection, u: string, time: nat)
    requires Sound(cfg, pool) && Rep(cfg, pool, t, view) && Admissible(pool, Operation.Save(s))
    requires IsUuid(u) && s.UniqueId() == MakeSnapshotID(u, time) && s.UniqueId() !in view
    requires GetDate(s.items, "$modified").Some? && GetInteger(s.items, "$snapshot.history") <= 0
    ensures StatusOf(cfg, t, s).Saved?
    ensures s.UniqueId() in ViewSave(view, s) && s.UniqueId() in SaveSnapshot(cfg, t, s).snapshots
  {
    UuidIsAccepted(u, time);
    PullFailsExactly(cfg, pool, t, view, s);
    StepKeepsRep(cfg, pool, t, view, Operation.Save(s));
    assert s.UniqueId() != METADATA;
    assert s.UniqueId() in t.snapshots <==> s.UniqueId() in view;
  }

  lemma UuidIsAccepted(u: string, time: nat)
    requires IsUuid(u)
    ensures IsSnapshotID(MakeSnapshotID(u, time))
  {
    var id, d := MakeSnapshotID(u, time), Decimal(time);
    assert id == u + "-" + d;
    forall c | c in id[..8] ensures c in "0123456789abcdef" {
      var i :| 0 <= i < 8 && id[i] == c;
      assert u[i] == c;
    }
    forall c | c in id[9..] ensures c !in ['\n', '\r', '\U{0085}', '\U{2028}', '\U{2029}'] {
      var i :| 9 <= i < |id| && id[i] == c;
      if i < 36 { assert u[i] == c; }
      else if i > 36 { assert d[i - 37] == c && c in d; }
    }
    assert u[8] == '-' && 8 in {8, 11};
    AcceptedIds(id);
  }
}
