/** The snapshot service of a workflow instance: the loops by which it labels, copies and strips
    files and prunes old snapshots, proved against the functions of Snapshots. */
module SnapshotServices {
  import opened Order
  import opened Items
  import opened Ids
  import opened VersionNames
  import opened EventLog
  import opened Snapshots
  import Spec = Snapshots

  // ---- the snapshots found for a workitem ----

  const DELETE_LIMIT: nat := 999

  const LAST_TIME := "9999999999999"

  /** The ids strictly between `u-` and `u-9999999999999`. */
  function SnapshotRange(documents: map<string, ItemCollection>, uid: string): set<string> {
    set id | id in documents && InRange(id, uid, LAST_TIME) && id != uid + "-" + LAST_TIME
  }

  /** The query for all snapshots of a workitem, newest first and limited. */
  function AllSnapshots(documents: map<string, ItemCollection>, uid: string): seq<string> {
    Limit(Reverse(SortedStrings(SnapshotRange(documents, uid))), DELETE_LIMIT)
  }

  /** Deleting a workitem deletes its newest 999 snapshots and no other document; older ones stay
      behind exactly if there are more than that. */
  lemma DeletionIsLimited(documents: map<string, ItemCollection>, uid: string)
    ensures var all, after := SnapshotRange(documents, uid), documents - Elements(AllSnapshots(documents, uid));
            && |SnapshotRange(after, uid)| == (if |all| <= 999 then 0 else |all| - 999)
            && (forall id :: id in documents && id !in all ==> id in after)
            && (forall a, b :: a in SnapshotRange(after, uid) && b in all && b !in after ==> StrLeq(a, b) && a != b)
  {
    var all := SnapshotRange(documents, uid);
    var ids := SortedStrings(all);
    SortedStringsEnumerate(all);
    NewestRows(ids, DELETE_LIMIT);
    var k: nat := if DELETE_LIMIT < |ids| then |ids| - DELETE_LIMIT else 0;
    SplitEnumeration(ids, all, k, StrLeq);
    RangeAfter(documents, uid, Elements(ids[..k]), Elements(ids[k..]));
  }

  lemma NewestOfRange(documents: map<string, ItemCollection>, uid: string)
    ensures var all, found := SnapshotRange(documents, uid), AllSnapshots(documents, uid);
            && Elements(found) <= all && |found| == (if |all| <= 999 then |all| else 999)
            && forall a, b :: a in found && b in all && b !in found ==> StrLeq(b, a)
  {
    var all := SnapshotRange(documents, uid);
    var ids, found := SortedStrings(all), AllSnapshots(documents, uid);
    SortedStringsEnumerate(all);
    NewestRows(ids, DELETE_LIMIT);
    var k: nat := if DELETE_LIMIT < |ids| then |ids| - DELETE_LIMIT else 0;
    SplitEnumeration(ids, all, k, StrLeq);
    assert Elements(found) == Elements(ids[k..]);
    forall a, b | a in found && b in all && b !in found ensures StrLeq(b, a) {
      assert a in Elements(found) && b !in Elements(found);
    }
  }

  lemma RangeAfter(documents: map<string, ItemCollection>, uid: string, kept: set<string>, gone: set<string>)
    requires kept !! gone && kept + gone == SnapshotRange(documents, uid)
    ensures SnapshotRange(documents - gone, uid) == kept
  {
    forall id ensures id in SnapshotRange(documents - gone, uid) <==> id in kept {
      assert id in SnapshotRange(documents, uid) <==> id in kept || id in gone;
    }
  }

  lemma {:induction false} NinesAreLast(d: string, nines: string)
    requires |d| == |nines| && (forall c :: c in d ==> IsDigit(c)) && (forall i :: 0 <= i < |nines| ==> nines[i] == '9')
    ensures StrLeq(d, nines)
  {
    if d != [] {
      assert d[0] in d;
      NinesAreLast(d[1..], nines[1..]);
    }
  }

  lemma {:induction false} NinesValue(nines: string)
    requires forall i :: 0 <= i < |nines| ==> nines[i] == '9'
    ensures DigitsValue(nines) + 1 == Power10(|nines|)
  {
    if nines != [] {
      NinesValue(nines[..|nines| - 1]);
    }
  }

  /** For thirteen-digit creation times the range holds exactly the snapshots of the workitem, but for one made in
      the last of these milliseconds. */
  lemma RangeIsWorkitem(documents: map<string, ItemCollection>, uid: string, other: string, t: nat)
    requires Wide(t) && MakeSnapshotID(other, t) in documents && |other| == |uid|
    ensures MakeSnapshotID(other, t) in SnapshotRange(documents, uid) <==> other == uid && t != 9_999_999_999_999
  {
    if other == uid {
      OwnInRange(uid, t);
    } else if MakeSnapshotID(other, t) in SnapshotRange(documents, uid) {
      RangeStaysInWorkitem(MakeSnapshotID(other, t), uid, LAST_TIME, other, t);
    }
  }

  lemma LastTimeValue()
    ensures DigitsValue(LAST_TIME) == 9_999_999_999_999
  {
    NinesValue(LAST_TIME);
    assert Power10(13) == 10_000_000_000_000 by {
      assert Power10(5) == 100_000;
      assert Power10(9) == 1_000_000_000;
    }
  }

  lemma OwnInRange(uid: string, t: nat)
    requires Wide(t)
    ensures InRange(MakeSnapshotID(uid, t), uid, LAST_TIME)
    ensures MakeSnapshotID(uid, t) == uid + "-" + LAST_TIME <==> t == 9_999_999_999_999
  {
    var p, d := uid + "-", Decimal(t);
    WideIsThirteen(t);
    NinesAreLast(d, LAST_TIME);
    LastTimeValue();
    if t == 9_999_999_999_999 {
      DigitsOrder(LAST_TIME, d);
      StrAntisymmetric(d, LAST_TIME);
    }
    assert p + [] == p;
    StrPrefix(p, [], d);
    StrPrefix(p, d, LAST_TIME);
    assert (p + d)[|p|..] == d && (p + LAST_TIME)[|p|..] == LAST_TIME;
  }

  // ---- the service ----

  class SnapshotService {
    var documents: map<string, ItemCollection>
    var log: seq<Event>
    const cfg: Settings

    function S(): Store
      reads this
    {
      Store(documents, log)
    }

    constructor (cfg: Settings)
      ensures this.cfg == cfg && S() == Store(map[], [])
    {
      this.cfg := cfg;
      documents, log := map[], [];
    }

    /** Labels the files that came with content. */
    method UpdateCustomAttributes(workitem: ItemCollection, ctx: Context) returns (r: ItemCollection)
      requires workitem.WellFormed()
      ensures r == Label(cfg, workitem, ctx)
    {
      var files, date := workitem.files, EventDate(workitem.items, ctx);
      r := workitem;
      var i := 0;
      while i < |files|
        invariant i <= |files| && r.items == workitem.items && |r.files| == |files|
        invariant forall k :: 0 <= k < i ==> r.files[k] == LabelFile(cfg, files[k], date, ctx.user)
        invariant forall k :: i <= k < |files| ==> r.files[k] == files[k]
      {
        var f := files[i];
        if |f.content| > 1 {
          AddListed(files, r.files, i, LabelFile(cfg, f, date, ctx.user));
          r := r.(files := AddFile(r.files, LabelFile(cfg, f, date, ctx.user)));
        }
        i := i + 1;
      }
      assert r.files == LabelFiles(cfg, files, date, ctx.user);
    }

    /** Copies missing contents from the last snapshot and keeps overwritten ones under a version
        name, in the new snapshot `t` and without bytes in the origin document `o`. */
    method CopyFilesFromItemCollection(source: ItemCollection, target: ItemCollection, origin: ItemCollection, now: int)
      returns (t: ItemCollection, o: ItemCollection)
      requires target.WellFormed() && origin.WellFormed()
      ensures var c := CopyFiles(cfg, source.files, Copied(target.files, origin.files), target.files,
                                 ItemValues(origin.items, OVERWRITE), now);
              t == target.(files := c.target) && o == origin.(files := c.origin).Set(OVERWRITE, Text(""))
      ensures t.WellFormed() && o.WellFormed()
    {
      var files, list := target.files, ItemValues(origin.items, OVERWRITE);
      t, o := target, origin;
      var i := 0;
      while i < |files|
        invariant i <= |files| && t.items == target.items && o.items == origin.items && t.WellFormed() && o.WellFormed()
        invariant CopyFiles(cfg, source.files, Copied(t.files, o.files), files[i..], list, now)
                  == CopyFiles(cfg, source.files, Copied(target.files, origin.files), files, list, now)
      {
        assert files[i..][1..] == files[i + 1..] && files[i..][0] == files[i];
        var f := files[i];
        var prior := FindFile(source.files, f.name);
        if f.content == [] {
          if prior.Some? { t := t.(files := AddFile(t.files, f.(content := prior.value.content))); }
        } else if !cfg.overwriteFileContent && Text(f.name) !in list {
          if prior.Some? && f.Md5Attribute() != prior.value.Md5Attribute() {
            var version := VersionFile(cfg, f.name, prior.value, now);
            t := t.(files := AddFile(t.files, version));
            o := o.(files := AddFile(o.files, version.(content := [])));
          }
        }
        i := i + 1;
      }
      o := o.Set(OVERWRITE, Text(""));
    }

    /** Empties every file that has content. */
    method DropContents(document: ItemCollection) returns (r: ItemCollection)
      requires document.WellFormed()
      ensures r == document.Stripped() && r.WellFormed()
    {
      var files := document.files;
      r := document;
      var i := 0;
      while i < |files|
        invariant i <= |files| && r.items == document.items && |r.files| == |files|
        invariant forall k :: 0 <= k < |files| ==> r.files[k] == if k < i then files[k].Stripped() else files[k]
      {
        if files[i].content != [] {
          AddListed(files, r.files, i, files[i].Stripped());
          r := r.(files := AddFile(r.files, files[i].Stripped()));
        }
        i := i + 1;
      }
      assert r.files == StripFiles(files);
    }

    /** Removes the oldest snapshots while too many are left; a denied removal is skipped. */
    method CleanSnapshotHistory(snapshotId: string, denied: set<string>)
      modifies `documents
      ensures documents == CleanHistory(old(documents), snapshotId, cfg.history, denied)
    {
      if cfg.history == 0 { return; }
      var result := SortedStrings(Older(documents, snapshotId));
      ghost var all := result;
      ghost var n := 0;
      while |result| >= cfg.history
        invariant n <= |all| && result == all[n..] && (n > 0 ==> |all| - n + 1 >= cfg.history)
        invariant documents == old(documents) - (set id | id in all[..n] && id !in denied)
        decreases |result|
      {
        var oldest := result[0];
        assert all[..n + 1] == all[..n] + [oldest];
        if oldest in documents && oldest !in denied { documents := documents - {oldest}; }
        result := result[1..];
        n := n + 1;
      }
      assert n == if |all| < cfg.history then 0 else |all| - cfg.history + 1;
      assert HistoryVictims(old(documents), snapshotId, cfg.history) == all[..n];
    }

    /** Reacts to the saving of a document: its content goes into a new snapshot. */
    method OnSave(document: ItemCollection, ctx: Context) returns (result: Option<ItemCollection>)
      requires document.WellFormed()
      modifies this
      ensures match Spec.OnSave(cfg, old(S()), document, ctx)
              case Rejected => result.None? && S() == old(S())
              case Accepted(s, d) => result == Some(d) && S() == s && d.WellFormed()
    {
      var t := GetString(document.items, TYPE);
      if TYPE_PREFIX <= t || t == "model" || GetBoolean(document.items, NOSNAPSHOT) { return Some(document); }
      if GetBoolean(document.items, SKIPSNAPSHOT) { return Some(document.Remove(SKIPSNAPSHOT)); }
      if t == "workitemlob" { return if cfg.allowWorkitemLob then Some(document) else None; }
      var d := CreateSnapshot(document, ctx);
      result := Some(d);
    }

    method CreateSnapshot(document: ItemCollection, ctx: Context) returns (d: ItemCollection)
      requires document.WellFormed()
      modifies this
      ensures Spec.TakeSnapshot(cfg, old(S()), document, ctx) == Accepted(S(), d)
      ensures d.WellFormed()
    {
      var id, snapshot := MakeSnapshotID(document.UniqueId(), ctx.idTime), document;
      snapshot, d := MakeDocuments(document, id, ctx);
      documents := documents[id := snapshot];
      CleanSnapshotHistory(id, ctx.denied);
      if cfg.archive {
        log := log + [Event(TOPIC_ADD, id)];
      } else if cfg.backup {
        log := log + [Event(TOPIC_BACKUP, id)];
      }
    }

    /** The new snapshot, and the document without content that refers to it. */
    method MakeDocuments(document: ItemCollection, id: string, ctx: Context)
      returns (snapshot: ItemCollection, d: ItemCollection)
      requires document.WellFormed() && id == NewSnapshotID(document, ctx)
      ensures snapshot == NewSnapshot(cfg, S(), document, ctx) && d == NewOrigin(cfg, S(), document, ctx)
      ensures d.WellFormed()
    {
      d := UpdateCustomAttributes(document, ctx);
      snapshot := d;
      var last := GetString(document.items, SNAPSHOTID);
      if last in documents {
        snapshot, d := CopyFilesFromItemCollection(documents[last], d, d, ctx.versionTime);
      }
      d := DropContents(d);
      d := d.Set(SNAPSHOTID, Text(id));
      snapshot := snapshot.Set(UNIQUEID, Text(id)).Set(TYPE, Text(TYPE_PREFIX + GetString(document.items, TYPE)))
                  .Set(NOINDEX, Flag(true)).Set(IMMUTABLE, Flag(true));
    }

    /** The document service notifies the snapshot service and then stores the document. */
    method SaveDocument(document: ItemCollection, ctx: Context) returns (saved: bool)
      requires document.WellFormed()
      modifies this
      ensures S() == Spec.Save(cfg, old(S()), document, ctx)
      ensures saved <==> !Spec.OnSave(cfg, old(S()), document, ctx).Rejected?
    {
      var d := OnSave(document, ctx);
      if d.Some? { documents := documents[d.value.UniqueId() := d.value]; }
      saved := d.Some?;
    }

    /** The ids of the found snapshots, or None for the exception on an empty id. */
    method FindAllSnapshots(uid: string) returns (ids: Option<seq<string>>)
      ensures ids == if uid == "" then None else Some(AllSnapshots(documents, uid))
      ensures ids.Some? ==>
                && Elements(ids.value) <= SnapshotRange(documents, uid)
                && |ids.value| == (if |SnapshotRange(documents, uid)| <= 999
                                   then |SnapshotRange(documents, uid)| else 999)
                && forall a, b :: a in ids.value && b in SnapshotRange(documents, uid) && b !in ids.value ==>
                     StrLeq(b, a)
    {
      if uid == "" { return None; }
      NewestOfRange(documents, uid);
      ids := Some(Limit(Reverse(SortedStrings(SnapshotRange(documents, uid))), DELETE_LIMIT));
    }

    /** Reacts to the deletion of a document: the snapshots found for it are removed. */
    method OnDelete(document: ItemCollection) returns (completed: bool)
      modifies `documents
      ensures completed <==> TYPE_PREFIX <= GetString(document.items, TYPE) || document.UniqueId() != ""
      ensures documents == if completed && !(TYPE_PREFIX <= GetString(document.items, TYPE))
                           then old(documents) - Elements(AllSnapshots(old(documents), document.UniqueId()))
                           else old(documents)
    {
      if TYPE_PREFIX <= GetString(document.items, TYPE) { return true; }
      var found := FindAllSnapshots(document.UniqueId());
      if found.None? { return false; }
      RemoveAll(found.value);
      completed := true;
    }

    method RemoveAll(ids: seq<string>)
      modifies `documents
      ensures documents == old(documents) - Elements(ids)
    {
      ghost var before := documents;
      var i := 0;
      while i < |ids|
        invariant i <= |ids| && documents == before - Elements(ids[..i])
      {
        assert Elements(ids[..i + 1]) == Elements(ids[..i]) + {ids[i]};
        documents := documents - {ids[i]};
        i := i + 1;
      }
      assert ids[..i] == ids;
    }

    /** Stores a posted snapshot if it is missing and rebuilds its origin document. */
    method PostSnapshot(snapshot: ItemCollection, ctx: Context)
      requires snapshot.WellFormed()
      modifies this
      ensures S() == Spec.PostSnapshot(cfg, old(S()), snapshot, ctx)
    {
      if snapshot.UniqueId() !in documents {
        var result := OnSave(snapshot, ctx);
        if result.None? { return; }
        documents := documents[result.value.UniqueId() := result.value];
        RebuildOrigin(result.value, ctx);
      } else {
        RebuildOrigin(snapshot, ctx);
      }
    }

    method RebuildOrigin(snapshot: ItemCollection, ctx: Context)
      requires snapshot.WellFormed()
      modifies this
      ensures S() == Spec.RebuildOrigin(cfg, old(S()), snapshot, ctx)
    {
      var id := snapshot.UniqueId();
      var originId := GetUniqueID(id);
      if originId.None? { return; }
      var d := snapshot.Set(UNIQUEID, Text(originId.value)).Remove(NOINDEX).Remove(IMMUTABLE).Remove(VERSION);
      d := DropContents(d);
      var t := GetString(snapshot.items, TYPE);
      if TYPE_PREFIX <= t { d := d.Set(TYPE, Text(t[|TYPE_PREFIX|..])); }
      d := d.Set(SKIPSNAPSHOT, Flag(true)).Set(SNAPSHOTID, Text(id)).Remove(BACKUPRESTORE);
      assert d == RestoredOrigin(snapshot, originId.value);
      var saved := SaveDocument(d, ctx);
      if cfg.archive { log := log + [Event(TOPIC_ADD, id)]; }
    }
  }
}
