/** What the history cleanup of a save removes. */
module ArchiveHistory {
  import opened Order
  import opened Items
  import opened Ids
  import opened ArchiveTables
  import opened ArchiveInvariant
  import opened ArchiveRuns

  lemma {:induction false} UpToNone(ids: seq<string>, last: string)
    requires forall i :: 0 <= i < |ids| ==> !StrLeq(ids[i], last)
    ensures UpTo(ids, last) == []
  {
    if ids != [] { UpToNone(ids[1..], last); }
  }

  /** Filtering an ascending list by one of its elements keeps the prefix up to it. */
  lemma {:induction false} UpToPrefix(ids: seq<string>, i: nat)
    requires i < |ids| && Ascending(ids, StrLeq)
    ensures UpTo(ids, ids[i]) == ids[..i + 1]
  {
    StrOrder();
    assert StrLeq(ids[0], ids[i]);
    if i == 0 {
      forall k | 0 <= k < |ids[1..]| ensures !StrLeq(ids[1..][k], ids[0]) {
        assert ids[1..][k] == ids[k + 1];
        assert StrLeq(ids[0], ids[k + 1]) && ids[0] != ids[k + 1];
      }
      UpToNone(ids[1..], ids[0]);
    } else {
      assert Ascending(ids[1..], StrLeq);
      UpToPrefix(ids[1..], i - 1);
      assert ids[..i + 1] == [ids[0]] + ids[1..][..i];
    }
  }

  /** How many of `n` snapshots a cleanup removes. */
  function Removed(n: nat, history: int): nat {
    if history <= 0 || n < history then 0
    else var surplus: nat := if n - history < 1 then 1 else n - history;
         if surplus < 100 then surplus else 100
  }

  /** A cleanup removes the oldest snapshots of the workitem: none while there are fewer than the
      history allows, and otherwise the surplus, at least one and at most a hundred. */
  lemma VictimsAreOldest(ids: seq<string>, history: int)
    requires Ascending(ids, StrLeq)
    ensures Removed(|ids|, history) <= |ids|
    ensures Victims(ids, history) == ids[..Removed(|ids|, history)]
  {
    if history > 0 && |ids| >= history {
      OldestRecent(ids, history + 1);
      var i: nat := if |ids| <= history then 0 else |ids| - history - 1;
      UpToPrefix(ids, i);
      assert Victims(ids, history) == Limit(ids[..i + 1], CLEANUP_LIMIT);
    }
  }

  /** The last of the newest rows of a limited query. */
  lemma OldestRecent(ids: seq<string>, limit: nat)
    requires ids != [] && limit > 0
    ensures var recent := Limit(Reverse(ids), limit);
            && |recent| == (if |ids| <= limit then |ids| else limit)
            && recent[|recent| - 1] == ids[|ids| - |recent|]
  {
  }

  /** How many of the given snapshots a walk deletes: the one whose deletion ends early is its last. */
  function Cleared(view: View, ids: seq<string>): (k: nat)
    ensures k <= |ids| && (ids != [] ==> k > 0)
  {
    if ids == [] then 0
    else if !ViewDeleteCompletes(view, ids[0]) then 1
    else 1 + Cleared(view, ids[1..])
  }

  lemma {:induction false} AllCleared(view: View, ids: seq<string>)
    requires forall id :: id in ids ==> ViewDeleteCompletes(view, id)
    ensures Cleared(view, ids) == |ids|
  {
    if ids != [] { AllCleared(view, ids[1..]); }
  }

  lemma {:induction false} ClearedSame(view: View, gone: string, ids: seq<string>)
    requires gone !in ids
    ensures Cleared(view - {gone}, ids) == Cleared(view, ids)
  {
    if ids != [] { ClearedSame(view, gone, ids[1..]); }
  }

  lemma {:induction false} DeleteAllRemoves(view: View, ids: seq<string>)
    requires forall i, j :: 0 <= i < j < |ids| ==> ids[i] != ids[j]
    ensures ViewDeleteAll(view, ids) == view - (set id | id in ids[..Cleared(view, ids)])
    decreases |ids|
  {
    if ids != [] {
      var rest, k := view - {ids[0]}, Cleared(view, ids);
      assert ids[..k] == [ids[0]] + ids[1..][..k - 1];
      FirstRemoved(view, ids[0], ids[1..][..k - 1]);
      if ViewDeleteCompletes(view, ids[0]) {
        DeleteAllRemoves(rest, ids[1..]);
        ClearedSame(view, ids[0], ids[1..]);
      } else {
        assert ids[1..][..k - 1] == [];
      }
    }
  }

  lemma FirstRemoved(view: View, first: string, rest: seq<string>)
    ensures view - (set id | id in [first] + rest) == view - {first} - (set id | id in rest)
  {
    assert (set id | id in [first] + rest) == {first} + (set id | id in rest);
  }

  /** Each snapshot of the workitem has a modification date or an id that ends in a time, so that
      its deletion does not end early. */
  ghost predicate AllDeletable(view: View, uniqueId: string) {
    forall id :: id in ViewIds(view, uniqueId) ==> ViewDeleteCompletes(view, id)
  }

  /** The snapshots of the saved document's workitem, the new one included, in ascending order. */
  ghost function Siblings(view: View, s: ItemCollection): seq<string> {
    SortedStrings(ViewIds(view[s.UniqueId() := s], QueryText(GetUniqueID(s.UniqueId()))))
  }

  /** How many snapshots the cleanup of a save removes. */
  ghost function RemovedBySave(view: View, s: ItemCollection): nat {
    Cleared(view[s.UniqueId() := s], Victims(Siblings(view, s), History(s)))
  }

  lemma SaveRemovesPrefix(view: View, s: ItemCollection)
    requires ViewAccepts(view, s) && Modified(s).Some?
    ensures var ids, k := Siblings(view, s), RemovedBySave(view, s);
            k <= |ids| && ViewSave(view, s) == view[s.UniqueId() := s] - (set id | id in ids[..k])
    ensures RemovedIs(view, s, |Siblings(view, s)|)
  {
    var before, uid := view[s.UniqueId() := s], QueryText(GetUniqueID(s.UniqueId()));
    SortedStringsEnumerate(ViewIds(before, uid));
    VictimsAreOldest(Siblings(view, s), History(s));
    PrefixCleared(before, uid, Siblings(view, s), Removed(|Siblings(view, s)|, History(s)));
  }

  lemma PrefixCleared(before: View, uid: string, ids: seq<string>, n: nat)
    requires Enumerates(ids, ViewIds(before, uid), StrLeq) && n <= |ids|
    ensures var k := Cleared(before, ids[..n]);
            && k <= n && (k == 0 <==> n == 0) && (AllDeletable(before, uid) ==> k == n)
            && ViewDeleteAll(before, ids[..n]) == before - (set id | id in ids[..k])
  {
    var victims := ids[..n];
    DeleteAllRemoves(before, victims);
    assert victims[..Cleared(before, victims)] == ids[..Cleared(before, victims)];
    if AllDeletable(before, uid) {
      forall id | id in victims ensures ViewDeleteCompletes(before, id) { assert id in ids; }
      AllCleared(before, victims);
    }
  }

  /** Of `n` snapshots the surplus is removed, or part of it if the deletion of one ends early. */
  ghost predicate RemovedIs(view: View, s: ItemCollection, n: nat) {
    var k, surplus := RemovedBySave(view, s), Removed(n, GetInteger(s.items, "$snapshot.history"));
    && k <= surplus && (k == 0 <==> surplus == 0)
    && (AllDeletable(view[s.UniqueId() := s], QueryText(GetUniqueID(s.UniqueId()))) ==> k == surplus)
  }

  /** Removing the `k` first of a workitem's snapshots in ascending order. */
  lemma PrefixRemoved(before: View, after: View, uid: string, ids: seq<string>, k: nat)
    requires Enumerates(ids, ViewIds(before, uid), StrLeq) && k <= |ids|
    requires after == before - (set id | id in ids[..k])
    ensures |ViewIds(after, uid)| == |ids| - k
    ensures forall id :: id in after ==> id in before && after[id] == before[id]
    ensures forall id :: id in before && id !in after ==> id in ViewIds(before, uid)
    ensures forall id, kept :: id in before && id !in after && kept in ViewIds(after, uid) ==>
              StrLeq(id, kept) && id != kept
  {
    var victims := ids[..k];
    var gone := set id | id in victims;
    assert forall id :: id in victims ==> id in ids;
    DistinctCount(victims);
    assert ViewIds(after, uid) == ViewIds(before, uid) - gone;
    forall id, kept | id in before && id !in after && kept in ViewIds(after, uid)
      ensures StrLeq(id, kept) && id != kept
    {
      PrefixBelow(ids, k, id, kept, StrLeq);
    }
  }

  /** A save removes only the oldest snapshots of its own workitem and keeps everything else. It
      removes the surplus, or a part of it if the deletion of a snapshot ends early. */
  lemma SavePrunesOldest(view: View, s: ItemCollection)
    requires ViewAccepts(view, s) && Modified(s).Some?
    ensures var uid := QueryText(GetUniqueID(s.UniqueId()));
            var before, after := view[s.UniqueId() := s], ViewSave(view, s);
            var n := |ViewIds(before, uid)|;
            && |ViewIds(after, uid)| == n - RemovedBySave(view, s) && RemovedIs(view, s, n)
            && (forall id :: id in after ==> id in before && after[id] == before[id])
            && (forall id :: id in before && id !in after ==> id in ViewIds(before, uid))
            && (forall id, kept :: id in before && id !in after && kept in ViewIds(after, uid) ==>
                  StrLeq(id, kept) && id != kept)
  {
    var uid, before, ids := QueryText(GetUniqueID(s.UniqueId())), view[s.UniqueId() := s], Siblings(view, s);
    SortedStringsEnumerate(ViewIds(before, uid));
    SaveRemovesPrefix(view, s);
    PrefixRemoved(before, ViewSave(view, s), uid, ids, RemovedBySave(view, s));
  }

  /** The newest snapshot survives its own save unless it is the only one and the history is one:
      then the cleanup deletes the snapshot that was just written. */
  lemma NewestSurvives(view: View, s: ItemCollection)
    requires ViewAccepts(view, s) && Modified(s).Some?
    requires forall id :: id in ViewIds(view, QueryText(GetUniqueID(s.UniqueId()))) ==> StrLeq(id, s.UniqueId())
    ensures s.UniqueId() in ViewSave(view, s)
            <==> !(GetInteger(s.items, "$snapshot.history") == 1
                   && ViewIds(view, QueryText(GetUniqueID(s.UniqueId()))) == {})
  {
    var ids, k := Siblings(view, s), RemovedBySave(view, s);
    NewestSibling(view, s);
    SaveRemovesPrefix(view, s);
    LastInPrefix(ids, k);
    assert s.UniqueId() in ViewSave(view, s) <==> k < |ids|;
    RemovesAll(view, s, |ids|);
  }

  lemma NewestSibling(view: View, s: ItemCollection)
    requires s.UniqueId() !in view
    requires forall id :: id in ViewIds(view, QueryText(GetUniqueID(s.UniqueId()))) ==> StrLeq(id, s.UniqueId())
    ensures var ids, others := Siblings(view, s), ViewIds(view, QueryText(GetUniqueID(s.UniqueId())));
            && Ascending(ids, StrLeq) && |ids| > 0 && ids[|ids| - 1] == s.UniqueId()
            && (|ids| == 1 <==> others == {})
  {
    var uid, id, ids := QueryText(GetUniqueID(s.UniqueId())), s.UniqueId(), Siblings(view, s);
    SortedStringsEnumerate(ViewIds(view[id := s], uid));
    StrTotal(id, id);
    OneMore(view, s);
    NewestIsLast(ids, id);
  }

  lemma OneMore(view: View, s: ItemCollection)
    requires s.UniqueId() !in view
    ensures var uid, id := QueryText(GetUniqueID(s.UniqueId())), s.UniqueId();
            && ViewIds(view[id := s], uid) == ViewIds(view, uid) + {id}
            && |ViewIds(view[id := s], uid)| == |ViewIds(view, uid)| + 1
  {
    var uid, id := QueryText(GetUniqueID(s.UniqueId())), s.UniqueId();
    assert ViewIds(view[id := s], uid) == ViewIds(view, uid) + {id};
  }

  lemma RemovesAll(view: View, s: ItemCollection, n: nat)
    requires RemovedIs(view, s, n) && n > 0
    ensures RemovedBySave(view, s) == n <==> History(s) == 1 && n == 1
    ensures RemovedBySave(view, s) <= n
  {
  }

  lemma LastInPrefix(ids: seq<string>, k: nat)
    requires Ascending(ids, StrLeq) && ids != [] && k <= |ids|
    ensures ids[|ids| - 1] in ids[..k] <==> k == |ids|
  {
    if k == |ids| { assert ids[..k] == ids; }
    assert forall i :: 0 <= i < k ==> ids[..k][i] == ids[i];
  }

  lemma NewestIsLast(ids: seq<string>, id: string)
    requires Ascending(ids, StrLeq) && id in ids && forall x :: x in ids ==> StrLeq(x, id)
    ensures ids[|ids| - 1] == id
  {
    var i :| 0 <= i < |ids| && ids[i] == id;
    if i < |ids| - 1 {
      assert ids[|ids| - 1] in ids;
      StrAntisymmetric(ids[i], ids[|ids| - 1]);
    }
  }
}
