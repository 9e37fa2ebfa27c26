/** Restoring from the archive: a walk over the days of a time range that brings every workitem to
    its latest snapshot in that range. */
module RestoreSchedulers {
  import opened Order
  import opened Items
  import opened Ids
  import opened ArchiveTables
  import I = ArchiveInvariant
  import A = ArchiveRuns
  import opened DataServices

  const RESTORE_FROM := "restore.from"
  const RESTORE_TO := "restore.to"
  const RESTORE_POINT := "restore.point"
  const RESTORE_COUNT := "restore.count"
  const RESTORE_ERRORS := "restore.errors"

  datatype FilterOption = FilterOption(name: string, filter: string)

  /** The time range, the filters with the matcher of regular expressions, and whether the n-th
      attempt to restore a snapshot succeeds. */
  datatype Plan = Plan(from: int, to: int, options: seq<FilterOption>, find: (string, Value) -> bool, ok: nat -> bool)

  /** The snapshot id of every remote workitem, the workitems restored so far, and the counters. */
  datatype Progress = Progress(remote: map<string, string>, restored: seq<string>, count: int, errors: int,
          attempts: nat)

  // ---- one snapshot ----

  function LongText(n: int): string { if n < 0 then "-" + Decimal(-n) else Decimal(n) }

  /** The workitem's snapshot ids in the time range, compared as texts. */
  function InTimeRange(t: Tables, plan: Plan, uid: string): set<string> {
    set id | id in IdsOf(t, uid)
             && StrLeq(uid + "-" + LongText(plan.from), id) && StrLeq(id, uid + "-" + LongText(plan.to))
  }

  function Latest(t: Tables, plan: Plan, uid: string): Option<string> {
    var rows := Limit(Reverse(SortedStrings(InTimeRange(t, plan, uid))), 1);
    if rows == [] then None else Some(rows[0])
  }

  /** Every value of every filtered item matches; an item without values always does. */
  predicate Matches(t: Tables, plan: Plan, id: string) {
    forall o, v :: o in plan.options && v in Values(t, id, o.name) ==> plan.find(o.filter, v)
  }

  function Values(t: Tables, id: string, name: string): seq<Value> {
    if id in t.snapshots && name in t.snapshots[id].items then t.snapshots[id].items[name] else []
  }

  /** The snapshot a workitem is to be restored to. */
  function Goal(t: Tables, plan: Plan, uid: string): Option<string> {
    var latest := Latest(t, plan, uid);
    if latest.Some? && Matches(t, plan, latest.value) then latest else None
  }

  function Uid(id: string): string { QueryText(GetUniqueID(id)) }

  /** A workitem with a goal is restored unless it is there already. */
  function VisitGoal(ok: nat -> bool, p: Progress, uid: string, goal: Option<string>): Progress {
    if goal.None? || (uid in p.remote && p.remote[uid] == goal.value) then p
    else if ok(p.attempts)
    then Progress(p.remote[uid := goal.value], p.restored + [uid], p.count + 1, p.errors, p.attempts + 1)
    else p.(errors := p.errors + 1, attempts := p.attempts + 1)
  }

  function Visit(t: Tables, plan: Plan, p: Progress, id: string): Progress {
    VisitGoal(plan.ok, p, Uid(id), Goal(t, plan, Uid(id)))
  }

  function VisitAll(t: Tables, plan: Plan, p: Progress, ids: seq<string>): Progress
    decreases |ids|
  {
    if ids == [] then p else VisitAll(t, plan, Visit(t, plan, p, ids[0]), ids[1..])
  }

  /** The snapshots met by a walk in steps of a day while the end of the range lies ahead. */
  function ScannedIds(t: Tables, plan: Plan, point: int): seq<string>
    decreases plan.to - point
  {
    if plan.to <= point then [] else SnapshotsByDate(t, Day(point)) + ScannedIds(t, plan, point + DAY_MILLIS)
  }

  function Walk(t: Tables, plan: Plan, p: Progress, point: int): Progress {
    VisitAll(t, plan, p, ScannedIds(t, plan, point))
  }

  lemma {:induction false} VisitAllAppend(t: Tables, plan: Plan, p: Progress, a: seq<string>, b: seq<string>)
    ensures VisitAll(t, plan, p, a + b) == VisitAll(t, plan, VisitAll(t, plan, p, a), b)
    decreases |a|
  {
    if a == [] {
      assert a + b == b;
    } else {
      assert (a + b)[1..] == a[1..] + b;
      VisitAllAppend(t, plan, Visit(t, plan, p, a[0]), a[1..], b);
    }
  }

  /** A day more is walked by visiting its snapshots first. */
  lemma WalkStep(t: Tables, plan: Plan, p: Progress, point: int)
    requires point < plan.to
    ensures Walk(t, plan, p, point) ==
              Walk(t, plan, VisitAll(t, plan, p, SnapshotsByDate(t, Day(point))), point + DAY_MILLIS)
  {
    VisitAllAppend(t, plan, p, SnapshotsByDate(t, Day(point)), ScannedIds(t, plan, point + DAY_MILLIS));
  }

  function FinalPoint(plan: Plan, point: int): int
    decreases plan.to - point
  {
    if plan.to <= point then point else FinalPoint(plan, point + DAY_MILLIS)
  }

  /** Where a walk ends: whole days after its start, at the end of the range or less than a day beyond it. */
  lemma {:induction false} FinalPointIs(plan: Plan, point: int)
    requires point < plan.to
    ensures var final := FinalPoint(plan, point);
            plan.to <= final < plan.to + 86_400_000 && (final - point) % 86_400_000 == 0
    decreases plan.to - point
  {
    if point + DAY_MILLIS < plan.to { FinalPointIs(plan, point + DAY_MILLIS); }
  }

  // ---- which days are scanned ----

  /** The workitems with a snapshot on a scanned day. */
  function Scanned(t: Tables, plan: Plan, point: int): set<string> { Uids(ScannedIds(t, plan, point)) }

  function Uids(ids: seq<string>): set<string> { set id | id in ids :: Uid(id) }

  /** The days from the first one up to the last on which the time of day of the starting point
      still lies before the end. */
  predicate IsScannedDay(plan: Plan, point: int, day: int) {
    Day(point) <= day && point + (day - Day(point)) * DAY_MILLIS < plan.to
  }

  lemma {:induction false} ScannedAre(t: Tables, plan: Plan, point: int, uid: string)
    ensures uid in Scanned(t, plan, point)
            <==> exists day, id :: IsScannedDay(plan, point, day) && (day, id) in t.byModified && Uid(id) == uid
    decreases plan.to - point
  {
    if point < plan.to {
      ScannedAre(t, plan, point + DAY_MILLIS, uid);
      UidsOfDay(t, Day(point), uid);
      UidsAppend(SnapshotsByDate(t, Day(point)), ScannedIds(t, plan, point + DAY_MILLIS));
      DaysSplit(plan, point);
    }
  }

  lemma UidsAppend(a: seq<string>, b: seq<string>)
    ensures Uids(a + b) == Uids(a) + Uids(b)
  {
  }

  lemma UidsOfDay(t: Tables, day: int, uid: string)
    ensures uid in Uids(SnapshotsByDate(t, day)) <==> exists id :: (day, id) in t.byModified && Uid(id) == uid
  {
    SortedStringsEnumerate(set r | r in t.byModified && r.0 == day :: r.1);
    if id :| (day, id) in t.byModified && Uid(id) == uid { assert id in SnapshotsByDate(t, day); }
    if uid in Uids(SnapshotsByDate(t, day)) {
      var id :| id in SnapshotsByDate(t, day) && Uid(id) == uid;
      assert (day, id) in t.byModified;
    }
  }

  lemma DaysSplit(plan: Plan, point: int)
    requires point < plan.to
    ensures forall day :: IsScannedDay(plan, point, day) <==>
              day == Day(point) || IsScannedDay(plan, point + DAY_MILLIS, day)
  {
    assert Day(point + DAY_MILLIS) == Day(point) + 1;
  }

  function TimeOfDay(millis: int): int { millis % 86_400_000 }

  /** Every day of the range before the last is scanned; the last one only if its part of the range
      reaches beyond the time of day at which the range starts. */
  lemma LastDayIsScanned(plan: Plan)
    requires plan.from < plan.to
    ensures forall day :: Day(plan.from) <= day < Day(plan.to) ==> IsScannedDay(plan, plan.from, day)
    ensures IsScannedDay(plan, plan.from, Day(plan.to)) <==> TimeOfDay(plan.from) < TimeOfDay(plan.to)
    ensures forall day :: day < Day(plan.from) || day > Day(plan.to) ==> !IsScannedDay(plan, plan.from, day)
  {
    var a, b := Day(plan.from), Day(plan.to);
    assert plan.from == a * DAY_MILLIS + TimeOfDay(plan.from) && plan.to == b * DAY_MILLIS + TimeOfDay(plan.to);
    forall day | a <= day
      ensures IsScannedDay(plan, plan.from, day) <==> day * DAY_MILLIS + TimeOfDay(plan.from) < plan.to
    {
    }
  }

  // ---- what a restore achieves ----

  type GoalMap = map<string, string>

  function Goals(t: Tables, plan: Plan, uids: set<string>): GoalMap {
    map u | u in uids && Goal(t, plan, u).Some? :: Goal(t, plan, u).value
  }

  function GoalOf(goals: GoalMap, uid: string): Option<string> {
    if uid in goals then Some(goals[uid]) else None
  }

  /** The workitems that are not at their goal. */
  function OutOfDate(goals: GoalMap, remote: map<string, string>, uids: set<string>): set<string> {
    set u | u in uids && u in goals && !(u in remote && remote[u] == goals[u])
  }

  function Reached(goals: GoalMap, uids: set<string>): map<string, string> {
    map u | u in uids && u in goals :: goals[u]
  }

  ghost predicate AllOk(ok: nat -> bool) { forall n :: ok(n) }

  /** What holds after visiting snapshots of the workitems in `seen`: only out-of-date workitems
      were restored, each once and to its goal, and everything is counted. */
  ghost predicate Effect(goals: GoalMap, ok: nat -> bool, first: Progress, p: Progress, seen: set<string>) {
    && Elements(p.restored) <= OutOfDate(goals, first.remote, seen) && |Elements(p.restored)| == |p.restored|
    && p.remote == first.remote + Reached(goals, Elements(p.restored))
    && p.count == first.count + |p.restored| && p.attempts == |p.restored| + p.errors - first.errors
    && (AllOk(ok) ==> Elements(p.restored) == OutOfDate(goals, first.remote, seen) && p.errors == first.errors)
  }

  lemma VisitEffect(goals: GoalMap, ok: nat -> bool, first: Progress, p: Progress, seen: set<string>, u: string)
    requires Effect(goals, ok, first, p, seen)
    ensures Effect(goals, ok, first, VisitGoal(ok, p, u, GoalOf(goals, u)), seen + {u})
  {
    var done, q := Elements(p.restored), VisitGoal(ok, p, u, GoalOf(goals, u));
    OutOfDateStep(goals, first.remote, seen, u);
    if q.restored != p.restored {
      assert Elements(q.restored) == done + {u};
      ReachedStep(goals, first.remote, done, u);
    } else if u in goals && u in p.remote && p.remote[u] == goals[u] {
      ReachedAlready(goals, first.remote, done, u);
    }
  }

  lemma OutOfDateStep(goals: GoalMap, remote: map<string, string>, seen: set<string>, u: string)
    ensures OutOfDate(goals, remote, seen + {u})
            == OutOfDate(goals, remote, seen)
               + if u in goals && !(u in remote && remote[u] == goals[u]) then {u} else {}
  {
  }

  lemma ReachedStep(goals: GoalMap, remote: map<string, string>, done: set<string>, u: string)
    requires u in goals
    ensures (remote + Reached(goals, done))[u := goals[u]] == remote + Reached(goals, done + {u})
    ensures u in done ==> u in remote + Reached(goals, done) && (remote + Reached(goals, done))[u] == goals[u]
    ensures u !in done ==> (u in remote + Reached(goals, done) <==> u in remote)
                           && (u in remote ==> (remote + Reached(goals, done))[u] == remote[u])
  {
  }

  lemma ReachedAlready(goals: GoalMap, remote: map<string, string>, done: set<string>, u: string)
    requires u in goals && u in remote + Reached(goals, done) && (remote + Reached(goals, done))[u] == goals[u]
    ensures u in done || (u in remote && remote[u] == goals[u])
  {
  }

  ghost predicate AreGoals(goals: GoalMap, t: Tables, plan: Plan, uids: set<string>) {
    forall u :: u in uids ==> Goal(t, plan, u) == GoalOf(goals, u)
  }

  lemma {:induction false} VisitAllEffect(goals: GoalMap, t: Tables, plan: Plan, first: Progress, p: Progress,
          seen: set<string>, ids: seq<string>)
    requires Effect(goals, plan.ok, first, p, seen) && AreGoals(goals, t, plan, Uids(ids))
    ensures Effect(goals, plan.ok, first, VisitAll(t, plan, p, ids), seen + Uids(ids))
    decreases |ids|
  {
    if ids == [] {
      assert seen + Uids(ids) == seen;
    } else {
      UidsSplit(ids);
      VisitEffect(goals, plan.ok, first, p, seen, Uid(ids[0]));
      VisitAllEffect(goals, t, plan, first, Visit(t, plan, p, ids[0]), seen + {Uid(ids[0])}, ids[1..]);
      assert seen + {Uid(ids[0])} + Uids(ids[1..]) == seen + Uids(ids);
    }
  }

  lemma UidsSplit(ids: seq<string>)
    requires ids != []
    ensures Uids(ids) == {Uid(ids[0])} + Uids(ids[1..])
  {
    assert ids == [ids[0]] + ids[1..];
  }

  lemma WholeWalk(t: Tables, plan: Plan, first: Progress, point: int)
    requires first.restored == [] && first.attempts == 0
    ensures Effect(Goals(t, plan, Scanned(t, plan, point)), plan.ok, first, Walk(t, plan, first, point),
              Scanned(t, plan, point))
  {
    var seen := Scanned(t, plan, point);
    var goals := Goals(t, plan, seen);
    assert Elements<string>([]) == {};
    assert Reached(goals, {}) == map[];
    VisitAllEffect(goals, t, plan, first, first, {}, ScannedIds(t, plan, point));
    assert {} + seen == seen;
  }

  /** If every attempt succeeds, a restore leaves exactly the workitems that have a snapshot on a
      scanned day, and whose latest snapshot in the range matches the filters, at that snapshot;
      it touches no other workitem, restores each at most once, and counts those that were out of
      date. */
  lemma RestoreCompletes(t: Tables, plan: Plan, remote: map<string, string>, count: int, errors: int, point: int)
    requires AllOk(plan.ok)
    ensures var final, goals := Walk(t, plan, Progress(remote, [], count, errors, 0), point),
              Goals(t, plan, Scanned(t, plan, point));
            && final.remote == remote + goals
            && Elements(final.restored) == OutOfDate(goals, remote, goals.Keys)
            && |final.restored| == |Elements(final.restored)|
            && final.count == count + |OutOfDate(goals, remote, goals.Keys)| && final.errors == errors
  {
    WholeWalk(t, plan, Progress(remote, [], count, errors, 0), point);
    AllReached(Goals(t, plan, Scanned(t, plan, point)), remote, Scanned(t, plan, point));
  }

  lemma AllReached(goals: GoalMap, remote: map<string, string>, seen: set<string>)
    requires goals.Keys <= seen
    ensures OutOfDate(goals, remote, seen) == OutOfDate(goals, remote, goals.Keys)
    ensures remote + Reached(goals, OutOfDate(goals, remote, seen)) == remote + goals
  {
  }

  /** Whatever attempts fail: a workitem is at its goal after a restore, or as it was before; it is
      restored at most once, and every attempt is counted either as restored or as an error. */
  lemma FailuresAreCounted(t: Tables, plan: Plan, remote: map<string, string>, count: int, errors: int, point: int)
    ensures var final, goals := Walk(t, plan, Progress(remote, [], count, errors, 0), point),
              Goals(t, plan, Scanned(t, plan, point));
            && Elements(final.restored) <= OutOfDate(goals, remote, goals.Keys)
            && |final.restored| == |Elements(final.restored)|
            && final.remote == remote + Reached(goals, Elements(final.restored))
            && final.count == count + |final.restored| && final.count - count + final.errors - errors == final.attempts
  {
    WholeWalk(t, plan, Progress(remote, [], count, errors, 0), point);
  }

  // ---- the same in terms of the two indexes ----

  /** Some snapshot of the workitem is indexed under a day of the walk from the start towards the end. */
  ghost predicate IsMet(t: Tables, from: int, to: int, uid: string) {
    exists day, id :: Day(from) <= day && from + (day - Day(from)) * 86_400_000 < to
                      && (day, id) in t.byModified && Uid(id) == uid
  }

  ghost predicate IsInRange(t: Tables, from: int, to: int, uid: string, id: string) {
    && (uid, id) in t.byUniqueId
    && StrLeq(uid + "-" + LongText(from), id) && StrLeq(id, uid + "-" + LongText(to))
  }

  /** The greatest snapshot id of the workitem in the range, and its items match the filters. */
  ghost predicate IsWanted(t: Tables, from: int, to: int, settings: Plan, uid: string, id: string) {
    && IsInRange(t, from, to, uid, id) && (forall x :: IsInRange(t, from, to, uid, x) ==> StrLeq(x, id))
    && id in t.snapshots
    && forall o, v :: o in settings.options && o.name in t.snapshots[id].items && v in t.snapshots[id].items[o.name] ==>
         settings.find(o.filter, v)
  }

  /** What a restore of a range leaves: every workitem that is met and has a wanted snapshot is at it, every
      other one is as it was, and the count is the number of workitems that have changed. */
  ghost predicate IsRestored(t: Tables, from: int, to: int, settings: Plan, before: map<string, string>,
          after: map<string, string>, count: int)
  {
    && (forall uid, id :: IsMet(t, from, to, uid) && IsWanted(t, from, to, settings, uid, id) ==>
          uid in after && after[uid] == id)
    && (forall uid :: !(IsMet(t, from, to, uid) && exists id :: IsWanted(t, from, to, settings, uid, id)) ==>
          (uid in after <==> uid in before) && (uid in before ==> after[uid] == before[uid]))
    && count == |set uid | uid in after && !(uid in before && before[uid] == after[uid])|
  }

  lemma GoalIsWanted(t: Tables, from: int, to: int, settings: Plan, uid: string)
    requires Consistent(t)
    ensures var goal := Goal(t, settings.(from := from, to := to), uid);
            && (goal.Some? ==> IsWanted(t, from, to, settings, uid, goal.value))
            && (forall id :: IsWanted(t, from, to, settings, uid, id) ==> goal == Some(id))
  {
    var plan := settings.(from := from, to := to);
    var all := InTimeRange(t, plan, uid);
    forall x ensures x in all <==> IsInRange(t, from, to, uid, x) {
      if IsInRange(t, from, to, uid, x) { assert (uid, x) in t.byUniqueId; }
    }
    LatestIsGreatest(t, plan, uid);
    LatestInIndex(t, plan, uid);
    forall id | IsWanted(t, from, to, settings, uid, id) ensures Goal(t, plan, uid) == Some(id) {
      assert id in all;
      StrAntisymmetric(Latest(t, plan, uid).value, id);
      assert forall o, v :: o in plan.options && v in Values(t, id, o.name) ==> plan.find(o.filter, v);
    }
  }

  lemma GoalsAreWanted(t: Tables, from: int, to: int, settings: Plan)
    requires Consistent(t)
    ensures var plan := settings.(from := from, to := to);
            forall uid, id :: IsMet(t, from, to, uid) && IsWanted(t, from, to, settings, uid, id) <==>
              IsGoal(t, plan, uid, id)
  {
    forall uid, id ensures IsMet(t, from, to, uid) && IsWanted(t, from, to, settings, uid, id) <==>
                           IsGoal(t, settings.(from := from, to := to), uid, id)
    {
      MetIsScanned(t, settings.(from := from, to := to), uid);
      GoalIsWanted(t, from, to, settings, uid);
    }
  }

  predicate IsGoal(t: Tables, plan: Plan, uid: string, id: string) {
    uid in Scanned(t, plan, plan.from) && Goal(t, plan, uid) == Some(id)
  }

  lemma MetIsScanned(t: Tables, plan: Plan, uid: string)
    ensures IsMet(t, plan.from, plan.to, uid) <==> uid in Scanned(t, plan, plan.from)
  {
    ScannedAre(t, plan, plan.from, uid);
    if day, id :| Day(plan.from) <= day && plan.from + (day - Day(plan.from)) * 86_400_000 < plan.to
                  && (day, id) in t.byModified && Uid(id) == uid {
      assert IsScannedDay(plan, plan.from, day);
    }
    if day, id :| IsScannedDay(plan, plan.from, day) && (day, id) in t.byModified && Uid(id) == uid {
      assert plan.from + (day - Day(plan.from)) * 86_400_000 < plan.to;
    }
  }

  /** If every attempt succeeds, a walk over the range from its start restores it. */
  lemma RangeIsRestored(t: Tables, from: int, to: int, settings: Plan, remote: map<string, string>, errors: int)
    requires Consistent(t) && AllOk(settings.ok)
    ensures var final := Walk(t, settings.(from := from, to := to), Progress(remote, [], 0, errors, 0), from);
            IsRestored(t, from, to, settings, remote, final.remote, final.count) && final.errors == errors
  {
    var plan := settings.(from := from, to := to);
    RestoreCompletes(t, plan, remote, 0, errors, from);
    GoalsAreWanted(t, from, to, settings);
    ChangedAre(Goals(t, plan, Scanned(t, plan, from)), remote);
    GoalsRestore(t, from, to, settings, remote, Goals(t, plan, Scanned(t, plan, from)));
  }

  lemma GoalsRestore(t: Tables, from: int, to: int, settings: Plan, remote: map<string, string>, goals: GoalMap)
    requires forall uid, id :: IsMet(t, from, to, uid) && IsWanted(t, from, to, settings, uid, id) <==>
               IsGoal(t, settings.(from := from, to := to), uid, id)
    requires forall uid, id :: IsGoal(t, settings.(from := from, to := to), uid, id) <==>
               uid in goals && goals[uid] == id
    ensures var after := remote + goals;
            var count := |set uid | uid in after && !(uid in remote && remote[uid] == after[uid])|;
            IsRestored(t, from, to, settings, remote, after, count)
  {
    forall uid | uid in goals
      ensures IsMet(t, from, to, uid) && exists id :: IsWanted(t, from, to, settings, uid, id)
    {
      assert IsGoal(t, settings.(from := from, to := to), uid, goals[uid]);
      assert IsWanted(t, from, to, settings, uid, goals[uid]);
    }
    forall uid, id | IsMet(t, from, to, uid) && IsWanted(t, from, to, settings, uid, id)
      ensures uid in goals && goals[uid] == id
    {
      assert IsGoal(t, settings.(from := from, to := to), uid, id);
    }
  }

  lemma ChangedAre(goals: GoalMap, remote: map<string, string>)
    ensures var after := remote + goals;
            OutOfDate(goals, remote, goals.Keys)
            == set uid | uid in after && !(uid in remote && remote[uid] == after[uid])
  {
  }

  // ---- the latest snapshot ----

  lemma LatestIsGreatest(t: Tables, plan: Plan, uid: string)
    ensures match Latest(t, plan, uid)
            case None => InTimeRange(t, plan, uid) == {}
            case Some(id) => id in InTimeRange(t, plan, uid)
                             && forall x :: x in InTimeRange(t, plan, uid) ==> StrLeq(x, id)
  {
    var all := InTimeRange(t, plan, uid);
    var ids := SortedStrings(all);
    SortedStringsEnumerate(all);
    if ids != [] {
      StrOrder();
      LastIsGreatest(ids, all, StrLeq);
      assert Latest(t, plan, uid) == Some(ids[|ids| - 1]);
    } else {
      assert |all| == 0;
    }
  }

  /** With thirteen-digit times throughout, the latest snapshot is the one with the greatest
      creation time in the range. */
  lemma LatestIsNewest(t: Tables, plan: Plan, uid: string, times: set<nat>)
    requires plan.from >= 0 && Wide(plan.from) && plan.to >= 0 && Wide(plan.to)
    requires (forall s :: s in times ==> Wide(s)) && IdsOf(t, uid) == (set s | s in times :: MakeSnapshotID(uid, s))
    ensures match Latest(t, plan, uid)
            case None => forall s :: s in times ==> !(plan.from <= s <= plan.to)
            case Some(id) => exists s :: s in times && plan.from <= s <= plan.to && id == MakeSnapshotID(uid, s)
                                         && forall r :: r in times && plan.from <= r <= plan.to ==> r <= s
  {
    forall s | s in times ensures MakeSnapshotID(uid, s) in InTimeRange(t, plan, uid) <==> plan.from <= s <= plan.to {
      assert MakeSnapshotID(uid, s) in IdsOf(t, uid);
      IdOrder(uid, plan.from, s);
      IdOrder(uid, s, plan.to);
    }
    LatestIsGreatest(t, plan, uid);
    if Latest(t, plan, uid).Some? {
      var s :| s in times && Latest(t, plan, uid).value == MakeSnapshotID(uid, s);
      forall r | r in times && plan.from <= r <= plan.to ensures r <= s { IdOrder(uid, r, s); }
    }
  }

  predicate AllDigits(s: string) { forall c :: c in s ==> IsDigit(c) }

  lemma ZeroAppended(s: string, zeros: string, a: string)
    requires AllDigits(s) && zeros != [] && zeros[|zeros| - 1] == '0' && s == a + zeros[..|zeros| - 1]
    ensures AllDigits(a + zeros) && DigitsValue(a + zeros) == 10 * DigitsValue(s)
  {
    assert a + zeros == s + ['0'];
    assert (s + ['0'])[..|s|] == s;
  }

  lemma {:induction false} ZeroPadding(a: string, zeros: string)
    requires AllDigits(a) && forall i :: 0 <= i < |zeros| ==> zeros[i] == '0'
    ensures AllDigits(a + zeros) && DigitsValue(a + zeros) == DigitsValue(a) * Power10(|zeros|)
  {
    if zeros == [] {
      assert a + zeros == a;
    } else {
      var shorter := zeros[..|zeros| - 1];
      ZeroPadding(a, shorter);
      ZeroAppended(a + shorter, zeros, a);
      TenTimes(DigitsValue(a), Power10(|shorter|));
    }
  }

  lemma TenTimes(v: nat, p: nat)
    ensures 10 * (v * p) == v * (10 * p)
  {
  }

  /** What the text comparison of two numbers comes to: the shorter one counts as if it were padded
      with zeros to the width of the longer one, and it is the smaller one if the two then agree. */
  predicate TextLeq(a: nat, b: nat) {
    PaddedLeq(a, |Decimal(a)|, b, |Decimal(b)|)
  }

  predicate PaddedLeq(a: nat, w: nat, b: nat, v: nat) {
    if w <= v then a * Power10(v - w) <= b else a < b * Power10(w - v)
  }

  lemma TextOrder(a: nat, b: nat)
    ensures StrLeq(Decimal(a), Decimal(b)) <==> TextLeq(a, b)
  {
    DecimalTextOrder(Decimal(a), Decimal(b), a, b);
  }

  lemma DecimalTextOrder(x: string, y: string, a: nat, b: nat)
    requires AllDigits(x) && AllDigits(y) && DigitsValue(x) == a && DigitsValue(y) == b
    ensures StrLeq(x, y) <==> PaddedLeq(a, |x|, b, |y|)
  {
    DigitTextOrder(x, y);
  }

  lemma DigitTextOrder(x: string, y: string)
    requires AllDigits(x) && AllDigits(y)
    ensures StrLeq(x, y) <==>
            if |x| <= |y| then DigitsValue(x) * Power10(|y| - |x|) <= DigitsValue(y)
            else DigitsValue(x) < DigitsValue(y) * Power10(|x| - |y|)
  {
    if |x| <= |y| {
      Padded(x, y);
    } else {
      Padded(y, x);
      LongerIsGreater(y, x);
    }
  }

  lemma LongerIsGreater(a: string, b: string)
    requires |a| < |b|
    ensures StrLeq(b, a) <==> !StrLeq(a, b)
  {
    StrTotal(a, b);
    if StrLeq(a, b) && StrLeq(b, a) { StrAntisymmetric(a, b); }
  }

  /** For a range of any bounds and a creation time of any width, whether the text comparison admits
      the snapshot. So a start of fewer digits than the times shuts out snapshots that are newer, and
      an end of fewer digits admits snapshots that are newer. */
  lemma AdmittedTimes(t: Tables, plan: Plan, uid: string, time: nat)
    requires MakeSnapshotID(uid, time) in IdsOf(t, uid)
    ensures MakeSnapshotID(uid, time) in InTimeRange(t, plan, uid) <==>
            (plan.from < 0 || TextLeq(plan.from, time)) && plan.to >= 0 && TextLeq(time, plan.to)
  {
    var p, d := uid + "-", Decimal(time);
    assert d[0] in d;
    StrPrefix(p, LongText(plan.from), d);
    StrPrefix(p, d, LongText(plan.to));
    if plan.from >= 0 { TextOrder(plan.from, time); }
    if plan.to >= 0 { TextOrder(time, plan.to); }
  }

  /** A range that ends in the last millisecond of twelve digits, in September 2001, admits every
      snapshot with a thirteen-digit time up to the year 2286. */
  lemma ShortEndAdmitsLater(uid: string, time: nat)
    requires Wide(time) && time < 9_999_999_999_990
    ensures StrLeq(MakeSnapshotID(uid, time), uid + "-" + LongText(999_999_999_999))
  {
    TwelveNines();
    WideIsThirteen(time);
    TextOrder(time, 999_999_999_999);
    StrPrefix(uid + "-", Decimal(time), Decimal(999_999_999_999));
  }

  lemma TwelveNines()
    ensures |Decimal(999_999_999_999)| == 12
  {
    assert Power10(6) == 1_000_000;
    assert Power10(11) == 100_000_000_000 && Power10(12) == 1_000_000_000_000;
    DecimalWidth(999_999_999_999, 12);
  }

  lemma Padded(a: string, b: string)
    requires |a| <= |b| && (forall c :: c in a ==> IsDigit(c)) && (forall c :: c in b ==> IsDigit(c))
    ensures StrLeq(a, b) <==> DigitsValue(a) * Power10(|b| - |a|) <= DigitsValue(b)
  {
    var zeros := seq(|b| - |a|, i => '0');
    ZerosDoNotCount(a, zeros, b);
    ZeroPadding(a, zeros);
    DigitsOrder(a + zeros, b);
  }

  /** A restore that starts at the same millisecond finds none of them. */
  lemma EarlyStartFindsNothing(uid: string, t: nat)
    requires Wide(t) && t < 9_999_999_999_990
    ensures !StrLeq(uid + "-" + LongText(999_999_999_999), MakeSnapshotID(uid, t))
  {
    TwelveNines();
    WideIsThirteen(t);
    TextOrder(999_999_999_999, t);
    StrPrefix(uid + "-", Decimal(999_999_999_999), Decimal(t));
  }

  lemma {:induction false} ZerosDoNotCount(a: string, zeros: string, b: string)
    requires |a| + |zeros| == |b| && (forall i :: 0 <= i < |zeros| ==> zeros[i] == '0')
    requires (forall i :: 0 <= i < |b| ==> IsDigit(b[i]))
    ensures StrLeq(a + zeros, b) <==> StrLeq(a, b)
  {
    if a == [] {
      assert a + zeros == zeros;
      ZerosAreLeast(zeros, b);
    } else {
      assert (a + zeros)[1..] == a[1..] + zeros;
      ZerosDoNotCount(a[1..], zeros, b[1..]);
    }
  }

  lemma {:induction false} ZerosAreLeast(zeros: string, b: string)
    requires |zeros| == |b| && (forall i :: 0 <= i < |zeros| ==> zeros[i] == '0')
    requires (forall i :: 0 <= i < |b| ==> IsDigit(b[i]))
    ensures StrLeq(zeros, b)
  {
    if zeros != [] { ZerosAreLeast(zeros[1..], b[1..]); }
  }

  // ---- the scheduler ----

  /** Index rows lead to stored snapshots under their own ids, and not to the metadata. */
  ghost predicate Consistent(t: Tables) {
    forall r :: r in t.byUniqueId ==>
      r.0 == Uid(r.1) && r.1 != METADATA && r.1 in t.snapshots && t.snapshots[r.1].UniqueId() == r.1
  }

  lemma RepIsConsistent(cfg: Config, pool: iset<Bytes>, t: Tables, view: I.View)
    requires I.Rep(cfg, pool, t, view)
    ensures Consistent(t)
  {
    forall r | r in t.byUniqueId
      ensures r.0 == Uid(r.1) && r.1 != METADATA && r.1 in t.snapshots && t.snapshots[r.1].UniqueId() == r.1
    {
      assert r.1 in view;
    }
  }

  /** Every archive that saves, deletions and metadata updates lead to is consistent. */
  lemma RunIsConsistent(cfg: Config, pool: iset<Bytes>, ops: seq<Operation>)
    requires I.Sound(cfg, pool) && forall op :: op in ops ==> A.Admissible(pool, op)
    ensures Consistent(Run(cfg, EMPTY_TABLES, ops))
  {
    I.EmptyRep(cfg, pool);
    A.RunKeepsRep(cfg, pool, EMPTY_TABLES, map[], ops);
    RepIsConsistent(cfg, pool, Run(cfg, EMPTY_TABLES, ops), A.ViewRun(map[], ops));
  }

  /** The tables differ at most in the metadata document. */
  ghost predicate SameButMetadata(t: Tables, u: Tables) {
    u == t.(snapshots := u.snapshots) && u.snapshots - {METADATA} == t.snapshots - {METADATA}
  }

  lemma LatestInIndex(t: Tables, plan: Plan, uid: string)
    ensures Latest(t, plan, uid).Some? ==> (uid, Latest(t, plan, uid).value) in t.byUniqueId
  {
    LatestIsGreatest(t, plan, uid);
  }

  lemma LatestIsOwn(t: Tables, plan: Plan, uid: string)
    requires Consistent(t) && Latest(t, plan, uid).Some?
    ensures var id := Latest(t, plan, uid).value; Uid(id) == uid && LoadSnapshot(t, id).UniqueId() == id
  {
    LatestInIndex(t, plan, uid);
  }

  lemma SameGoals(t: Tables, u: Tables, plan: Plan, uid: string)
    requires SameButMetadata(t, u) && Consistent(t)
    ensures Latest(u, plan, uid) == Latest(t, plan, uid) && Goal(u, plan, uid) == Goal(t, plan, uid)
  {
    assert InTimeRange(u, plan, uid) == InTimeRange(t, plan, uid);
    LatestInIndex(t, plan, uid);
    if Latest(t, plan, uid).Some? {
      var id := Latest(t, plan, uid).value;
      assert id in t.snapshots - {METADATA} && (u.snapshots - {METADATA})[id] == (t.snapshots - {METADATA})[id];
      assert forall name :: Values(u, id, name) == Values(t, id, name);
    }
  }

  /** A restore with the time range found in the metadata document. */
  function StoredPlan(settings: Plan, metadata: Attributes): Plan {
    settings.(from := GetInteger(metadata, RESTORE_FROM), to := GetInteger(metadata, RESTORE_TO))
  }

  class RestoreScheduler {
    const archive: DataService
    const settings: Plan
    var remote: map<string, string>
    var restored: seq<string>

    constructor (archive: DataService, settings: Plan, remote: map<string, string>)
      ensures this.archive == archive && this.settings == settings && this.remote == remote && restored == []
    {
      this.archive, this.settings, this.remote := archive, settings, remote;
      restored := [];
    }

    /** Prepares a restore of a range. The error count of an earlier restore is kept. */
    method Start(from: int, to: int)
      requires archive.Valid()
      modifies archive`snapshots
      ensures archive.Valid() && SameButMetadata(old(archive.T()), archive.T())
      ensures Recorded(archive.T(), from, 0, GetInteger(LoadSnapshot(old(archive.T()), METADATA).items, RESTORE_ERRORS))
      ensures var m := LoadSnapshot(archive.T(), METADATA).items;
              GetInteger(m, RESTORE_FROM) == from && GetInteger(m, RESTORE_TO) == to
    {
      var m := archive.LoadMetadata();
      m := m.Set(RESTORE_FROM, Number(from)).Set(RESTORE_TO, Number(to))
            .Set(RESTORE_POINT, Number(from)).Set(RESTORE_COUNT, Number(0));
      archive.SaveMetadata(m);
    }

    method FindLatestSnapshotID(plan: Plan, snapshotId: string) returns (latest: Option<string>)
      ensures latest == Latest(archive.T(), plan, Uid(snapshotId))
      ensures match latest
              case None => InTimeRange(archive.T(), plan, Uid(snapshotId)) == {}
              case Some(id) => id in InTimeRange(archive.T(), plan, Uid(snapshotId))
                               && forall x :: x in InTimeRange(archive.T(), plan, Uid(snapshotId)) ==> StrLeq(x, id)
    {
      LatestIsGreatest(archive.T(), plan, Uid(snapshotId));
      var rows := Limit(Reverse(SortedStrings(InTimeRange(archive.T(), plan, QueryText(GetUniqueID(snapshotId))))), 1);
      latest := if rows == [] then None else Some(rows[0]);
    }

    /** Looks for a value that one of the filters does not match. */
    method MatchFilterOptions(plan: Plan, snapshotId: string) returns (match_: bool)
      requires archive.Valid()
      ensures match_ <==> Matches(archive.T(), plan, snapshotId)
    {
      if plan.options == [] { return true; }
      var data := archive.LoadSnapshot(snapshotId);
      var i := 0;
      while i < |plan.options|
        invariant i <= |plan.options|
        invariant forall k, v :: 0 <= k < i && v in Values(archive.T(), snapshotId, plan.options[k].name) ==>
                    plan.find(plan.options[k].filter, v)
      {
        var option := plan.options[i];
        var values := if option.name in data.items then data.items[option.name] else [];
        assert values == Values(archive.T(), snapshotId, option.name);
        var j := 0;
        while j < |values|
          invariant j <= |values| && forall k :: 0 <= k < j ==> plan.find(option.filter, values[k])
        {
          if !plan.find(option.filter, values[j]) {
            assert option in plan.options && values[j] in Values(archive.T(), snapshotId, option.name);
            return false;
          }
          j := j + 1;
        }
        i := i + 1;
      }
      match_ := true;
    }

    ghost function P(count: int, errors: int, attempts: nat): Progress
      reads this
    {
      Progress(remote, restored, count, errors, attempts)
    }

    /** Restores the latest snapshot of the workitem to which a found snapshot belongs. */
    method RestoreLatest(plan: Plan, snapshotId: string, count: int, errors: int, attempts: nat)
      returns (count': int, errors': int, attempts': nat)
      requires archive.Valid() && Consistent(archive.T())
      modifies this
      ensures P(count', errors', attempts') == Visit(archive.T(), plan, old(P(count, errors, attempts)), snapshotId)
    {
      count', errors', attempts' := count, errors, attempts;
      var latest := FindLatestSnapshotID(plan, snapshotId);
      if latest.None? { return; }
      LatestIsOwn(archive.T(), plan, Uid(snapshotId));
      var matches := MatchFilterOptions(plan, latest.value);
      if !matches { return; }
      count', errors', attempts' := RestoreTo(plan, latest.value, count, errors, attempts);
    }

    /** Restores a snapshot unless it is the current one of its workitem already. */
    method RestoreTo(plan: Plan, latest: string, count: int, errors: int, attempts: nat)
      returns (count': int, errors': int, attempts': nat)
      requires archive.Valid() && LoadSnapshot(archive.T(), latest).UniqueId() == latest
      modifies this
      ensures P(count', errors', attempts') ==
                VisitGoal(plan.ok, old(P(count, errors, attempts)), Uid(latest), Some(latest))
    {
      count', errors', attempts' := count, errors, attempts;
      var uid := QueryText(GetUniqueID(latest));
      if uid in remote && remote[uid] == latest { return; }
      var snapshot := archive.LoadSnapshot(latest);
      if plan.ok(attempts) {
        PostSnapshot(snapshot);
        count' := count + 1;
      } else {
        errors' := errors + 1;
      }
      attempts' := attempts + 1;
    }

    /** The posted snapshot becomes the current one of its origin document. */
    method PostSnapshot(snapshot: ItemCollection)
      modifies this
      ensures remote == old(remote)[Uid(snapshot.UniqueId()) := snapshot.UniqueId()]
      ensures restored == old(restored) + [Uid(snapshot.UniqueId())]
    {
      var origin := QueryText(GetUniqueID(snapshot.UniqueId()));
      remote := remote[origin := snapshot.UniqueId()];
      restored := restored + [origin];
    }

    method RestoreDay(plan: Plan, ids: seq<string>, count: int, errors: int, attempts: nat)
      returns (count': int, errors': int, attempts': nat)
      requires archive.Valid() && Consistent(archive.T())
      modifies this
      ensures P(count', errors', attempts') == VisitAll(archive.T(), plan, old(P(count, errors, attempts)), ids)
    {
      count', errors', attempts' := count, errors, attempts;
      var i := 0;
      while i < |ids|
        invariant i <= |ids|
        invariant VisitAll(archive.T(), plan, P(count', errors', attempts'), ids[i..])
                  == VisitAll(archive.T(), plan, old(P(count, errors, attempts)), ids)
      {
        assert ids[i..][1..] == ids[i + 1..] && ids[i..][0] == ids[i];
        count', errors', attempts' := RestoreLatest(plan, ids[i], count', errors', attempts');
        i := i + 1;
      }
    }

    /** Walks from the stored point to the end of the stored range and records its progress day by
        day. */
    method OnTimeout() returns (count: int, errors: int)
      requires archive.Valid() && Consistent(archive.T())
      modifies this, archive`snapshots
      ensures archive.Valid() && SameButMetadata(old(archive.T()), archive.T())
      ensures var start := LoadSnapshot(old(archive.T()), METADATA).items;
              var plan, point := StoredPlan(settings, start), GetInteger(start, RESTORE_POINT);
              var first := Progress(old(remote), old(restored), GetInteger(start, RESTORE_COUNT),
                                    GetInteger(start, RESTORE_ERRORS), 0);
              var final := Walk(old(archive.T()), plan, first, point);
              && remote == final.remote && restored == final.restored
              && count == final.count && errors == final.errors
              && (point < plan.to ==> Recorded(archive.T(), FinalPoint(plan, point), count, errors))
    {
      var metadata := archive.LoadMetadata();
      var plan := StoredPlan(settings, metadata.items);
      count, errors := GetInteger(metadata.items, RESTORE_COUNT), GetInteger(metadata.items, RESTORE_ERRORS);
      count, errors := WalkRange(plan, metadata, GetInteger(metadata.items, RESTORE_POINT), count, errors);
    }

    method WalkRange(plan: Plan, first: ItemCollection, start: int, count: int, errors: int)
      returns (count': int, errors': int)
      requires archive.Valid() && Consistent(archive.T()) && first.WellFormed()
      modifies this, archive`snapshots
      ensures archive.Valid() && SameButMetadata(old(archive.T()), archive.T())
      ensures var final := Walk(old(archive.T()), plan, old(P(count, errors, 0)), start);
              && remote == final.remote && restored == final.restored
              && count' == final.count && errors' == final.errors
      ensures start < plan.to ==> Recorded(archive.T(), FinalPoint(plan, start), count', errors')
    {
      ghost var t := archive.T();
      var metadata, point, attempts: nat := first, start, 0;
      count', errors' := count, errors;
      while plan.to > point
        invariant archive.Valid() && SameButMetadata(t, archive.T()) && metadata.WellFormed()
        invariant Walk(t, plan, P(count', errors', attempts), point) == Walk(t, plan, old(P(count, errors, 0)), start)
        invariant FinalPoint(plan, point) == FinalPoint(plan, start) && start <= point
        invariant start < point ==> Recorded(archive.T(), point, count', errors')
        decreases plan.to - point
      {
        count', errors', attempts := WalkOneDay(plan, t, point, count', errors', attempts);
        point := point + DAY_MILLIS;
        metadata := SaveProgress(metadata, point, count', errors');
      }
    }

    /** A restore from its start: what it achieves if every attempt succeeds. */
    method Restore(from: int, to: int) returns (count: int, errors: int)
      requires archive.Valid() && Consistent(archive.T()) && restored == [] && AllOk(settings.ok)
      modifies this, archive`snapshots
      ensures archive.Valid() && SameButMetadata(old(archive.T()), archive.T())
      ensures IsRestored(old(archive.T()), from, to, settings, old(remote), remote, count)
    {
      ghost var t := archive.T();
      Start(from, to);
      ghost var u := archive.T();
      SameIsConsistent(t, u);
      count, errors := OnTimeout();
      StartedRestore(u, from, to, settings, old(remote));
      SameIsRestored(t, u, from, to, settings, old(remote), remote, count);
    }

    method WalkOneDay(plan: Plan, ghost t: Tables, point: int, count: int, errors: int, attempts: nat)
      returns (count': int, errors': int, attempts': nat)
      requires archive.Valid() && SameButMetadata(t, archive.T()) && Consistent(t) && point < plan.to
      modifies this
      ensures Walk(t, plan, P(count', errors', attempts'), point + DAY_MILLIS) ==
                Walk(t, plan, old(P(count, errors, attempts)), point)
    {
      var ids := archive.LoadSnapshotsByDate(Day(point));
      SameWalk(t, archive.T(), plan, P(count, errors, attempts), point);
      WalkStep(t, plan, P(count, errors, attempts), point);
      count', errors', attempts' := RestoreDay(plan, ids, count, errors, attempts);
    }

    method SaveProgress(metadata: ItemCollection, point: int, count: int, errors: int) returns (m: ItemCollection)
      requires archive.Valid() && metadata.WellFormed()
      modifies archive`snapshots
      ensures archive.Valid() && SameButMetadata(old(archive.T()), archive.T())
      ensures Recorded(archive.T(), point, count, errors) && m.WellFormed()
    {
      m := metadata.Set(RESTORE_POINT, Number(point)).Set(RESTORE_COUNT, Number(count));
      m := m.Set(RESTORE_ERRORS, Number(errors));
      archive.SaveMetadata(m);
    }
  }

  /** The metadata document holds the progress of a restore. */
  ghost predicate Recorded(t: Tables, point: int, count: int, errors: int) {
    var m := LoadSnapshot(t, METADATA).items;
    && GetInteger(m, RESTORE_POINT) == point
    && GetInteger(m, RESTORE_COUNT) == count && GetInteger(m, RESTORE_ERRORS) == errors
  }

  /** The walk of a restore that was started for the range. */
  lemma StartedRestore(t: Tables, from: int, to: int, settings: Plan, remote: map<string, string>)
    requires Consistent(t) && AllOk(settings.ok)
    requires var m := LoadSnapshot(t, METADATA).items;
             && GetInteger(m, RESTORE_FROM) == from && GetInteger(m, RESTORE_TO) == to
             && GetInteger(m, RESTORE_POINT) == from && GetInteger(m, RESTORE_COUNT) == 0
    ensures var m := LoadSnapshot(t, METADATA).items;
            var first := Progress(remote, [], GetInteger(m, RESTORE_COUNT), GetInteger(m, RESTORE_ERRORS), 0);
            var final := Walk(t, StoredPlan(settings, m), first, GetInteger(m, RESTORE_POINT));
            IsRestored(t, from, to, settings, remote, final.remote, final.count)
  {
    var m := LoadSnapshot(t, METADATA).items;
    RangeIsRestored(t, from, to, settings, remote, GetInteger(m, RESTORE_ERRORS));
    assert StoredPlan(settings, m) == settings.(from := from, to := to);
  }

  lemma SameIsConsistent(t: Tables, u: Tables)
    requires SameButMetadata(t, u) && Consistent(t)
    ensures Consistent(u)
  {
    forall r | r in u.byUniqueId
      ensures r.0 == Uid(r.1) && r.1 != METADATA && r.1 in u.snapshots && u.snapshots[r.1].UniqueId() == r.1
    {
      assert r.1 in t.snapshots - {METADATA} && (u.snapshots - {METADATA})[r.1] == (t.snapshots - {METADATA})[r.1];
    }
  }

  /** The metadata do not matter for what is restored. */
  lemma SameIsRestored(t: Tables, u: Tables, from: int, to: int, settings: Plan, before: map<string, string>,
          after: map<string, string>, count: int)
    requires SameButMetadata(t, u) && Consistent(t) && IsRestored(u, from, to, settings, before, after, count)
    ensures IsRestored(t, from, to, settings, before, after, count)
  {
    forall uid, id ensures IsWanted(t, from, to, settings, uid, id) <==> IsWanted(u, from, to, settings, uid, id) {
      assert forall x :: IsInRange(t, from, to, uid, x) <==> IsInRange(u, from, to, uid, x);
      if (uid, id) in t.byUniqueId {
        assert id in t.snapshots - {METADATA} && (u.snapshots - {METADATA})[id] == (t.snapshots - {METADATA})[id];
      }
    }
    assert forall uid :: IsMet(t, from, to, uid) <==> IsMet(u, from, to, uid);
  }

  lemma SameWalk(t: Tables, u: Tables, plan: Plan, p: Progress, point: int)
    requires SameButMetadata(t, u) && Consistent(t)
    ensures Consistent(u) && SnapshotsByDate(u, Day(point)) == SnapshotsByDate(t, Day(point))
    ensures VisitAll(u, plan, p, SnapshotsByDate(t, Day(point))) == VisitAll(t, plan, p, SnapshotsByDate(t, Day(point)))
  {
    SameVisits(t, u, plan, p, SnapshotsByDate(t, Day(point)));
    SameIsConsistent(t, u);
  }

  lemma {:induction false} SameVisits(t: Tables, u: Tables, plan: Plan, p: Progress, ids: seq<string>)
    requires SameButMetadata(t, u) && Consistent(t)
    ensures VisitAll(u, plan, p, ids) == VisitAll(t, plan, p, ids)
    decreases |ids|
  {
    if ids != [] {
      SameGoals(t, u, plan, Uid(ids[0]));
      SameVisits(t, u, plan, Visit(t, plan, p, ids[0]), ids[1..]);
    }
  }
}
