/** The full backup: requests for all documents of a workflow instance, page by page in the order of
    their creation. The paging compares with the sync point rounded down to whole seconds. */
module FullBackups {
  import opened Order
  import opened Items

  const PAGE_SIZE := 100

  datatype Document = Document(created: int, snapshotId: string)

  /** The documents of the instance that are no snapshots. */
  type Docs = map<string, Document>

  function Created(docs: Docs, id: string): int { if id in docs then docs[id].created else 0 }

  predicate Earlier(docs: Docs, a: string, b: string) {
    Created(docs, a) < Created(docs, b) || (Created(docs, a) == Created(docs, b) && StrLeq(a, b))
  }

  function CreationOrder(docs: Docs): (string, string) -> bool { (a, b) => Earlier(docs, a, b) }

  lemma CreationOrderIsTotal(docs: Docs)
    ensures TotalOrder(CreationOrder(docs))
  {
    StrOrder();
  }

  /** The begin of the second a point in time lies in. */
  function Second(t: int): int { t - t % 1000 }

  function After(docs: Docs, t: int): set<string> { set id | id in docs && docs[id].created > t }

  /** The documents created strictly within a second. */
  function Within(docs: Docs, second: int): set<string> {
    set id | id in docs && second < docs[id].created < second + 1000
  }

  /** The query for the next page: created after the second of the sync point, oldest first. */
  function Page(docs: Docs, point: int): seq<string> {
    CreationOrderIsTotal(docs);
    Limit(Sorted(After(docs, Second(point)), CreationOrder(docs)), PAGE_SIZE)
  }

  function Requests(docs: Docs, page: seq<string>): seq<string> {
    if page == [] then [] else RequestFor(docs, page[0]) + Requests(docs, page[1..])
  }

  function RequestFor(docs: Docs, id: string): seq<string> {
    if id in docs && docs[id].snapshotId != "" then [docs[id].snapshotId] else []
  }

  /** One document more is requested. */
  lemma RequestsStep(docs: Docs, page: seq<string>, i: nat, requests: seq<string>)
    requires i < |page|
    ensures requests + Requests(docs, page[i..])
            == (requests + RequestFor(docs, page[i])) + Requests(docs, page[i + 1..])
  {
    assert page[i..][1..] == page[i + 1..];
  }

  datatype State = State(point: int, running: bool, requests: seq<string>)

  const START := State(0, true, [])

  /** One timeout: a page of at most one document ends the backup without a request. */
  function Timeout(docs: Docs, y: State): State {
    var page := Page(docs, y.point);
    if |page| <= 1 then y.(running := false)
    else State(Created(docs, page[|page| - 1]), y.running, y.requests + Requests(docs, page))
  }

  function Run(docs: Docs, n: nat): State {
    if n == 0 then START
    else var y := Run(docs, n - 1); if y.running then Timeout(docs, y) else y
  }

  // ---- the service ----

  class FullBackupService {
    const docs: Docs
    var syncPoint: Option<int>
    var running: bool
    var requests: seq<string>

    constructor (docs: Docs)
      ensures this.docs == docs && Y() == START
    {
      this.docs := docs;
      syncPoint, running, requests := None, true, [];
    }

    function Y(): State
      reads this
    {
      State(if syncPoint.Some? then syncPoint.value else 0, running, requests)
    }

    method OnTimeout()
      modifies this
      ensures Y() == Timeout(docs, old(Y()))
    {
      var point := if syncPoint.Some? then syncPoint.value else 0;
      var result := Page(docs, point);
      if |result| <= 1 {
        running := false;
        return;
      }
      point := CreateRequests(result, point);
      syncPoint := Some(point);
    }

    /** Requests a backup for every document with a snapshot; returns the creation date of the last one. */
    method CreateRequests(result: seq<string>, point: int) returns (last: int)
      modifies this`requests
      ensures requests == old(requests) + Requests(docs, result)
      ensures last == if result == [] then point else Created(docs, result[|result| - 1])
    {
      last := point;
      var i := 0;
      while i < |result|
        invariant i <= |result| && requests + Requests(docs, result[i..]) == old(requests) + Requests(docs, result)
        invariant last == if i == 0 then point else Created(docs, result[i - 1])
      {
        RequestsStep(docs, result, i, requests);
        assert requests + [] == requests;
        var created := Created(docs, result[i]);
        if result[i] in docs && docs[result[i]].snapshotId != "" {
          requests := requests + [docs[result[i]].snapshotId];
        }
        last := created;
        i := i + 1;
      }
    }
  }

  // ---- pages ----

  lemma PageFacts(docs: Docs, point: int)
    ensures var page, all := Page(docs, point), After(docs, Second(point));
            && |page| == (if |all| < PAGE_SIZE then |all| else PAGE_SIZE)
            && (forall id :: id in page ==> id in all)
            && (page != [] ==> forall id :: id in all && docs[id].created < Created(docs, page[|page| - 1]) ==>
                  id in page)
            && (page != [] ==> forall id :: id in page ==> Created(docs, id) <= Created(docs, page[|page| - 1]))
            && (|all| <= PAGE_SIZE ==> forall id :: id in all ==> id in page)
            && |Elements(page)| == |page|
  {
    CreationOrderIsTotal(docs);
    var all, leq := After(docs, Second(point)), CreationOrder(docs);
    var r := Sorted(all, leq);
    SortedEnumerates(all, leq);
    var page := Page(docs, point);
    assert page == r[..|page|];
    assert |r| == |all|;
    PrefixElements(r, all, |page|, leq);
    if page != [] { PrefixDates(docs, all, r, |page|); }
  }

  lemma PrefixElements(r: seq<string>, all: set<string>, k: nat, leq: (string, string) -> bool)
    requires Enumerates(r, all, leq) && k <= |r|
    ensures (forall id :: id in r[..k] ==> id in all) && |Elements(r[..k])| == k
    ensures k == |r| ==> forall id :: id in all ==> id in r[..k]
  {
    DistinctCount(r[..k]);
    if k == |r| { assert r[..k] == r; }
    assert forall id :: id in r[..k] ==> id in r;
  }

  lemma PrefixDates(docs: Docs, all: set<string>, r: seq<string>, k: nat)
    requires Enumerates(r, all, CreationOrder(docs)) && 0 < k <= |r|
    ensures forall id :: id in r[..k] ==> Created(docs, id) <= Created(docs, r[k - 1])
    ensures forall id :: id in all && Created(docs, id) < Created(docs, r[k - 1]) ==> id in r[..k]
  {
    var leq, last := CreationOrder(docs), r[k - 1];
    forall id | id in r[..k] ensures Created(docs, id) <= Created(docs, last) {
      var i :| 0 <= i < k && r[..k][i] == id;
      assert i < k - 1 ==> leq(r[i], last);
    }
    forall id | id in all && Created(docs, id) < Created(docs, last) ensures id in r[..k] {
      var i :| 0 <= i < |r| && r[i] == id;
      assert forall j :: k <= j < |r| ==> leq(last, r[j]);
      assert r[..k][i] == id;
    }
  }

  lemma {:induction false} RequestsAre(docs: Docs, page: seq<string>, s: string)
    ensures s in Requests(docs, page) <==> s != "" && exists id :: id in page && id in docs && docs[id].snapshotId == s
  {
    if page != [] {
      RequestsAre(docs, page[1..], s);
      assert page == [page[0]] + page[1..];
    }
  }

  // ---- coverage ----

  /** No two documents were created on the same whole second. */
  ghost predicate DistinctSeconds(docs: Docs) {
    forall a, b :: a in docs && b in docs && docs[a].created == docs[b].created && docs[a].created % 1000 == 0 ==>
      a == b
  }

  ghost predicate AllPositive(docs: Docs) { forall id :: id in docs ==> docs[id].created > 0 }

  /** The document has no snapshot, or a backup of its snapshot is requested. */
  predicate Asked(docs: Docs, y: State, id: string)
    requires id in docs
  {
    docs[id].snapshotId == "" || docs[id].snapshotId in y.requests
  }

  /** Everything created before the sync point is requested, and a document created at it. */
  ghost predicate Covered(docs: Docs, y: State) {
    && (forall id :: id in docs && docs[id].created < y.point ==> Asked(docs, y, id))
    && (y.point != 0 ==> exists id :: id in docs && docs[id].created == y.point && Asked(docs, y, id))
  }

  lemma TimeoutCovers(docs: Docs, y: State)
    requires DistinctSeconds(docs) && AllPositive(docs) && Covered(docs, y) && y.point >= 0
    ensures Covered(docs, Timeout(docs, y))
  {
    var page, y' := Page(docs, y.point), Timeout(docs, y);
    PageFacts(docs, y.point);
    if |page| > 1 {
      var last := page[|page| - 1];
      PageAsked(docs, y);
      assert last in page;
      forall id | id in docs && docs[id].created < y'.point ensures Asked(docs, y', id) {
        if docs[id].created > Second(y.point) {
          assert id in page;
        } else {
          AskedBefore(docs, y, id);
        }
      }
    }
  }

  lemma PageAsked(docs: Docs, y: State)
    requires |Page(docs, y.point)| > 1
    ensures forall id :: id in Page(docs, y.point) ==> id in docs && Asked(docs, Timeout(docs, y), id)
    ensures forall id :: id in docs && Asked(docs, y, id) ==> Asked(docs, Timeout(docs, y), id)
  {
    PageFacts(docs, y.point);
    forall id | id in Page(docs, y.point) ensures id in docs && Asked(docs, Timeout(docs, y), id) {
      RequestsAre(docs, Page(docs, y.point), docs[id].snapshotId);
    }
  }

  /** What was created up to the second of the sync point is requested. */
  lemma AskedBefore(docs: Docs, y: State, id: string)
    requires DistinctSeconds(docs) && AllPositive(docs) && Covered(docs, y) && y.point >= 0
    requires id in docs && docs[id].created <= Second(y.point)
    ensures Asked(docs, y, id)
  {
    if docs[id].created == y.point {
      var d :| d in docs && docs[d].created == y.point && Asked(docs, y, d);
      assert d == id;
    }
  }

  /** At every step of a full backup all documents created before the sync point are requested, and one that
      was created at it, if no two were created on the same whole second. */
  lemma {:induction false} RunCovers(docs: Docs, n: nat)
    requires DistinctSeconds(docs) && AllPositive(docs)
    ensures Covered(docs, Run(docs, n))
  {
    if n > 0 {
      RunCovers(docs, n - 1);
      PointIsCreation(docs, n - 1);
      TimeoutCovers(docs, Run(docs, n - 1));
    }
  }

  /** The document lies behind the sync point without being requested. */
  predicate LeftBehind(docs: Docs, y: State, id: string)
    requires id in docs
  {
    y.point >= docs[id].created && docs[id].snapshotId !in y.requests
  }

  ghost predicate OnWholeSecond(docs: Docs, id: string) {
    DistinctSnapshots(docs) && id in docs && docs[id].created % 1000 == 0 && docs[id].snapshotId != ""
  }

  /** The next page ends with a document created at the same time as `twin`, which is not on it. */
  predicate EndsBefore(docs: Docs, y: State, twin: string)
    requires twin in docs
  {
    var page := Page(docs, y.point);
    && |page| > 1 && Created(docs, page[|page| - 1]) == docs[twin].created && twin !in page
    && docs[twin].snapshotId !in y.requests
  }

  /** Of two documents created on the same whole second, the one that a page ends before is never requested. */
  lemma MissedTwin(docs: Docs, n: nat, m: nat, twin: string)
    requires OnWholeSecond(docs, twin) && n < m && Run(docs, n).running && EndsBefore(docs, Run(docs, n), twin)
    ensures LeftBehind(docs, Run(docs, m), twin)
  {
    TwinPassed(docs, Run(docs, n), twin);
    assert Run(docs, n + 1) == Timeout(docs, Run(docs, n));
    StaysLeftBehind(docs, n + 1, m, twin);
  }

  lemma {:induction false} StaysLeftBehind(docs: Docs, n: nat, m: nat, id: string)
    requires OnWholeSecond(docs, id) && n <= m && LeftBehind(docs, Run(docs, n), id)
    ensures LeftBehind(docs, Run(docs, m), id)
  {
    if n < m {
      StaysLeftBehind(docs, n, m - 1, id);
      StaysBehind(docs, Run(docs, m - 1), id);
    }
  }

  lemma TwinPassed(docs: Docs, y: State, twin: string)
    requires OnWholeSecond(docs, twin) && EndsBefore(docs, y, twin)
    ensures LeftBehind(docs, Timeout(docs, y), twin)
  {
    NotOnPage(docs, y, twin);
  }

  lemma StaysBehind(docs: Docs, y: State, twin: string)
    requires OnWholeSecond(docs, twin) && LeftBehind(docs, y, twin)
    ensures LeftBehind(docs, Timeout(docs, y), twin)
  {
    PageIsLater(docs, y.point, docs[twin].created);
    NotOnPage(docs, y, twin);
    var page := Page(docs, y.point);
    if |page| > 1 { assert page[|page| - 1] in page; }
  }

  lemma NotOnPage(docs: Docs, y: State, id: string)
    requires DistinctSnapshots(docs) && id in docs && docs[id].snapshotId != "" && id !in Page(docs, y.point)
    requires docs[id].snapshotId !in y.requests
    ensures docs[id].snapshotId !in Timeout(docs, y).requests
  {
    RequestsAre(docs, Page(docs, y.point), docs[id].snapshotId);
  }

  /** From a whole second on, a page holds only what was created after it. */
  lemma PageIsLater(docs: Docs, point: int, c: int)
    requires c % 1000 == 0 && point >= c
    ensures forall id :: id in Page(docs, point) ==> id in docs && docs[id].created > c
  {
    PageFacts(docs, point);
    SecondGrows(c, point);
  }

  // ---- what is reached ----

  /** The sync point of a run: its start or the creation date of a document. */
  lemma {:induction false} PointIsCreation(docs: Docs, n: nat)
    requires AllPositive(docs)
    ensures var y := Run(docs, n); y.point == 0 || exists id :: id in docs && docs[id].created == y.point
    ensures Run(docs, n).point >= 0
  {
    if n > 0 {
      PointIsCreation(docs, n - 1);
      var y := Run(docs, n - 1);
      var page := Page(docs, y.point);
      PageFacts(docs, y.point);
      if |page| > 1 { assert page[|page| - 1] in page; }
    }
  }

  ghost predicate Complete(docs: Docs, y: State) {
    forall id :: id in docs ==> Asked(docs, y, id)
  }

  ghost predicate DistinctSnapshots(docs: Docs) {
    forall a, b :: a in docs && b in docs && docs[a].snapshotId == docs[b].snapshotId != "" ==> a == b
  }

  ghost predicate IsNewestDocument(docs: Docs, w: string) {
    w in docs && forall id :: id in docs ==> docs[id].created <= docs[w].created
  }

  /** When a full backup has stopped, everything was requested exactly if the sync point has reached
      the newest document or that one has no snapshot. */
  lemma StoppedMisses(docs: Docs, w: string, n: nat)
    requires DistinctSeconds(docs) && AllPositive(docs) && DistinctSnapshots(docs)
    requires IsNewestDocument(docs, w) && !Run(docs, n).running
    ensures var y := Run(docs, n);
            Complete(docs, y) <==> y.point == docs[w].created || docs[w].snapshotId == ""
  {
    var y := Run(docs, n);
    OnlyNewestMissed(docs, w, n);
    StoppedPage(docs, n);
    PageFacts(docs, y.point);
    RunCovers(docs, n);
    if y.point == docs[w].created { AskedAtPoint(docs, y, w); }
    if y.point != docs[w].created && docs[w].snapshotId in y.requests && docs[w].snapshotId != "" {
      NewestIsLast(docs, w, n);
      LastSecondNeverStops(docs, docs[w].created, n);
      assert false;
    }
  }

  /** No other document than the newest one can be missed. */
  lemma OnlyNewestMissed(docs: Docs, w: string, n: nat)
    requires DistinctSeconds(docs) && AllPositive(docs) && IsNewestDocument(docs, w) && !Run(docs, n).running
    ensures forall id :: id in docs && id != w ==> Asked(docs, Run(docs, n), id)
  {
    var y := Run(docs, n);
    StoppedPage(docs, n);
    PageFacts(docs, y.point);
    RunCovers(docs, n);
    forall id | id in docs && id != w ensures Asked(docs, y, id) {
      AtMostOne(docs, w, id, y.point);
      if docs[id].created == y.point { AskedAtPoint(docs, y, id); }
    }
  }

  /** With at most one document beyond the second of the sync point there is only one at it. */
  lemma AskedAtPoint(docs: Docs, y: State, id: string)
    requires DistinctSeconds(docs) && AllPositive(docs) && Covered(docs, y)
    requires |After(docs, Second(y.point))| <= 1 && id in docs && docs[id].created == y.point
    ensures Asked(docs, y, id)
  {
    var d :| d in docs && docs[d].created == y.point && Asked(docs, y, d);
    if d != id && y.point % 1000 != 0 { SubsetCount({id, d}, After(docs, Second(y.point))); }
  }

  lemma AtMostOne(docs: Docs, w: string, id: string, point: int)
    requires IsNewestDocument(docs, w) && id in docs && id != w && |After(docs, Second(point))| <= 1
    ensures docs[id].created <= point
  {
    if docs[id].created > point { SubsetCount({id, w}, After(docs, Second(point))); }
  }

  /** The newest document is requested only when the sync point reaches it. */
  lemma {:induction false} NewestIsLast(docs: Docs, w: string, n: nat)
    requires DistinctSnapshots(docs) && IsNewestDocument(docs, w) && docs[w].snapshotId != ""
    ensures var y := Run(docs, n);
            docs[w].snapshotId in y.requests ==>
              y.point == docs[w].created || |After(docs, Second(docs[w].created))| > 1
  {
    if n > 0 {
      NewestIsLast(docs, w, n - 1);
      var y := Run(docs, n - 1);
      var page := Page(docs, y.point);
      PageFacts(docs, y.point);
      if |page| > 1 && docs[w].snapshotId in Requests(docs, page) {
        RequestsAre(docs, page, docs[w].snapshotId);
        assert w in page && page[|page| - 1] in page;
      }
    }
  }

  /** No document on a whole second has exactly one document after it. */
  ghost predicate NoLoneNewest(docs: Docs) {
    forall id :: id in docs && docs[id].created % 1000 == 0 ==> |After(docs, docs[id].created)| != 1
  }

  /** With at least two documents, and none created alone after a whole second at which another one
      was created, a full backup that stops has requested everything. */
  lemma StoppedIsComplete(docs: Docs, n: nat)
    requires DistinctSeconds(docs) && AllPositive(docs) && !Run(docs, n).running
    requires |docs| >= 2 && NoLoneNewest(docs)
    ensures Complete(docs, Run(docs, n))
  {
    var y := Run(docs, n);
    StoppedPage(docs, n);
    PageFacts(docs, y.point);
    RunCovers(docs, n);
    PointIsCreation(docs, n);
    assert After(docs, 0) == docs.Keys;
    NothingLeft(docs, y.point);
    forall id | id in docs ensures Asked(docs, y, id) {
      if docs[id].created == y.point { AskedAtPoint(docs, y, id); }
    }
  }

  lemma NothingLeft(docs: Docs, point: int)
    requires NoLoneNewest(docs) && |After(docs, Second(point))| <= 1
    requires exists d :: d in docs && docs[d].created == point
    ensures forall id :: id in docs ==> docs[id].created <= point
  {
    var d :| d in docs && docs[d].created == point;
    var left := After(docs, Second(point));
    if point % 1000 != 0 {
      assert d in left;
      OnlyOne(left, d);
    } else {
      assert left == After(docs, docs[d].created) && |left| == 0;
    }
    assert forall id :: id in docs && docs[id].created > point ==> id in left && id != d;
  }

  /** If all documents were created on whole seconds, a full backup stops, and then it has missed the newest
      one exactly if their number is one more than a multiple of the page size. */
  lemma WholeSecondsMiss(docs: Docs, w: string)
    requires DistinctSeconds(docs) && AllPositive(docs) && DistinctSnapshots(docs)
    requires forall id :: id in docs ==> docs[id].created % 1000 == 0
    requires IsNewestDocument(docs, w) && docs[w].snapshotId != ""
    ensures exists n :: !Run(docs, n).running
    ensures forall n :: !Run(docs, n).running ==> (Complete(docs, Run(docs, n)) <==> |docs| % 100 != 1)
  {
    WholeSecondsStop(docs, docs[w].created);
    forall n | !Run(docs, n).running ensures Complete(docs, Run(docs, n)) <==> |docs| % 100 != 1 {
      StoppedWholeSeconds(docs, w, n);
    }
  }

  lemma StoppedWholeSeconds(docs: Docs, w: string, n: nat)
    requires DistinctSeconds(docs) && AllPositive(docs) && DistinctSnapshots(docs)
    requires forall id :: id in docs ==> docs[id].created % 1000 == 0
    requires IsNewestDocument(docs, w) && docs[w].snapshotId != "" && !Run(docs, n).running
    ensures Complete(docs, Run(docs, n)) <==> |docs| % 100 != 1
  {
    var point := Run(docs, n).point;
    StoppedMisses(docs, w, n);
    WholeSecondsLeft(docs, n);
    WholeSecondsEnd(docs, w, n);
    LeftAtEnd(|docs|, |After(docs, point)|);
  }

  lemma LeftAtEnd(all: nat, left: nat)
    requires IsLeft(all, left) && left <= 1
    ensures left == 0 <==> all % 100 != 1
  {
  }

  lemma WholeSecondsEnd(docs: Docs, w: string, n: nat)
    requires AllPositive(docs) && IsNewestDocument(docs, w) && !Run(docs, n).running
    requires Run(docs, n).point % 1000 == 0
    ensures var point := Run(docs, n).point;
            |After(docs, point)| <= 1 && (|After(docs, point)| == 0 <==> point == docs[w].created)
  {
    var point := Run(docs, n).point;
    StoppedPage(docs, n);
    PageFacts(docs, point);
    PointIsCreation(docs, n);
    if point == docs[w].created {
      assert After(docs, point) == {};
    } else {
      assert w in After(docs, point);
    }
  }

  /** The documents still to come: none, or as many as there were at first but for whole pages. */
  predicate IsLeft(all: nat, left: nat) {
    if left == 0 then all % 100 != 1 else left % 100 == all % 100
  }

  lemma {:induction false} WholeSecondsLeft(docs: Docs, n: nat)
    requires DistinctSeconds(docs) && AllPositive(docs) && forall id :: id in docs ==> docs[id].created % 1000 == 0
    ensures IsLeft(|docs|, |After(docs, Run(docs, n).point)|) && Run(docs, n).point % 1000 == 0
  {
    if n == 0 {
      assert After(docs, 0) == docs.Keys;
    } else {
      WholeSecondsLeft(docs, n - 1);
      LeftStep(docs, Run(docs, n - 1));
    }
  }

  lemma LeftStep(docs: Docs, y: State)
    requires DistinctSeconds(docs) && forall id :: id in docs ==> docs[id].created % 1000 == 0
    requires IsLeft(|docs|, |After(docs, y.point)|) && y.point % 1000 == 0
    ensures var y' := Timeout(docs, y); IsLeft(|docs|, |After(docs, y'.point)|) && y'.point % 1000 == 0
  {
    if |Page(docs, y.point)| > 1 {
      PageIsTaken(docs, y.point);
      PageLeft(|docs|, |After(docs, y.point)|);
    }
  }

  lemma PageLeft(all: nat, left: nat)
    requires IsLeft(all, left) && left > 1
    ensures IsLeft(all, if left < 100 then 0 else left - 100)
  {
  }

  /** Behind a page lie the documents that were not on it. */
  lemma PageIsTaken(docs: Docs, point: int)
    requires DistinctSeconds(docs) && Page(docs, point) != []
    requires forall id :: id in docs ==> docs[id].created % 1000 == 0
    ensures var page, all := Page(docs, point), After(docs, Second(point));
            var last := page[|page| - 1];
            last in docs && |After(docs, docs[last].created)| == |all| - |page|
    ensures var all := |After(docs, Second(point))|;
            |Page(docs, point)| == if all < 100 then all else 100
  {
    var page, all := Page(docs, point), After(docs, Second(point));
    var last := page[|page| - 1];
    PageFacts(docs, point);
    assert last in page;
    assert After(docs, docs[last].created) == all - Elements(page);
    assert Elements(page) <= all;
  }

  lemma OnlyOne(s: set<string>, d: string)
    requires |s| <= 1 && d in s
    ensures s == {d}
  {
    assert s == {d} + (s - {d});
    assert |s - {d}| == 0;
  }

  lemma {:induction false} StoppedPage(docs: Docs, n: nat)
    requires !Run(docs, n).running
    ensures |Page(docs, Run(docs, n).point)| <= 1
  {
    if n > 0 && !Run(docs, n - 1).running { StoppedPage(docs, n - 1); }
  }

  /** A single document is never requested. */
  lemma SingleDocumentIsMissed(docs: Docs, id: string, n: nat)
    requires docs.Keys == {id} && AllPositive(docs) && n > 0
    ensures Run(docs, n) == State(0, false, [])
  {
    PageFacts(docs, 0);
    assert After(docs, 0) == {id};
    if n > 1 { SingleDocumentIsMissed(docs, id, n - 1); }
  }

  /** No document is created strictly within a second of its own, so such a backup always stops. */
  lemma WholeSecondsStop(docs: Docs, newest: int)
    requires IsNewest(docs, newest) && AllPositive(docs)
    requires forall id :: id in docs ==> docs[id].created % 1000 == 0
    ensures exists n :: !Run(docs, n).running
  {
    forall s ensures |Within(docs, s * 1000)| < PAGE_SIZE { assert Within(docs, s * 1000) == {}; }
    assert After(docs, Second(newest)) == {};
    StopsExactly(docs, newest);
  }

  // ---- does it stop? ----

  /** The creation date of the newest document. */
  ghost predicate IsNewest(docs: Docs, newest: int) {
    (exists id :: id in docs && docs[id].created == newest) && forall id :: id in docs ==> docs[id].created <= newest
  }

  ghost predicate NoCrowdedSecond(docs: Docs) { forall s :: |Within(docs, s * 1000)| < 100 }

  /** With a page full of documents within the second of the sync point or an earlier one, the next
      sync point lies in that second or an earlier one. */
  lemma CrowdHolds(docs: Docs, point: int, second: int)
    requires second % 1000 == 0 && Second(point) <= second && |Within(docs, second)| >= PAGE_SIZE
    ensures var page := Page(docs, point); |page| > 1 && Second(Created(docs, page[|page| - 1])) <= second
  {
    var page, all, crowd := Page(docs, point), After(docs, Second(point)), Within(docs, second);
    PageFacts(docs, point);
    assert crowd <= all;
    SubsetCount(crowd, all);
    var last := page[|page| - 1];
    if Created(docs, last) >= second + 1000 {
      // then the whole crowd and the last document would be on the page
      assert last in page && last !in crowd;
      assert crowd + {last} <= Elements(page);
      SubsetCount(crowd + {last}, Elements(page));
      assert false;
    }
  }

  lemma SubsetCount<T>(a: set<T>, b: set<T>)
    requires a <= b
    ensures |a| <= |b|
  {
    assert b == a + (b - a);
  }

  lemma {:induction false} CrowdNeverStops(docs: Docs, second: int, n: nat)
    requires second % 1000 == 0 && second >= 0 && |Within(docs, second)| >= PAGE_SIZE
    ensures Run(docs, n).running && Second(Run(docs, n).point) <= second
  {
    if n > 0 {
      CrowdNeverStops(docs, second, n - 1);
      CrowdHolds(docs, Run(docs, n - 1).point, second);
    }
  }

  lemma SecondGrows(p: int, q: int)
    requires p <= q
    ensures Second(p) <= Second(q)
  {
    assert Second(p) == (p / 1000) * 1000 && Second(q) == (q / 1000) * 1000;
  }

  lemma AfterShrinks(docs: Docs, p: int, q: int)
    requires p <= q
    ensures |After(docs, Second(q))| <= |After(docs, Second(p))|
  {
    SecondGrows(p, q);
    SubsetCount(After(docs, Second(q)), After(docs, Second(p)));
  }

  lemma {:induction false} LastSecondNeverStops(docs: Docs, newest: int, n: nat)
    requires IsNewest(docs, newest) && AllPositive(docs) && |After(docs, Second(newest))| > 1
    ensures Run(docs, n).running
  {
    if n > 0 {
      LastSecondNeverStops(docs, newest, n - 1);
      var y := Run(docs, n - 1);
      PointIsCreation(docs, n - 1);
      assert y.point <= newest;
      AfterShrinks(docs, y.point, newest);
      PageFacts(docs, y.point);
    }
  }

  /** Without a crowded second every timeout that finds more than one document moves the sync point to a
      later second, unless it lies in the second of the newest document already. */
  lemma TimeoutAdvances(docs: Docs, newest: int, point: int)
    requires IsNewest(docs, newest) && NoCrowdedSecond(docs) && |Page(docs, point)| > 1
    ensures var page := Page(docs, point);
            Second(Created(docs, page[|page| - 1])) > Second(point) || Second(point) == Second(newest)
    ensures Created(docs, Page(docs, point)[|Page(docs, point)| - 1]) <= newest
  {
    var page, all := Page(docs, point), After(docs, Second(point));
    PageFacts(docs, point);
    var last := page[|page| - 1];
    assert last in page;
    if Second(Created(docs, last)) <= Second(point) {
      assert Second(point) == (point / 1000) * 1000;
      assert Elements(page) <= Within(docs, (point / 1000) * 1000);
      SubsetCount(Elements(page), Within(docs, (point / 1000) * 1000));
      var id :| id in docs && docs[id].created == newest;
      assert id in all;
    }
  }

  lemma RunAdvances(docs: Docs, newest: int, n: nat)
    requires IsNewest(docs, newest) && NoCrowdedSecond(docs) && |After(docs, Second(newest))| <= 1
    requires Run(docs, n).running && |Page(docs, Run(docs, n).point)| > 1
    ensures Run(docs, n + 1).point <= newest && Second(Run(docs, n + 1).point) > Second(Run(docs, n).point)
  {
    StepAdvances(docs, newest, Run(docs, n));
    assert Run(docs, n + 1) == Timeout(docs, Run(docs, n));
  }

  lemma StepAdvances(docs: Docs, newest: int, y: State)
    requires IsNewest(docs, newest) && NoCrowdedSecond(docs) && |After(docs, Second(newest))| <= 1
    requires |Page(docs, y.point)| > 1
    ensures var y' := Timeout(docs, y); y'.point <= newest && Second(y'.point) > Second(y.point)
  {
    TimeoutAdvances(docs, newest, y.point);
    PageFacts(docs, y.point);
  }

  ghost predicate StopsAfter(docs: Docs, n: nat) { exists m :: n <= m && !Run(docs, m).running }

  lemma StopsLater(docs: Docs, n: nat)
    requires StopsAfter(docs, n + 1) || !Run(docs, n).running || !Run(docs, n + 1).running
    ensures StopsAfter(docs, n)
  {
    assert n <= n && n <= n + 1;
  }

  /** The run stops within as many timeouts as there are milliseconds left, and one more. */
  lemma {:induction false} StopsFrom(docs: Docs, newest: int, n: nat, left: nat)
    requires IsNewest(docs, newest) && NoCrowdedSecond(docs) && |After(docs, Second(newest))| <= 1
    requires Run(docs, n).point <= newest && Second(newest) - Second(Run(docs, n).point) <= left
    ensures StopsAfter(docs, n)
    decreases left
  {
    if Run(docs, n).running && |Page(docs, Run(docs, n).point)| > 1 {
      RunAdvances(docs, newest, n);
      SecondGrows(Run(docs, n + 1).point, newest);
      StopsFrom(docs, newest, n + 1, left - 1);
    }
    StopsLater(docs, n);
  }

  lemma NothingBeforeStart(docs: Docs, s: int)
    requires AllPositive(docs) && s < 0
    ensures Within(docs, s * 1000) == {}
  {
  }

  /** A full backup of at least one document stops exactly if no second has a hundred or more documents
      created strictly within it and at most one document was created strictly within the second of
      the newest one. Otherwise it asks for the same page again and again. */
  lemma StopsExactly(docs: Docs, newest: int)
    requires IsNewest(docs, newest) && AllPositive(docs)
    ensures (exists n :: !Run(docs, n).running) <==> NoCrowdedSecond(docs) && |After(docs, Second(newest))| <= 1
  {
    if NoCrowdedSecond(docs) && |After(docs, Second(newest))| <= 1 {
      assert Run(docs, 0) == START;
      StopsFrom(docs, newest, 0, Second(newest));
      var m :| 0 <= m && !Run(docs, m).running;
      assert exists n :: !Run(docs, n).running;
    } else if !NoCrowdedSecond(docs) {
      var s :| |Within(docs, s * 1000)| >= PAGE_SIZE;
      if s < 0 {
        NothingBeforeStart(docs, s);
        assert false;
      }
      forall n ensures Run(docs, n).running { CrowdNeverStops(docs, s * 1000, n); }
    } else {
      forall n ensures Run(docs, n).running { LastSecondNeverStops(docs, newest, n); }
    }
  }

  /** With distinct creation times, at least two documents, and none created alone after a whole
      second at which another one was created: if the full backup stops, everything was requested,
      and it stops exactly under the conditions above. */
  lemma CompleteBackup(docs: Docs, newest: int)
    requires IsNewest(docs, newest) && AllPositive(docs) && DistinctSeconds(docs)
    requires |docs| >= 2 && NoLoneNewest(docs)
    ensures (NoCrowdedSecond(docs) && |After(docs, Second(newest))| <= 1) <==>
            exists n :: !Run(docs, n).running && Complete(docs, Run(docs, n))
  {
    StopsExactly(docs, newest);
    if n :| !Run(docs, n).running { StoppedIsComplete(docs, n); }
  }
}
