/** The event log pipeline in front of the archive: snapshot events are pulled into the archive and
    turned into backup events for the backup service and its mirrors. */
module SyncServices {
  import opened Order
  import opened Items
  import opened Ids
  import opened Splitter
  import opened ArchiveTables
  import opened ArchiveInvariant
  import opened ArchiveRuns
  import opened ArchiveHistory
  import opened DataServices
  import opened SaveOutcomes
  import opened EventLog
  import R = Resyncs

  const PAGE_SIZE := 100

  type Log = map<nat, Event>

  /** Whether a backup service is configured, and its mirrors as a comma-separated list. */
  datatype Settings = Settings(cfg: Config, backup: bool, mirrors: string)

  // ---- the list of mirrors ----

  predicate IsSpace(c: char) { c <= ' ' }

  function TrimLeft(s: string): string { if s != [] && IsSpace(s[0]) then TrimLeft(s[1..]) else s }

  function TrimRight(s: string): string { if s != [] && IsSpace(s[|s| - 1]) then TrimRight(s[..|s| - 1]) else s }

  function Trim(s: string): string { TrimRight(TrimLeft(s)) }

  function Split(s: string, c: char): (parts: seq<string>)
    ensures parts != [] && forall p :: p in parts ==> c !in p
  {
    if s == [] then [[]]
    else var rest := Split(s[1..], c);
         assert forall p :: p in rest[1..] ==> p in rest;
         if s[0] == c then [[]] + rest else [[s[0]] + rest[0]] + rest[1..]
  }

  function TrimmedNonEmpty(parts: seq<string>): seq<string> {
    if parts == [] then []
    else (if Trim(parts[0]) == [] then [] else [Trim(parts[0])]) + TrimmedNonEmpty(parts[1..])
  }

  function MirrorList(mirrors: string): seq<string> { TrimmedNonEmpty(Split(mirrors, ',')) }

  /** The pieces between the commas, put together again, are the list. */
  function Unsplit(parts: seq<string>, c: char): string {
    if parts == [] then [] else if |parts| == 1 then parts[0] else parts[0] + [c] + Unsplit(parts[1..], c)
  }

  lemma {:induction false} SplitIsExact(s: string, c: char)
    ensures Unsplit(Split(s, c), c) == s
  {
    if s != [] {
      SplitIsExact(s[1..], c);
      var rest, parts := Split(s[1..], c), Split(s, c);
      if s[0] == c {
        assert parts[1..] == rest;
      } else if |rest| > 1 {
        assert parts[1..] == rest[1..];
        assert ([s[0]] + rest[0]) + [c] + Unsplit(rest[1..], c) == [s[0]] + (rest[0] + [c] + Unsplit(rest[1..], c));
      }
    }
  }

  /** A mirror id carries no comma and neither begins nor ends with a space. */
  lemma {:induction false} MirrorIdsAreTrimmed(parts: seq<string>, m: string)
    requires m in TrimmedNonEmpty(parts)
    ensures m != [] && !IsSpace(m[0]) && !IsSpace(m[|m| - 1]) && exists p :: p in parts && m == Trim(p)
  {
    if m == Trim(parts[0]) && m != [] {
      TrimLeftStarts(parts[0]);
      TrimRightEnds(TrimLeft(parts[0]));
    } else {
      MirrorIdsAreTrimmed(parts[1..], m);
      var p :| p in parts[1..] && m == Trim(p);
      assert p in parts;
    }
  }

  lemma {:induction false} TrimLeftStarts(s: string)
    ensures TrimLeft(s) != [] ==> !IsSpace(TrimLeft(s)[0])
  {
    if s != [] && IsSpace(s[0]) { TrimLeftStarts(s[1..]); }
  }

  lemma {:induction false} TrimRightEnds(s: string)
    ensures TrimRight(s) <= s && (TrimRight(s) != [] ==> !IsSpace(TrimRight(s)[|TrimRight(s)| - 1]))
  {
    if s != [] && IsSpace(s[|s| - 1]) { TrimRightEnds(s[..|s| - 1]); }
  }

  // ---- one event ----

  function MirrorEvents(mirrors: seq<string>, ref: string): seq<Event> {
    if mirrors == [] then [] else [Event(TOPIC_BACKUP + "." + mirrors[0], ref)] + MirrorEvents(mirrors[1..], ref)
  }

  /** The backup events for a snapshot: the main one, and one for each mirror. */
  function Fan(st: Settings, ref: string): seq<Event> {
    if !st.backup then [] else [Event(TOPIC_BACKUP, ref)] + MirrorEvents(MirrorList(st.mirrors), ref)
  }

  lemma {:induction false} MirrorEventsAre(mirrors: seq<string>, ref: string)
    ensures |MirrorEvents(mirrors, ref)| == |mirrors|
    ensures forall k :: 0 <= k < |mirrors| ==>
              MirrorEvents(mirrors, ref)[k] == Event(TOPIC_BACKUP + "." + mirrors[k], ref)
  {
    if mirrors != [] { MirrorEventsAre(mirrors[1..], ref); }
  }

  // ---- which mirrors are served ----

  predicate HasVisible(piece: string) { exists c :: c in piece && c > ' ' }

  /** The piece is the id with spaces around it. */
  ghost predicate IsPadded(piece: string, id: string) {
    && id != [] && id[0] > ' ' && id[|id| - 1] > ' '
    && exists l, r :: piece == l + id + r && (forall c :: c in l + r ==> c <= ' ')
  }

  lemma {:induction false} TrimLeftSpaces(s: string) returns (l: string)
    ensures s == l + TrimLeft(s) && forall c :: c in l ==> c <= ' '
  {
    if s != [] && IsSpace(s[0]) {
      l := TrimLeftSpaces(s[1..]);
      l := [s[0]] + l;
    } else {
      l := [];
    }
  }

  lemma {:induction false} TrimRightSpaces(s: string) returns (r: string)
    ensures s == TrimRight(s) + r && forall c :: c in r ==> c <= ' '
  {
    if s != [] && IsSpace(s[|s| - 1]) {
      r := TrimRightSpaces(s[..|s| - 1]);
      r := r + [s[|s| - 1]];
    } else {
      r := [];
    }
  }

  lemma TrimIsExact(s: string)
    ensures Trim(s) != [] <==> HasVisible(s)
    ensures HasVisible(s) ==> IsPadded(s, Trim(s))
  {
    var l := TrimLeftSpaces(s);
    var r := TrimRightSpaces(TrimLeft(s));
    var id := Trim(s);
    assert s == l + id + r && forall c :: c in l + r ==> c <= ' ';
    TrimLeftStarts(s);
    TrimRightEnds(TrimLeft(s));
    if id != [] {
      assert id[0] in s && id[0] == TrimLeft(s)[0];
    }
  }

  ghost predicate Increasing(at: seq<nat>) { forall k, n :: 0 <= k < n < |at| ==> at[k] < at[n] }

  ghost predicate AllVisible(parts: seq<string>, at: seq<nat>) {
    forall p: nat :: p in at <==> p < |parts| && HasVisible(parts[p])
  }

  ghost predicate ArePadded(parts: seq<string>, ids: seq<string>, at: seq<nat>) {
    |ids| == |at| && forall k :: 0 <= k < |at| ==> at[k] < |parts| && IsPadded(parts[at[k]], ids[k])
  }

  /** The ids stand for the pieces at the given positions, which are all those with a visible character. */
  ghost predicate Lists(parts: seq<string>, ids: seq<string>, at: seq<nat>) {
    Increasing(at) && AllVisible(parts, at) && ArePadded(parts, ids, at)
  }

  lemma {:induction false} ListedIds(parts: seq<string>) returns (at: seq<nat>)
    ensures Lists(parts, TrimmedNonEmpty(parts), at)
  {
    if parts == [] {
      at := [];
    } else {
      var rest := ListedIds(parts[1..]);
      TrimIsExact(parts[0]);
      if HasVisible(parts[0]) {
        at := [0] + Shifted(rest);
        FirstListed(parts, TrimmedNonEmpty(parts[1..]), rest);
      } else {
        at := Shifted(rest);
        FirstSkipped(parts, TrimmedNonEmpty(parts[1..]), rest);
      }
    }
  }

  lemma FirstSkipped(parts: seq<string>, ids: seq<string>, at: seq<nat>)
    requires parts != [] && Lists(parts[1..], ids, at) && !HasVisible(parts[0])
    ensures Lists(parts, [] + ids, Shifted(at))
  {
    assert [] + ids == ids;
    forall p: nat ensures p in Shifted(at) <==> p < |parts| && HasVisible(parts[p]) { ShiftedHas(at, p); }
    ShiftedPadded(parts, ids, at);
  }

  lemma FirstListed(parts: seq<string>, ids: seq<string>, at: seq<nat>)
    requires parts != [] && Lists(parts[1..], ids, at) && HasVisible(parts[0]) && IsPadded(parts[0], Trim(parts[0]))
    ensures Lists(parts, [Trim(parts[0])] + ids, [0] + Shifted(at))
  {
    FirstVisible(parts, at);
    ShiftedPadded(parts, ids, at);
    FirstPadded(parts, Trim(parts[0]), ids, Shifted(at));
    FirstIncreasing(at);
  }

  lemma FirstIncreasing(at: seq<nat>)
    requires Increasing(at)
    ensures Increasing([0] + Shifted(at))
  {
  }

  lemma FirstVisible(parts: seq<string>, at: seq<nat>)
    requires parts != [] && AllVisible(parts[1..], at) && HasVisible(parts[0])
    ensures AllVisible(parts, [0] + Shifted(at))
  {
    forall p: nat ensures p in [0] + Shifted(at) <==> p < |parts| && HasVisible(parts[p]) { ShiftedHas(at, p); }
  }

  lemma ShiftedPadded(parts: seq<string>, ids: seq<string>, at: seq<nat>)
    requires parts != [] && ArePadded(parts[1..], ids, at)
    ensures ArePadded(parts, ids, Shifted(at))
  {
    forall k | 0 <= k < |at| ensures at[k] + 1 < |parts| && IsPadded(parts[at[k] + 1], ids[k]) {
      assert parts[1..][at[k]] == parts[at[k] + 1];
    }
  }

  lemma FirstPadded(parts: seq<string>, id: string, ids: seq<string>, at: seq<nat>)
    requires parts != [] && IsPadded(parts[0], id) && ArePadded(parts, ids, at)
    ensures ArePadded(parts, [id] + ids, [0] + at)
  {
  }

  function Shifted(at: seq<nat>): (r: seq<nat>)
    ensures |r| == |at| && forall k :: 0 <= k < |at| ==> r[k] == at[k] + 1
  {
    seq(|at|, k requires 0 <= k < |at| => at[k] + 1)
  }

  lemma ShiftedHas(at: seq<nat>, p: nat)
    ensures p in Shifted(at) <==> p > 0 && p - 1 in at
  {
    if p > 0 && p - 1 in at {
      var k :| 0 <= k < |at| && at[k] == p - 1;
      assert Shifted(at)[k] == p;
    }
  }

  /** With a backup service, processing an unmarked snapshot leads to the main event and to one event for each
      piece of the mirror list that has a visible character, in their order; its topic ends in the piece
      without the spaces around it. Without a backup service there is none. */
  lemma MirrorsAreServed(st: Settings, ref: string) returns (at: seq<nat>)
    ensures !st.backup ==> Fan(st, ref) == []
    ensures st.backup ==>
              var fan, pieces := Fan(st, ref), Split(st.mirrors, ',');
              && |fan| == 1 + |at| && fan[0] == Event("snapshot.backup", ref)
              && (forall k, n :: 0 <= k < n < |at| ==> at[k] < at[n])
              && (forall p: nat :: p in at <==> p < |pieces| && exists c :: c in pieces[p] && c > ' ')
              && (forall k :: 0 <= k < |at| ==>
                    at[k] < |pieces|
                    && exists id :: fan[k + 1] == Event("snapshot.backup." + id, ref) && IsPadded(pieces[at[k]], id))
  {
    var pieces := Split(st.mirrors, ',');
    at := ListedIds(pieces);
    var ids := MirrorList(st.mirrors);
    MirrorEventsAre(ids, ref);
    assert TOPIC_BACKUP + "." == "snapshot.backup.";
    forall k | 0 <= k < |at| && st.backup
      ensures exists id :: Fan(st, ref)[k + 1] == Event("snapshot.backup." + id, ref) && IsPadded(pieces[at[k]], id)
    {
      assert Fan(st, ref)[k + 1] == MirrorEvents(ids, ref)[k] == Event("snapshot.backup." + ids[k], ref);
    }
    assert forall p: nat :: p < |pieces| ==> (HasVisible(pieces[p]) <==> exists c :: c in pieces[p] && c > ' ');
  }

  predicate IsAdd(e: Event) { TOPIC_ADD <= e.topic }

  /** The tables, the event log with the id of its next entry, and the snapshot pulled last. */
  datatype State = State(t: Tables, log: Log, next: nat, last: Option<ItemCollection>)

  function Create(y: State, events: seq<Event>): State
    decreases |events|
  {
    if events == [] then y else Create(y.(log := y.log[y.next := events[0]], next := y.next + 1), events[1..])
  }

  /** A pulled document that did not come from a restore. */
  predicate Unmarked(last: Option<ItemCollection>) { last.Some? && BACKUPRESTORE !in last.value.items }

  /** An add event is pulled and archived; every event is removed; backup events are written after
      an event unless an exception occurred, depending on the snapshot that was pulled last. */
  function Process(st: Settings, docs: map<string, ItemCollection>, y: State, id: nat): State
    requires id in y.log
  {
    var e := y.log[id];
    var removed := y.(log := y.log - {id});
    if !IsAdd(e) then Create(removed, if Unmarked(y.last) then Fan(st, e.ref) else [])
    else if e.ref !in docs then removed.(last := None)
    else
      var s := docs[e.ref];
      var saved := removed.(t := SaveSnapshot(st.cfg, y.t, s));
      if PullFails(st.cfg, y.t, s) then saved
      else Create(saved.(last := Some(s)), if Unmarked(Some(s)) then Fan(st, e.ref) else [])
  }

  /** An entry that is gone cannot be locked, which ends the run. */
  function ProcessAll(st: Settings, docs: map<string, ItemCollection>, y: State, ids: seq<nat>): State
    decreases |ids|
  {
    if ids == [] || ids[0] !in y.log then y else ProcessAll(st, docs, Process(st, docs, y, ids[0]), ids[1..])
  }

  // ---- the events a batch leads to ----

  /** The document of an event is pulled without an exception. */
  predicate Pulls(docs: map<string, ItemCollection>, view: View, ref: string) {
    ref in docs && !SaveFails(view, docs[ref])
  }

  /** The archive after an event. */
  function ViewAfter(docs: map<string, ItemCollection>, view: View, e: Event): View {
    if IsAdd(e) && e.ref in docs then ViewSave(view, docs[e.ref]) else view
  }

  function ViewAfterAll(docs: map<string, ItemCollection>, view: View, events: seq<Event>): View
    decreases |events|
  {
    if events == [] then view else ViewAfterAll(docs, ViewAfter(docs, view, events[0]), events[1..])
  }

  /** What an event should lead to: backup events for a pulled snapshot that is not from a restore. */
  function Wanted(st: Settings, docs: map<string, ItemCollection>, view: View, e: Event): seq<Event> {
    if IsAdd(e) && Pulls(docs, view, e.ref) && BACKUPRESTORE !in docs[e.ref].items then Fan(st, e.ref) else []
  }

  function WantedAll(st: Settings, docs: map<string, ItemCollection>, view: View, events: seq<Event>): seq<Event>
    decreases |events|
  {
    if events == [] then []
    else Wanted(st, docs, view, events[0]) + WantedAll(st, docs, ViewAfter(docs, view, events[0]), events[1..])
  }

  /** The snapshot pulled last, after an event. */
  function LastAfter(docs: map<string, ItemCollection>, view: View, last: Option<ItemCollection>,
          e: Event): Option<ItemCollection> {
    if !IsAdd(e) || (e.ref in docs && !Pulls(docs, view, e.ref)) then last
    else if e.ref in docs then Some(docs[e.ref]) else None
  }

  /** What an event does lead to: one that pulls nothing uses the snapshot of an earlier event. */
  function Emitted(st: Settings, docs: map<string, ItemCollection>, view: View, last: Option<ItemCollection>,
          e: Event): seq<Event> {
    if IsAdd(e) then Wanted(st, docs, view, e) else if Unmarked(last) then Fan(st, e.ref) else []
  }

  function EmittedAll(st: Settings, docs: map<string, ItemCollection>, view: View, last: Option<ItemCollection>,
          events: seq<Event>): seq<Event>
    decreases |events|
  {
    if events == [] then [] else
    var e := events[0];
    Emitted(st, docs, view, last, e)
    + EmittedAll(st, docs, ViewAfter(docs, view, e), LastAfter(docs, view, last, e), events[1..])
  }

  /** No event that is not pulled follows, as its latest pull, one of an unmarked snapshot. */
  predicate NoneStale(docs: map<string, ItemCollection>, view: View, last: Option<ItemCollection>, events: seq<Event>)
    decreases |events|
  {
    events != [] ==>
      var e := events[0];
      && (IsAdd(e) || !Unmarked(last))
      && NoneStale(docs, ViewAfter(docs, view, e), LastAfter(docs, view, last, e), events[1..])
  }

  /** A batch leads to exactly the wanted backup events if and only if no removal event in it
      follows the pull of an unmarked snapshot; otherwise it leads to more. */
  lemma {:induction false} EmittedAreWanted(st: Settings, docs: map<string, ItemCollection>, view: View,
          last: Option<ItemCollection>, events: seq<Event>)
    requires st.backup
    ensures var emitted, wanted := EmittedAll(st, docs, view, last, events), WantedAll(st, docs, view, events);
            && |emitted| >= |wanted| && (emitted == wanted <==> NoneStale(docs, view, last, events))
            && (!NoneStale(docs, view, last, events) ==> |emitted| > |wanted|)
    decreases |events|
  {
    if events != [] {
      var e := events[0];
      EmittedAreWanted(st, docs, ViewAfter(docs, view, e), LastAfter(docs, view, last, e), events[1..]);
    }
  }

  /** In a batch of add events exactly the wanted backup events are emitted. */
  lemma {:induction false} AddEventsFanOut(st: Settings, docs: map<string, ItemCollection>, view: View,
          last: Option<ItemCollection>, events: seq<Event>)
    requires forall e :: e in events ==> IsAdd(e)
    ensures EmittedAll(st, docs, view, last, events) == WantedAll(st, docs, view, events)
    decreases |events|
  {
    if events != [] {
      var e := events[0];
      assert e in events && forall x :: x in events[1..] ==> x in events;
      AddEventsFanOut(st, docs, ViewAfter(docs, view, e), LastAfter(docs, view, last, e), events[1..]);
    }
  }

  // ---- the log and the archive after a batch ----

  /** Entries for the events under consecutive new ids. */
  function Placed(next: nat, events: seq<Event>): Log
    decreases |events|
  {
    if events == [] then map[] else map[next := events[0]] + Placed(next + 1, events[1..])
  }

  lemma {:induction false} PlacedKeys(next: nat, events: seq<Event>)
    ensures forall k :: k in Placed(next, events) ==> next <= k < next + |events|
    decreases |events|
  {
    if events != [] { PlacedKeys(next + 1, events[1..]); }
  }

  lemma {:induction false} PlacedAppend(next: nat, a: seq<Event>, b: seq<Event>)
    ensures Placed(next, a + b) == Placed(next, a) + Placed(next + |a|, b)
    decreases |a|
  {
    if a == [] {
      assert a + b == b;
      assert map[] + Placed(next, b) == Placed(next, b);
    } else {
      assert (a + b)[1..] == a[1..] + b && (a + b)[0] == a[0];
      var k := next + |a|;
      PlacedAppend(next + 1, a[1..], b);
      assert Placed(next + 1, a[1..] + b) == Placed(next + 1, a[1..]) + Placed(k, b);
      MergeMerge(map[next := a[0]], Placed(next + 1, a[1..]), Placed(k, b));
      assert Placed(next, a + b) == map[next := a[0]] + Placed(next + 1, a[1..] + b);
    }
  }

  lemma MergeMerge(a: Log, b: Log, c: Log)
    ensures a + (b + c) == (a + b) + c
  {
  }

  lemma {:induction false} CreatePlaces(y: State, events: seq<Event>)
    ensures Create(y, events) == y.(log := y.log + Placed(y.next, events), next := y.next + |events|)
    decreases |events|
  {
    if events == [] {
      assert y.log + map[] == y.log;
    } else {
      CreatePlaces(y.(log := y.log[y.next := events[0]], next := y.next + 1), events[1..]);
      PutThenMerge(y.log, y.next, events[0], Placed(y.next + 1, events[1..]));
    }
  }

  /** The log after entries are removed and new ones are written. */
  function Replaced(log: Log, gone: set<nat>, next: nat, events: seq<Event>): Log {
    (log - gone) + Placed(next, events)
  }

  lemma PutThenMerge(log: Log, k: nat, e: Event, more: Log)
    ensures log[k := e] + more == log + (map[k := e] + more)
  {
  }

  /** The documents of the instance are found under their own ids, and their contents are in play. */
  ghost predicate DocsOk(pool: iset<Bytes>, docs: map<string, ItemCollection>) {
    forall ref :: ref in docs ==> docs[ref].UniqueId() == ref && Admissible(pool, Operation.Save(docs[ref]))
  }

  /** One event: its entry is replaced by the emitted ones. */
  lemma ProcessEmits(st: Settings, pool: iset<Bytes>, docs: map<string, ItemCollection>, view: View, y: State, id: nat)
    requires Sound(st.cfg, pool) && Rep(st.cfg, pool, y.t, view) && DocsOk(pool, docs) && id in y.log
    ensures var y', e := Process(st, docs, y, id), y.log[id];
            var emitted := Emitted(st, docs, view, y.last, e);
            && y'.log == (y.log - {id}) + Placed(y.next, emitted) && y'.next == y.next + |emitted|
            && y'.last == LastAfter(docs, view, y.last, e)
  {
    var e := y.log[id];
    if IsAdd(e) && e.ref in docs {
      assert Admissible(pool, Operation.Save(docs[e.ref]));
      PullFailsExactly(st.cfg, pool, y.t, view, docs[e.ref]);
      PullEmits(st, docs, y, id);
    } else {
      var removed := y.(log := y.log - {id});
      assert removed.log + Placed(y.next, []) == removed.log;
      CreatePlaces(removed, Emitted(st, docs, view, y.last, e));
    }
  }

  /** What the pull of a document leaves in the log, given whether it fails. */
  lemma PullEmits(st: Settings, docs: map<string, ItemCollection>, y: State, id: nat)
    requires id in y.log && IsAdd(y.log[id]) && y.log[id].ref in docs
    ensures var y', s, ref := Process(st, docs, y, id), docs[y.log[id].ref], y.log[id].ref;
            var fails := PullFails(st.cfg, y.t, s);
            var emitted := if fails || BACKUPRESTORE in s.items then [] else Fan(st, ref);
            && y'.log == (y.log - {id}) + Placed(y.next, emitted) && y'.next == y.next + |emitted|
            && y'.last == if fails then y.last else Some(s)
  {
    var s, ref := docs[y.log[id].ref], y.log[id].ref;
    var saved := y.(log := y.log - {id}, t := SaveSnapshot(st.cfg, y.t, s));
    assert saved.log + Placed(y.next, []) == saved.log;
    CreatePlaces(saved.(last := Some(s)), if BACKUPRESTORE in s.items then [] else Fan(st, ref));
  }

  lemma {:induction false} CreateKeepsTables(y: State, events: seq<Event>)
    ensures Create(y, events).t == y.t
    decreases |events|
  {
    if events != [] { CreateKeepsTables(y.(log := y.log[y.next := events[0]], next := y.next + 1), events[1..]); }
  }

  lemma ProcessTables(st: Settings, docs: map<string, ItemCollection>, y: State, id: nat)
    requires id in y.log
    ensures var e := y.log[id];
            Process(st, docs, y, id).t
            == if "snapshot.add" <= e.topic && e.ref in docs then SaveSnapshot(st.cfg, y.t, docs[e.ref]) else y.t
  {
    var e := y.log[id];
    var removed := y.(log := y.log - {id});
    CreateKeepsTables(removed, if Unmarked(y.last) then Fan(st, e.ref) else []);
    if e.ref in docs {
      var s := docs[e.ref];
      CreateKeepsTables(removed.(t := SaveSnapshot(st.cfg, y.t, s), last := Some(s)),
          if Unmarked(Some(s)) then Fan(st, e.ref) else []);
    }
  }

  /** One event: its snapshot is archived. */
  lemma ProcessArchives(st: Settings, pool: iset<Bytes>, docs: map<string, ItemCollection>, view: View, y: State,
          id: nat)
    requires Sound(st.cfg, pool) && Rep(st.cfg, pool, y.t, view) && DocsOk(pool, docs) && id in y.log
    ensures Rep(st.cfg, pool, Process(st, docs, y, id).t, ViewAfter(docs, view, y.log[id]))
  {
    var e := y.log[id];
    ProcessTables(st, docs, y, id);
    if IsAdd(e) && e.ref in docs {
      assert Admissible(pool, Operation.Save(docs[e.ref]));
      StepKeepsRep(st.cfg, pool, y.t, view, Operation.Save(docs[e.ref]));
    }
  }

  function EventsOf(log: Log, ids: seq<nat>): seq<Event>
    requires Elements(ids) <= log.Keys
  {
    seq(|ids|, k requires 0 <= k < |ids| => assert ids[k] in Elements(ids); log[ids[k]])
  }

  lemma EventsStep(log: Log, log': Log, ids: seq<nat>, placed: Log)
    requires ids != [] && Elements(ids) <= log.Keys && |Elements(ids)| == |ids|
    requires log' == (log - {ids[0]}) + placed && forall k :: k in placed ==> k !in log
    ensures ids[0] in log && Elements(ids[1..]) <= log'.Keys && |Elements(ids[1..])| == |ids[1..]|
    ensures Elements(ids) == {ids[0]} + Elements(ids[1..])
    ensures EventsOf(log, ids)[0] == log[ids[0]] && EventsOf(log, ids)[1..] == EventsOf(log', ids[1..])
  {
    R.HeadIsNew(ids);
    assert ids[0] in Elements(ids);
    var rest := ids[1..];
    forall k | 0 <= k < |rest| ensures rest[k] in log' && log'[rest[k]] == log[rest[k]] {
      assert rest[k] in Elements(rest);
    }
  }

  /** The state after the first event of a batch, and what is left of the batch. */
  lemma BatchStep(st: Settings, pool: iset<Bytes>, docs: map<string, ItemCollection>, view: View, y: State,
          ids: seq<nat>)
    requires Sound(st.cfg, pool) && Rep(st.cfg, pool, y.t, view) && DocsOk(pool, docs) && ids != []
    requires Elements(ids) <= y.log.Keys && |Elements(ids)| == |ids| && forall k :: k in y.log ==> k < y.next
    ensures ids[0] in y.log && Elements(ids) == {ids[0]} + Elements(ids[1..]) && Elements(ids[1..]) <= y.log.Keys
    ensures var e, y' := y.log[ids[0]], Process(st, docs, y, ids[0]);
            var first := Emitted(st, docs, view, y.last, e);
            && y'.log == Replaced(y.log, {ids[0]}, y.next, first) && y'.next == y.next + |first|
            && y'.last == LastAfter(docs, view, y.last, e)
            && Elements(ids[1..]) <= y'.log.Keys && |Elements(ids[1..])| == |ids[1..]|
            && (forall k :: k in y'.log ==> k < y'.next)
            && EventsOf(y.log, ids)[0] == e && EventsOf(y.log, ids)[1..] == EventsOf(y'.log, ids[1..])
            && ProcessAll(st, docs, y, ids) == ProcessAll(st, docs, y', ids[1..])
  {
    assert ids[0] in Elements(ids);
    var first := Emitted(st, docs, view, y.last, y.log[ids[0]]);
    ProcessEmits(st, pool, docs, view, y, ids[0]);
    PlacedKeys(y.next, first);
    EventsStep(y.log, Process(st, docs, y, ids[0]).log, ids, Placed(y.next, first));
  }

  /** The log after a batch: the entries of its events are replaced by the emitted ones. */
  function LogAfterBatch(st: Settings, docs: map<string, ItemCollection>, view: View, y: State, ids: seq<nat>): Log
    requires Elements(ids) <= y.log.Keys
  {
    Replaced(y.log, Elements(ids), y.next, EmittedAll(st, docs, view, y.last, EventsOf(y.log, ids)))
  }

  lemma EmptyBatch(st: Settings, docs: map<string, ItemCollection>, view: View, y: State)
    ensures LogAfterBatch(st, docs, view, y, []) == y.log && EventsOf(y.log, []) == []
  {
    assert Elements<nat>([]) == {};
    assert EventsOf(y.log, []) == [];
  }

  /** The log after one event and the rest of a batch, whose ids are `rest`. */
  lemma LogStep(st: Settings, docs: map<string, ItemCollection>, view: View, y: State, y': State, id: nat,
          rest: set<nat>, events: seq<Event>)
    requires id in y.log && rest <= y.log.Keys && (forall k :: k in y.log ==> k < y.next)
    requires events != [] && events[0] == y.log[id] && y'.last == LastAfter(docs, view, y.last, events[0])
    requires var first := Emitted(st, docs, view, y.last, events[0]);
             y'.log == Replaced(y.log, {id}, y.next, first) && y'.next == y.next + |first|
    ensures Replaced(y'.log, rest, y'.next,
                     EmittedAll(st, docs, ViewAfter(docs, view, events[0]), y'.last, events[1..]))
            == Replaced(y.log, {id} + rest, y.next, EmittedAll(st, docs, view, y.last, events))
  {
    var first := Emitted(st, docs, view, y.last, events[0]);
    var later := EmittedAll(st, docs, ViewAfter(docs, view, events[0]), y'.last, events[1..]);
    EmittedSplit(st, docs, view, y.last, events);
    LogAfter(y.log, y'.log, id, rest, {id} + rest, y.next, first, later, first + later);
  }

  lemma EmittedSplit(st: Settings, docs: map<string, ItemCollection>, view: View, last: Option<ItemCollection>,
          events: seq<Event>)
    requires events != []
    ensures EmittedAll(st, docs, view, last, events)
            == Emitted(st, docs, view, last, events[0])
               + EmittedAll(st, docs, ViewAfter(docs, view, events[0]), LastAfter(docs, view, last, events[0]),
                            events[1..])
  {
  }

  /** A batch, with whatever histories and dates its documents have: the log and the archive after it. */
  lemma {:induction false} BatchEffect(st: Settings, pool: iset<Bytes>, docs: map<string, ItemCollection>, view: View,
          y: State, ids: seq<nat>)
    requires Sound(st.cfg, pool) && Rep(st.cfg, pool, y.t, view) && DocsOk(pool, docs)
    requires Elements(ids) <= y.log.Keys && |Elements(ids)| == |ids| && forall k :: k in y.log ==> k < y.next
    ensures ProcessAll(st, docs, y, ids).log == LogAfterBatch(st, docs, view, y, ids)
    ensures Rep(st.cfg, pool, ProcessAll(st, docs, y, ids).t, ViewAfterAll(docs, view, EventsOf(y.log, ids)))
    decreases |ids|
  {
    if ids == [] {
      EmptyBatch(st, docs, view, y);
    } else {
      assert ids[0] in Elements(ids);
      var y', e := Process(st, docs, y, ids[0]), y.log[ids[0]];
      BatchStep(st, pool, docs, view, y, ids);
      LogStep(st, docs, view, y, y', ids[0], Elements(ids[1..]), EventsOf(y.log, ids));
      ProcessArchives(st, pool, docs, view, y, ids[0]);
      BatchEffect(st, pool, docs, ViewAfter(docs, view, e), y', ids[1..]);
    }
  }

  lemma LogAfter(log: Log, log': Log, id: nat, rest: set<nat>, gone: set<nat>, next: nat, first: seq<Event>,
          later: seq<Event>, all: seq<Event>)
    requires (forall k :: k in log ==> k < next) && rest <= log.Keys
    requires gone == {id} + rest && all == first + later && log' == Replaced(log, {id}, next, first)
    ensures Replaced(log', rest, next + |first|, later) == Replaced(log, gone, next, all)
  {
    PlacedKeys(next, first);
    PlacedAppend(next, first, later);
  }

  // ---- main results ----

  /** A batch of add events is replaced in the log by the wanted backup events: for each pulled and
      unmarked snapshot one main event and one for each mirror. The archive then holds what the saves
      leave of each other. */
  lemma BatchFansOut(st: Settings, pool: iset<Bytes>, docs: map<string, ItemCollection>, view: View, y: State,
          ids: seq<nat>)
    requires Sound(st.cfg, pool) && Rep(st.cfg, pool, y.t, view) && DocsOk(pool, docs)
    requires Elements(ids) <= y.log.Keys && |Elements(ids)| == |ids| && forall k :: k in y.log ==> k < y.next
    requires forall e :: e in EventsOf(y.log, ids) ==> IsAdd(e)
    ensures var y', events := ProcessAll(st, docs, y, ids), EventsOf(y.log, ids);
            && y'.log == Replaced(y.log, Elements(ids), y.next, WantedAll(st, docs, view, events))
            && (forall id :: id != METADATA ==> (id in y'.t.snapshots <==> id in ViewAfterAll(docs, view, events)))
  {
    BatchEffect(st, pool, docs, view, y, ids);
    AddEventsFanOut(st, docs, view, y.last, EventsOf(y.log, ids));
    InTables(st.cfg, pool, ProcessAll(st, docs, y, ids).t, ViewAfterAll(docs, view, EventsOf(y.log, ids)));
  }

  lemma InTables(cfg: Config, pool: iset<Bytes>, t: Tables, view: View)
    requires Rep(cfg, pool, t, view)
    ensures forall id :: id != METADATA ==> (id in t.snapshots <==> id in view)
  {
    assert forall id :: id in t.snapshots - {METADATA} <==> id in view;
  }

  /** The save of an event's document removes a snapshot. */
  predicate Prunes(docs: map<string, ItemCollection>, view: View, e: Event, id: string) {
    id in view && id !in ViewAfter(docs, view, e)
  }

  predicate NonePrunes(docs: map<string, ItemCollection>, view: View, events: seq<Event>, id: string)
    decreases |events|
  {
    events != [] ==>
      !Prunes(docs, view, events[0], id) && NonePrunes(docs, ViewAfter(docs, view, events[0]), events[1..], id)
  }

  /** The snapshot of an event is in the archive after the batch exactly if its own save leaves it and the
      save of no later event removes it. */
  lemma {:induction false} HeldExactly(pool: iset<Bytes>, docs: map<string, ItemCollection>, view: View, e: Event,
          later: seq<Event>)
    requires DocsOk(pool, docs) && forall x :: x in later ==> x.ref != e.ref
    ensures var after := ViewAfter(docs, view, e);
            e.ref in ViewAfterAll(docs, view, [e] + later) <==>
            e.ref in after && NonePrunes(docs, after, later, e.ref)
  {
    assert ([e] + later)[1..] == later;
    StaysExactly(pool, docs, ViewAfter(docs, view, e), later, e.ref);
  }

  lemma {:induction false} StaysExactly(pool: iset<Bytes>, docs: map<string, ItemCollection>, view: View,
          events: seq<Event>, id: string)
    requires DocsOk(pool, docs) && forall x :: x in events ==> x.ref != id
    ensures id in ViewAfterAll(docs, view, events) <==> id in view && NonePrunes(docs, view, events, id)
    decreases |events|
  {
    if events != [] {
      assert events[0] in events && forall x :: x in events[1..] ==> x in events;
      var after := ViewAfter(docs, view, events[0]);
      StaysExactly(pool, docs, after, events[1..], id);
      if id !in view { OthersStayAbsent(pool, docs, view, events[0], id); }
    }
  }

  lemma OthersStayAbsent(pool: iset<Bytes>, docs: map<string, ItemCollection>, view: View, e: Event, id: string)
    requires DocsOk(pool, docs) && id !in view && id != e.ref
    ensures id !in ViewAfter(docs, view, e)
  {
    if IsAdd(e) && e.ref in docs {
      var s := docs[e.ref];
      var v, uid := view[s.UniqueId() := s], QueryText(GetUniqueID(s.UniqueId()));
      ViewDeleteAllShrinks(v, Victims(SortedStrings(ViewIds(v, uid)), History(s)));
    }
  }

  /** A first snapshot with a history of one is removed by its own save, and yet it is fanned out: the backup
      events are for a snapshot that the archive does not hold. */
  lemma PrunedIsFannedOut(st: Settings, pool: iset<Bytes>, docs: map<string, ItemCollection>, y: State, k: nat)
    requires Sound(st.cfg, pool) && Rep(st.cfg, pool, y.t, map[]) && DocsOk(pool, docs)
    requires k in y.log && IsAdd(y.log[k]) && y.log[k].ref in docs
    requires var s := docs[y.log[k].ref];
             && IsSnapshotID(s.UniqueId()) && Modified(s).Some? && History(s) == 1 && BACKUPRESTORE !in s.items
    ensures var ref, y' := y.log[k].ref, Process(st, docs, y, k);
            ref !in y'.t.snapshots && y'.log == (y.log - {k}) + Placed(y.next, Fan(st, ref))
  {
    var s := docs[y.log[k].ref];
    var id, uid := s.UniqueId(), QueryText(GetUniqueID(s.UniqueId()));
    ProcessEmits(st, pool, docs, map[], y, k);
    ProcessArchives(st, pool, docs, map[], y, k);
    NewestSurvives(map[], s);
    InTables(st.cfg, pool, Process(st, docs, y, k).t, ViewSave(map[], s));
    VictimsOfOne(map[id := s], s);
    assert id != METADATA;
  }

  /** The only snapshot of a view is dated, so its cleanup does not end early. */
  lemma VictimsOfOne(view: View, s: ItemCollection)
    requires view == map[s.UniqueId() := s] && Modified(s).Some?
    ensures !CleanupFails(view, s)
  {
    var uid := QueryText(GetUniqueID(s.UniqueId()));
    var ids := SortedStrings(ViewIds(view, uid));
    SortedStringsEnumerate(ViewIds(view, uid));
    VictimsAreOldest(ids, History(s));
    forall id | id in Victims(ids, History(s)) ensures ViewDeleteCompletes(view, id) { assert id in ids; }
  }

  /** A removal event that follows an unmarked snapshot is answered with backup events, too. */
  lemma RemovalIsFannedOut(st: Settings, docs: map<string, ItemCollection>, view: View, ref: string, other: string)
    requires Pulls(docs, view, ref) && BACKUPRESTORE !in docs[ref].items
    ensures var events := [Event(TOPIC_ADD, ref), Event(TOPIC_REMOVE, other)];
            && EmittedAll(st, docs, view, None, events) == Fan(st, ref) + Fan(st, other)
            && WantedAll(st, docs, view, events) == Fan(st, ref)
  {
    var add, remove := Event(TOPIC_ADD, ref), Event(TOPIC_REMOVE, other);
    assert IsAdd(add) && !IsAdd(remove) by { assert TOPIC_ADD[9] != TOPIC_REMOVE[9]; }
    TwoEvents(st, docs, view, None, add, remove);
  }

  lemma TwoEvents(st: Settings, docs: map<string, ItemCollection>, view: View, last: Option<ItemCollection>,
          a: Event, b: Event)
    ensures var after := ViewAfter(docs, view, a);
            && EmittedAll(st, docs, view, last, [a, b])
               == Emitted(st, docs, view, last, a) + Emitted(st, docs, after, LastAfter(docs, view, last, a), b)
            && WantedAll(st, docs, view, [a, b]) == Wanted(st, docs, view, a) + Wanted(st, docs, after, b)
  {
    var after, pulled := ViewAfter(docs, view, a), LastAfter(docs, view, last, a);
    var e, w := Emitted(st, docs, after, pulled, b), Wanted(st, docs, after, b);
    assert [a, b][1..] == [b] && [b][1..] == [] && e + [] == e && w + [] == w;
    assert EmittedAll(st, docs, after, pulled, [b]) == e;
    assert WantedAll(st, docs, after, [b]) == w;
  }

  // ---- the service ----

  class SyncService {
    const archive: DataService
    const backup: bool
    const mirrors: string
    const docs: map<string, ItemCollection>
    var log: Log
    var next: nat

    constructor (archive: DataService, backup: bool, mirrors: string, docs: map<string, ItemCollection>, log: Log,
            next: nat)
      ensures this.archive == archive && this.backup == backup && this.mirrors == mirrors && this.docs == docs
      ensures this.log == log && this.next == next
    {
      this.archive, this.backup, this.mirrors, this.docs := archive, backup, mirrors, docs;
      this.log, this.next := log, next;
    }

    ghost function St(): Settings
      reads this
    {
      Settings(archive.cfg, backup, mirrors)
    }

    ghost function Y(last: Option<ItemCollection>): State
      reads this, archive
    {
      State(archive.T(), log, next, last)
    }

    method CreateEntry(topic: string, ref: string)
      modifies this`log, this`next
      ensures log == old(log)[old(next) := Event(topic, ref)] && next == old(next) + 1
    {
      log := log[next := Event(topic, ref)];
      next := next + 1;
    }

    /** Writes the backup event and one for each mirror. */
    method CreateBackupEvents(ref: string, ghost last: Option<ItemCollection>)
      requires backup
      modifies this`log, this`next
      ensures Y(last) == Create(old(Y(last)), Fan(St(), ref))
    {
      var list := MirrorList(mirrors);
      ghost var all, first := Fan(St(), ref), Y(last);
      CreateEntry(TOPIC_BACKUP, ref);
      assert all[1..] == MirrorEvents(list[0..], ref);
      var i := 0;
      while i < |list|
        invariant i <= |list| && archive.T() == old(archive.T())
        invariant Create(Y(last), MirrorEvents(list[i..], ref)) == Create(first, all)
      {
        assert MirrorEvents(list[i..], ref)[1..] == MirrorEvents(list[i + 1..], ref);
        CreateEntry(TOPIC_BACKUP + "." + list[i], ref);
        i := i + 1;
      }
    }

    /** Loads the document of an event and archives it; an event whose document cannot be loaded is removed. */
    method PullSnapshot(id: nat, ref: string) returns (snapshot: Option<ItemCollection>, ok: bool)
      requires archive.Valid()
      requires ref in docs ==> docs[ref].WellFormed()
      requires ref in docs ==> forall f :: f in docs[ref].files ==> |f.content| <= MAX_CONTENT
      modifies archive, this`log
      ensures archive.Valid() && log == if ref in docs then old(log) else old(log) - {id}
      ensures archive.T() == if ref in docs then Archive.SaveSnapshot(archive.cfg, old(archive.T()), docs[ref])
                else old(archive.T())
      ensures ok <==> (ref in docs ==> !PullFails(archive.cfg, old(archive.T()), docs[ref]))
      ensures ok ==> snapshot == if ref in docs then Some(docs[ref]) else None
    {
      if ref !in docs {
        log := log - {id};
        return None, true;
      }
      var status := archive.SaveSnapshot(docs[ref]);
      snapshot, ok := Some(docs[ref]), !status.InvalidDocument? && !status.Aborted?;
    }

    /** One event; `last` is the variable that keeps the snapshot of an earlier event. */
    method ProcessEvent(id: nat, last: Option<ItemCollection>) returns (last': Option<ItemCollection>)
      requires archive.Valid() && id in log
      requires forall r :: r in docs ==> docs[r].WellFormed()
      requires forall r, f :: r in docs && f in docs[r].files ==> |f.content| <= MAX_CONTENT
      modifies this`log, this`next, archive
      ensures archive.Valid() && Y(last') == Process(St(), docs, old(Y(last)), id)
    {
      var topic, ref := log[id].topic, log[id].ref;
      last' := last;
      var ok := true;
      if TOPIC_ADD <= topic {
        var snapshot;
        snapshot, ok := PullSnapshot(id, ref);
        if ok { last' := snapshot; }
      }
      log := log - {id};
      if ok && backup && last'.Some? && BACKUPRESTORE !in last'.value.items { CreateBackupEvents(ref, last'); }
    }

    /** Processes the entries found in the log. */
    method ProcessEventLog(found: seq<nat>)
      requires archive.Valid() && |found| <= PAGE_SIZE
      requires forall r :: r in docs ==> docs[r].WellFormed()
      requires forall r, f :: r in docs && f in docs[r].files ==> |f.content| <= MAX_CONTENT
      modifies this`log, this`next, archive
      ensures archive.Valid()
      ensures exists last :: Y(last) == ProcessAll(St(), docs, old(Y(None)), found)
    {
      var last: Option<ItemCollection> := None;
      ghost var goal := ProcessAll(St(), docs, Y(None), found);
      var i := 0;
      while i < |found| && found[i] in log
        invariant i <= |found| && archive.Valid()
        invariant ProcessAll(St(), docs, Y(last), found[i..]) == goal
      {
        assert found[i..][0] == found[i] && found[i..][1..] == found[i + 1..];
        last := ProcessEvent(found[i], last);
        i := i + 1;
      }
      assert Y(last) == goal;
    }
  }
}
