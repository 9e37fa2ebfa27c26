/** The protocol by which backup workers consume the event log of a workflow instance, as a state
    machine over all interleavings of workers, failures and releases of dead locks. */
module BackupProtocol {
  import opened Order
  import opened Items
  import opened Ids
  import S = SyncServices
  import E = EventLog
  import D = Snapshots

  // ---- topics ----

  predicate IsWhitespace(c: char) { c == ' ' || '\t' <= c <= '\r' || '\U{001C}' <= c <= '\U{001F}' }

  predicate IsBlank(s: string) { forall i :: 0 <= i < |s| ==> IsWhitespace(s[i]) }

  /** The topic a backup service reads. */
  function EventLogTopic(mirrorId: string): string {
    if IsBlank(mirrorId) then E.TOPIC_BACKUP else E.TOPIC_BACKUP + "." + mirrorId
  }

  /** Two backup services read the same topic exactly if they have the same mirror id or none. */
  lemma TopicsSeparateMirrors(a: string, b: string)
    ensures EventLogTopic(a) == EventLogTopic(b) <==> a == b || (IsBlank(a) && IsBlank(b))
  {
    var p := E.TOPIC_BACKUP + ".";
    assert (p + a)[|p|..] == a && (p + b)[|p|..] == b;
    assert |p| > |E.TOPIC_BACKUP|;
  }

  /** A backup service is sent events exactly if its mirror id is blank or is one of the pieces of the
      mirror list without the spaces around it; an id with a space in front or behind gets none. */
  lemma MirrorIsServed(st: S.Settings, mirrorId: string, ref: string)
    requires st.backup
    ensures E.Event(EventLogTopic(mirrorId), ref) in S.Fan(st, ref) <==>
              IsBlank(mirrorId) || exists piece :: piece in S.Split(st.mirrors, ',') && S.IsPadded(piece, mirrorId)
    ensures EventLogTopic(mirrorId) == if IsBlank(mirrorId) then "snapshot.backup" else "snapshot.backup." + mirrorId
  {
    ListedIsServed(st, mirrorId, ref);
    ListedIsPadded(S.Split(st.mirrors, ','), mirrorId);
    assert E.TOPIC_BACKUP + "." == "snapshot.backup.";
  }

  lemma {:induction false} ListedIsPadded(parts: seq<string>, id: string)
    ensures id in S.TrimmedNonEmpty(parts) <==> exists piece :: piece in parts && S.IsPadded(piece, id)
  {
    if parts != [] {
      ListedIsPadded(parts[1..], id);
      S.TrimIsExact(parts[0]);
      if S.IsPadded(parts[0], id) {
        PaddedIsVisible(parts[0], id);
        PaddedUnique(parts[0], id, S.Trim(parts[0]));
      }
      assert parts == [parts[0]] + parts[1..];
    }
  }

  lemma PaddedIsVisible(piece: string, id: string)
    requires S.IsPadded(piece, id)
    ensures S.HasVisible(piece)
  {
    var l, r :| piece == l + id + r && forall c :: c in l + r ==> c <= ' ';
    assert piece[|l|] == id[0] && id[0] in piece;
  }

  /** A piece without the spaces around it is one text only. */
  lemma PaddedUnique(piece: string, a: string, b: string)
    requires S.IsPadded(piece, a) && S.IsPadded(piece, b)
    ensures a == b
  {
    var l, r :| piece == l + a + r && forall c :: c in l + r ==> c <= ' ';
    var m, n :| piece == m + b + n && forall c :: c in m + n ==> c <= ' ';
    PaddedStart(piece, l, a, r, m, b, n);
    PaddedStart(piece, m, b, n, l, a, r);
    assert a == piece[|l|..|l| + |a|] && b == piece[|m|..|m| + |b|];
  }

  lemma PaddedStart(piece: string, l: string, a: string, r: string, m: string, b: string, n: string)
    requires piece == l + a + r && piece == m + b + n && a != [] && b != []
    requires a[0] > ' ' && a[|a| - 1] > ' ' && forall c :: c in m + n ==> c <= ' '
    ensures |m| <= |l| && |l| + |a| <= |m| + |b|
  {
    forall x | 0 <= x < |m| ensures piece[x] <= ' ' { assert piece[x] == m[x] && m[x] in m + n; }
    forall x | |m| + |b| <= x < |piece| ensures piece[x] <= ' ' {
      assert piece[x] == n[x - |m| - |b|] && n[x - |m| - |b|] in m + n;
    }
    assert piece[|l|] == a[0] && piece[|l| + |a| - 1] == a[|a| - 1];
  }

  lemma ListedIsServed(st: S.Settings, mirrorId: string, ref: string)
    requires st.backup
    ensures E.Event(EventLogTopic(mirrorId), ref) in S.Fan(st, ref) <==>
              IsBlank(mirrorId) || mirrorId in S.MirrorList(st.mirrors)
    ensures mirrorId in S.MirrorList(st.mirrors) ==> !IsBlank(mirrorId)
  {
    var list := S.MirrorList(st.mirrors);
    S.MirrorEventsAre(list, ref);
    if mirrorId in list {
      S.MirrorIdsAreTrimmed(S.Split(st.mirrors, ','), mirrorId);
      assert !IsWhitespace(mirrorId[0]);
      var k :| 0 <= k < |list| && list[k] == mirrorId;
      assert S.MirrorEvents(list, ref)[k] == E.Event(EventLogTopic(mirrorId), ref);
    }
    if !IsBlank(mirrorId) && E.Event(EventLogTopic(mirrorId), ref) in S.Fan(st, ref) {
      assert |EventLogTopic(mirrorId)| > |E.TOPIC_BACKUP|;
      assert E.Event(EventLogTopic(mirrorId), ref) in S.MirrorEvents(list, ref);
      var k :| 0 <= k < |list| && S.MirrorEvents(list, ref)[k] == E.Event(EventLogTopic(mirrorId), ref);
      var p := E.TOPIC_BACKUP + ".";
      assert (p + mirrorId)[|p|..] == mirrorId && (p + list[k])[|p|..] == list[k];
    }
  }

  // ---- the state ----

  datatype Lock = Free | Locked(since: int)
  datatype Entry = Entry(topic: string, ref: string, noOverwrite: bool)
  datatype Row = Row(entry: Entry, lock: Lock)

  /** Where a worker is in the processing of an event. */
  datatype Pc = Idle | HasLock(id: nat) | Pulled(id: nat, doc: ItemCollection) | Missing(id: nat) | Stored(id: nat)

  datatype Path = Path(folder: string, name: string)
  type Space = map<Path, ItemCollection>

  /** The topic of every worker, the folder of a creation date, and the age at which locks are released. */
  datatype Config = Config(topics: seq<string>, folder: int -> string, interval: int)

  /** The event log, all events ever written to it, the snapshots of the instance, the backup space of
      every topic, the snapshots reported missing to its workers, the clock, and the workers. */
  datatype World = World(
    log: map<nat, Row>, created: map<nat, Entry>, instance: map<string, ItemCollection>,
    spaces: map<string, Space>, missing: set<(string, string)>, clock: int, workers: seq<Pc>)
  {
    function SpaceOf(topic: string): Space { if topic in spaces then spaces[topic] else map[] }

    function With(k: nat, pc: Pc): World
      requires k < |workers|
    {
      this.(workers := workers[k := pc])
    }
  }

  function FileName(snapshotId: string): string {
    (if GetUniqueID(snapshotId).Some? then GetUniqueID(snapshotId).value else "null") + ".xml"
  }

  /** The file of a snapshot, or None for a document without a creation date. */
  function PathOf(cfg: Config, doc: ItemCollection): Option<Path> {
    match GetDate(doc.items, CREATED)
    case None => None
    case Some(created) => Some(Path(cfg.folder(created), FileName(doc.UniqueId())))
  }

  /** Storing a snapshot: an existing file is kept if it must not be overwritten. */
  function Put(space: Space, path: Path, doc: ItemCollection, overwrite: bool): Space {
    if path in space && !overwrite then space else space[path := doc]
  }

  // ---- the steps ----

  datatype Step =
    | Acquire(k: nat, id: nat)
    | Pull(k: nat)
    | Store(k: nat)
    | Remove(k: nat)
    | Fail(k: nat)                 // an error while pulling or storing, or a crash at any point
    | Release(topic: string)
    | Write(id: nat, entry: Entry)
    | Change(ref: string, doc: Option<ItemCollection>)
    | Tick(millis: nat)

  predicate IsWorker(cfg: Config, w: World, k: nat) { k < |cfg.topics| && k < |w.workers| }

  predicate Enabled(cfg: Config, w: World, step: Step) {
    match step
    case Acquire(k, id) => IsWorker(cfg, w, k) && w.workers[k].Idle? && id in w.log
                           && w.log[id].entry.topic == cfg.topics[k] && w.log[id].lock.Free?
    case Pull(k) => IsWorker(cfg, w, k) && w.workers[k].HasLock? && w.workers[k].id in w.created
    case Store(k) => IsWorker(cfg, w, k) && w.workers[k].Pulled? && w.workers[k].id in w.created
                     && PathOf(cfg, w.workers[k].doc).Some?
    case Remove(k) => IsWorker(cfg, w, k) && (w.workers[k].Missing? || w.workers[k].Stored?)
    case Fail(k) => IsWorker(cfg, w, k)
    case Release(_) => true
    case Write(id, _) => id !in w.created
    case Change(ref, doc) => doc.Some? ==> doc.value.UniqueId() == ref
    case Tick(_) => true
  }

  function ReleaseRow(cfg: Config, row: Row, topic: string, clock: int): Row {
    if row.entry.topic == topic && row.lock.Locked? && row.lock.since + cfg.interval < clock
    then row.(lock := Free) else row
  }

  function Apply(cfg: Config, w: World, step: Step): World
    requires Enabled(cfg, w, step)
  {
    match step
    case Acquire(k, id) => w.(log := w.log[id := w.log[id].(lock := Locked(w.clock))]).With(k, HasLock(id))
    case Pull(k) =>
      var id := w.workers[k].id;
      var ref := w.created[id].ref;
      if ref in w.instance then w.With(k, Pulled(id, w.instance[ref]))
      else w.(missing := w.missing + {(cfg.topics[k], ref)}).With(k, Missing(id))
    case Store(k) =>
      var id, doc := w.workers[k].id, w.workers[k].doc;
      var space := Put(w.SpaceOf(cfg.topics[k]), PathOf(cfg, doc).value, doc, !w.created[id].noOverwrite);
      w.(spaces := w.spaces[cfg.topics[k] := space]).With(k, Stored(id))
    case Remove(k) => w.(log := w.log - {w.workers[k].id}).With(k, Idle)
    case Fail(k) => w.With(k, Idle)
    case Release(topic) => w.(log := map id | id in w.log :: ReleaseRow(cfg, w.log[id], topic, w.clock))
    case Write(id, entry) => w.(log := w.log[id := Row(entry, Free)], created := w.created[id := entry])
    case Change(ref, doc) => w.(instance := if doc.Some? then w.instance[ref := doc.value] else w.instance - {ref})
    case Tick(millis) => w.(clock := w.clock + millis)
  }

  // ---- safety ----

  /** A file for the snapshot's origin is in the backup space. */
  ghost predicate Backed(space: Space, ref: string) {
    exists p :: p in space && p.name == FileName(ref)
  }

  /** The event is still in the log, or its snapshot's origin is backed up in the space of the topic,
      or its snapshot was reported missing to a worker of the topic. */
  ghost predicate Settled(w: World, e: Entry) { Backed(w.SpaceOf(e.topic), e.ref) || (e.topic, e.ref) in w.missing }

  ghost predicate WorkerOk(cfg: Config, w: World, k: nat)
    requires IsWorker(cfg, w, k)
  {
    w.workers[k].Idle?
    || (w.workers[k].id in w.created && w.created[w.workers[k].id].topic == cfg.topics[k]
        && match w.workers[k]
           case HasLock(id) => true
           case Pulled(id, doc) => doc.UniqueId() == w.created[id].ref
           case _ => Settled(w, w.created[w.workers[k].id]))
  }

  ghost predicate LogOk(w: World) { forall id :: id in w.log ==> id in w.created && w.log[id].entry == w.created[id] }

  ghost predicate InstanceOk(w: World) { forall ref :: ref in w.instance ==> w.instance[ref].UniqueId() == ref }

  ghost predicate WorkersOk(cfg: Config, w: World) {
    |w.workers| == |cfg.topics| && forall k: nat :: k < |w.workers| ==> WorkerOk(cfg, w, k)
  }

  ghost predicate EventsOk(w: World) { forall id :: id in w.created ==> id in w.log || Settled(w, w.created[id]) }

  /** Every file holds a snapshot of the origin it is named after. */
  ghost predicate FilesOk(cfg: Config, w: World) {
    forall t, p :: t in w.spaces && p in w.spaces[t] ==> PathOf(cfg, w.spaces[t][p]) == Some(p)
  }

  ghost predicate Inv(cfg: Config, w: World) {
    LogOk(w) && InstanceOk(w) && WorkersOk(cfg, w) && EventsOk(w) && FilesOk(cfg, w)
  }

  function Initial(cfg: Config, instance: map<string, ItemCollection>): World {
    World(map[], map[], instance, map[], {}, 0, seq(|cfg.topics|, _ => Idle))
  }

  lemma InitialInv(cfg: Config, instance: map<string, ItemCollection>)
    requires forall ref :: ref in instance ==> instance[ref].UniqueId() == ref
    ensures Inv(cfg, Initial(cfg, instance))
  {
  }

  /** Files and missing reports never go away. */
  ghost predicate Grows(w: World, w': World) {
    && w.missing <= w'.missing
    && forall t, p :: t in w.spaces && p in w.spaces[t] ==> t in w'.spaces && p in w'.spaces[t]
  }

  lemma SettledStays(w: World, w': World, e: Entry)
    requires Grows(w, w') && Settled(w, e)
    ensures Settled(w', e)
  {
    if Backed(w.SpaceOf(e.topic), e.ref) {
      var p :| p in w.SpaceOf(e.topic) && p.name == FileName(e.ref);
      assert p in w'.SpaceOf(e.topic);
    }
  }

  lemma StepGrows(cfg: Config, w: World, step: Step)
    requires Enabled(cfg, w, step)
    ensures Grows(w, Apply(cfg, w, step))
    ensures forall id :: id in w.created ==>
              id in Apply(cfg, w, step).created && Apply(cfg, w, step).created[id] == w.created[id]
  {
  }

  ghost predicate CreatedGrows(w: World, w': World) {
    forall id :: id in w.created ==> id in w'.created && w'.created[id] == w.created[id]
  }

  lemma WorkerStays(cfg: Config, w: World, w': World, k: nat)
    requires IsWorker(cfg, w, k) && WorkerOk(cfg, w, k) && Grows(w, w') && CreatedGrows(w, w')
    requires |w'.workers| == |w.workers| && w'.workers[k] == w.workers[k]
    ensures WorkerOk(cfg, w', k)
  {
    if w.workers[k].Missing? || w.workers[k].Stored? { SettledStays(w, w', w.created[w.workers[k].id]); }
  }

  /** The worker that takes a step. */
  function Actor(step: Step): Option<nat> {
    match step
    case Acquire(k, _) => Some(k)
    case Pull(k) => Some(k)
    case Store(k) => Some(k)
    case Remove(k) => Some(k)
    case Fail(k) => Some(k)
    case _ => None
  }

  lemma ActorOk(cfg: Config, w: World, step: Step)
    requires Inv(cfg, w) && Enabled(cfg, w, step) && Actor(step).Some?
    ensures var k, w' := Actor(step).value, Apply(cfg, w, step);
            IsWorker(cfg, w, k) && IsWorker(cfg, w', k) && WorkerOk(cfg, w', k)
  {
    var k, w' := Actor(step).value, Apply(cfg, w, step);
    assert WorkerOk(cfg, w, k);
    match step
    case Store(_) =>
      var doc := w.workers[k].doc;
      var path := PathOf(cfg, doc).value;
      assert path in w'.SpaceOf(cfg.topics[k]) && path.name == FileName(doc.UniqueId());
    case _ =>
  }

  lemma StepKeepsWorkers(cfg: Config, w: World, step: Step)
    requires Inv(cfg, w) && Enabled(cfg, w, step)
    ensures WorkersOk(cfg, Apply(cfg, w, step))
  {
    var w' := Apply(cfg, w, step);
    StepGrows(cfg, w, step);
    if Actor(step).Some? { ActorOk(cfg, w, step); }
    forall j: nat | j < |w'.workers| ensures WorkerOk(cfg, w', j) {
      if Actor(step) != Some(j) {
        assert WorkerOk(cfg, w, j);
        WorkerStays(cfg, w, w', j);
      }
    }
  }

  lemma StepKeepsEvents(cfg: Config, w: World, step: Step)
    requires Inv(cfg, w) && Enabled(cfg, w, step)
    ensures EventsOk(Apply(cfg, w, step))
  {
    var w' := Apply(cfg, w, step);
    StepGrows(cfg, w, step);
    forall id | id in w'.created ensures id in w'.log || Settled(w', w'.created[id]) {
      if id in w.created {
        if Settled(w, w.created[id]) { SettledStays(w, w', w.created[id]); }
        else if step.Remove? { assert WorkerOk(cfg, w, step.k); }
      }
    }
  }

  lemma StepKeepsFiles(cfg: Config, w: World, step: Step)
    requires Inv(cfg, w) && Enabled(cfg, w, step)
    ensures FilesOk(cfg, Apply(cfg, w, step)) && LogOk(Apply(cfg, w, step)) && InstanceOk(Apply(cfg, w, step))
  {
    var w' := Apply(cfg, w, step);
    if step.Store? {
      var t := cfg.topics[step.k];
      forall u, p | u in w'.spaces && p in w'.spaces[u] ensures PathOf(cfg, w'.spaces[u][p]) == Some(p) {
        if u != t { assert u in w.spaces && p in w.spaces[u]; }
        else if p in w.SpaceOf(t) { assert t in w.spaces && p in w.spaces[t]; }
      }
    }
  }

  lemma StepKeepsInv(cfg: Config, w: World, step: Step)
    requires Inv(cfg, w) && Enabled(cfg, w, step)
    ensures Inv(cfg, Apply(cfg, w, step))
  {
    StepKeepsWorkers(cfg, w, step);
    StepKeepsEvents(cfg, w, step);
    StepKeepsFiles(cfg, w, step);
  }

  // ---- runs ----

  ghost predicate IsRun(cfg: Config, w: World, steps: seq<Step>, final: World)
    decreases |steps|
  {
    if steps == [] then final == w
    else Enabled(cfg, w, steps[0]) && IsRun(cfg, Apply(cfg, w, steps[0]), steps[1..], final)
  }

  lemma {:induction false} RunKeepsInv(cfg: Config, w: World, steps: seq<Step>, final: World)
    requires Inv(cfg, w) && IsRun(cfg, w, steps, final)
    ensures Inv(cfg, final)
    decreases |steps|
  {
    if steps != [] {
      StepKeepsInv(cfg, w, steps[0]);
      RunKeepsInv(cfg, Apply(cfg, w, steps[0]), steps[1..], final);
    }
  }

  /** Over any interleaving of workers, failures, crashes and releases of dead locks, an event written
      to the log is still in it unless a file for its snapshot's origin is in the backup space of its
      topic or its snapshot was reported missing; and every file holds a snapshot of the origin it
      is named after. */
  lemma NoEventIsLost(cfg: Config, instance: map<string, ItemCollection>, steps: seq<Step>, final: World, id: nat)
    requires (forall ref :: ref in instance ==> instance[ref].UniqueId() == ref)
    requires IsRun(cfg, Initial(cfg, instance), steps, final)
    requires id in final.created
    ensures id in final.log || Backed(final.SpaceOf(final.created[id].topic), final.created[id].ref)
            || (final.created[id].topic, final.created[id].ref) in final.missing
    ensures FilesOk(cfg, final)
  {
    InitialInv(cfg, instance);
    RunKeepsInv(cfg, Initial(cfg, instance), steps, final);
  }

  /** Neither id has an origin to name a file after. */
  predicate NoOrigin(id: string) { GetUniqueID(id).None? || GetUniqueID(id) == Some("null") }

  predicate SameOrigin(a: string, b: string) { GetUniqueID(a) == GetUniqueID(b) || (NoOrigin(a) && NoOrigin(b)) }

  lemma FileNamesSeparate(a: string, b: string)
    ensures FileName(a) == FileName(b) <==> SameOrigin(a, b)
  {
    var x := if GetUniqueID(a).Some? then GetUniqueID(a).value else "null";
    var y := if GetUniqueID(b).Some? then GetUniqueID(b).value else "null";
    assert (x + ".xml")[..|x|] == x && (y + ".xml")[..|y|] == y;
  }

  /** And what is in the backup space for an event that is gone and not reported missing is a snapshot of the
      same origin as the one it refers to. */
  lemma EventsAreBackedUp(cfg: Config, instance: map<string, ItemCollection>, steps: seq<Step>, final: World, id: nat)
    requires (forall ref :: ref in instance ==> instance[ref].UniqueId() == ref)
    requires IsRun(cfg, Initial(cfg, instance), steps, final)
    requires id in final.created && id !in final.log
    requires (final.created[id].topic, final.created[id].ref) !in final.missing
    ensures var e := final.created[id];
            exists p :: p in final.SpaceOf(e.topic) && SameOrigin(final.SpaceOf(e.topic)[p].UniqueId(), e.ref)
  {
    NoEventIsLost(cfg, instance, steps, final, id);
    var e := final.created[id];
    var p :| p in final.SpaceOf(e.topic) && p.name == FileName(e.ref);
    assert e.topic in final.spaces && p in final.spaces[e.topic] && PathOf(cfg, final.spaces[e.topic][p]) == Some(p);
    FileNamesSeparate(final.SpaceOf(e.topic)[p].UniqueId(), e.ref);
  }

  /** A step leaves every file as it is but for one that a worker of its topic replaces by a snapshot of the
      same origin. */
  lemma OtherOriginsStay(cfg: Config, w: World, step: Step, t: string, p: Path)
    requires Inv(cfg, w) && Enabled(cfg, w, step) && t in w.spaces && p in w.spaces[t]
    ensures var w' := Apply(cfg, w, step);
            && t in w'.spaces && p in w'.spaces[t]
            && (w'.spaces[t][p] == w.spaces[t][p]
                || (step.Store? && t == cfg.topics[step.k] && w'.spaces[t][p] == w.workers[step.k].doc
                    && SameOrigin(w.spaces[t][p].UniqueId(), w.workers[step.k].doc.UniqueId())))
  {
    if step.Store? { FileNamesSeparate(w.spaces[t][p].UniqueId(), w.workers[step.k].doc.UniqueId()); }
  }

  /** Only a worker of an event's own topic ever removes the event, and only once it is settled. */
  lemma OnlyOwnEventsAreConsumed(cfg: Config, w: World, step: Step, id: nat)
    requires Inv(cfg, w) && Enabled(cfg, w, step) && id in w.log && id !in Apply(cfg, w, step).log
    ensures step.Remove? && cfg.topics[step.k] == w.log[id].entry.topic && Settled(w, w.log[id].entry)
  {
    if step.Remove? { assert WorkerOk(cfg, w, step.k); }
  }

  ghost predicate NeverOverwrites(w: World) { forall id :: id in w.created ==> w.created[id].noOverwrite }

  /** Every file of the first world is in the second one, with the same content. */
  ghost predicate FilesKept(w: World, w': World) {
    forall t, p :: t in w.spaces && p in w.spaces[t] ==>
        t in w'.spaces && p in w'.spaces[t] && w'.spaces[t][p] == w.spaces[t][p]
  }

  lemma StepKeepsStoredFiles(cfg: Config, w: World, step: Step)
    requires Enabled(cfg, w, step) && NeverOverwrites(Apply(cfg, w, step))
    ensures FilesKept(w, Apply(cfg, w, step))
  {
    if step.Store? { assert w.created[w.workers[step.k].id].noOverwrite; }
  }

  lemma {:induction false} CreatedStays(cfg: Config, w: World, steps: seq<Step>, final: World)
    requires IsRun(cfg, w, steps, final)
    ensures CreatedGrows(w, final)
    decreases |steps|
  {
    if steps != [] {
      StepGrows(cfg, w, steps[0]);
      CreatedStays(cfg, Apply(cfg, w, steps[0]), steps[1..], final);
    }
  }

  /** If all events forbid overwriting, as those of a full backup do, no file of any backup space is
      ever changed. */
  lemma {:induction false} NoOverwriteKeepsFiles(cfg: Config, w: World, steps: seq<Step>, final: World)
    requires IsRun(cfg, w, steps, final) && NeverOverwrites(final)
    ensures FilesKept(w, final)
    decreases |steps|
  {
    if steps != [] {
      var next := Apply(cfg, w, steps[0]);
      CreatedStays(cfg, next, steps[1..], final);
      StepKeepsStoredFiles(cfg, w, steps[0]);
      NoOverwriteKeepsFiles(cfg, next, steps[1..], final);
    }
  }

  /** An event that allows overwriting is removed only after its own worker has stored a snapshot of its
      reference, or reported it missing. */
  lemma StoredIsPulled(cfg: Config, w: World, step: Step)
    requires Inv(cfg, w) && Enabled(cfg, w, step) && step.Store? && !w.created[w.workers[step.k].id].noOverwrite
    ensures var ref, doc := w.created[w.workers[step.k].id].ref, w.workers[step.k].doc;
            var space, created := Apply(cfg, w, step).SpaceOf(cfg.topics[step.k]), GetDate(doc.items, "$created");
            && doc.UniqueId() == ref && created.Some?
            && exists p :: p in space && space[p] == doc && p.folder == cfg.folder(created.value)
                           && (GetUniqueID(ref).Some? ==> p.name == GetUniqueID(ref).value + ".xml")
  {
    var doc := w.workers[step.k].doc;
    assert WorkerOk(cfg, w, step.k);
    var p := PathOf(cfg, doc).value;
    assert p in Apply(cfg, w, step).SpaceOf(cfg.topics[step.k]);
  }

  /** The release of dead locks frees exactly the events of its topic that have been locked for longer than the
      interval; an idle worker of the topic can acquire them again. */
  lemma DeadLocksAreFreed(cfg: Config, w: World, topic: string, id: nat)
    requires id in w.log
    ensures var row, w' := w.log[id], Apply(cfg, w, Release(topic));
            && id in w'.log && w'.log[id].entry == row.entry
            && (w'.log[id].lock == if row.entry.topic == topic && row.lock.Locked?
                                      && w.clock - row.lock.since > cfg.interval then Free else row.lock)
            && (w'.log[id].lock.Free? ==>
                  forall k: nat :: IsWorker(cfg, w, k) && cfg.topics[k] == row.entry.topic && w.workers[k].Idle? ==>
                    Enabled(cfg, w', Acquire(k, id)))
  {
  }

  /** An acquired event is not freed before its worker has had it for the whole interval, and is freed after. */
  lemma AcquiredIsHeld(cfg: Config, w: World, k: nat, id: nat, millis: nat)
    requires Enabled(cfg, w, Acquire(k, id))
    ensures var topic, held := w.log[id].entry.topic, Apply(cfg, w, Acquire(k, id));
            var later := Apply(cfg, Apply(cfg, held, Tick(millis)), Release(topic));
            && !Enabled(cfg, held, Acquire(k, id)) && id in later.log
            && (later.log[id].lock.Free? <==> millis > cfg.interval)
  {
  }

  /** A worker pulls the snapshot that the instance has at that moment, and finds none that is removed. */
  lemma PullsCurrent(cfg: Config, w: World, k: nat, doc: Option<ItemCollection>)
    requires Enabled(cfg, w, Pull(k))
    requires doc.Some? ==> doc.value.UniqueId() == w.created[w.workers[k].id].ref
    ensures var id := w.workers[k].id;
            var changed := Apply(cfg, w, Change(w.created[id].ref, doc));
            && Enabled(cfg, changed, Pull(k))
            && Apply(cfg, changed, Pull(k)).workers[k]
               == match doc
                  case Some(d) => Pulled(id, d)
                  case None => Missing(id)
  {
  }

  // ---- from a save to a backup ----

  /** With a backup service and no archive every save writes exactly one event, for the new snapshot and under
      the topic that a backup service without a mirror id reads; with an archive the event is the
      archive's, and with neither service there is none. */
  lemma SaveWritesEvent(cfg: D.Settings, store: D.Store, doc: ItemCollection, ctx: D.Context)
    requires D.TakesSnapshot(doc)
    ensures var id, log := MakeSnapshotID(doc.UniqueId(), ctx.idTime), D.Save(cfg, store, doc, ctx).log;
            log == store.log + if cfg.archive then [E.Event("snapshot.add", id)]
                               else if cfg.backup then [E.Event(EventLogTopic(""), id)] else []
    ensures EventLogTopic("") == "snapshot.backup"
  {
  }

  /** Once such an event is in the log, every idle worker without a mirror id can acquire it. */
  lemma WrittenEventIsAcquired(cfg: Config, w: World, event: E.Event, id: nat, noOverwrite: bool, k: nat,
          mirrorId: string)
    requires event.topic == EventLogTopic("") && id !in w.created && IsWorker(cfg, w, k) && w.workers[k].Idle?
    requires IsBlank(mirrorId) && cfg.topics[k] == EventLogTopic(mirrorId)
    ensures var write := Write(id, Entry(event.topic, event.ref, noOverwrite));
            && Enabled(cfg, w, write) && Enabled(cfg, Apply(cfg, w, write), Acquire(k, id))
            && Apply(cfg, w, write).log[id].entry.ref == event.ref
  {
  }

  // ---- exclusion ----

  predicate Holds(pc: Pc, id: nat) { !pc.Idle? && pc.id == id }

  /** Every event in process is in the log under its worker's lock, and no two workers process the same one. */
  ghost predicate Exclusive(w: World) {
    && (forall k: nat :: k < |w.workers| && !w.workers[k].Idle? ==>
          w.workers[k].id in w.log && w.log[w.workers[k].id].lock.Locked?)
    && (forall j: nat, k: nat :: j < k < |w.workers| && !w.workers[j].Idle? ==> !Holds(w.workers[k], w.workers[j].id))
  }

  ghost predicate HeldInTime(cfg: Config, w: World, id: nat) {
    id in w.log && w.log[id].lock.Locked? ==> w.clock <= w.log[id].lock.since + cfg.interval
  }

  /** At the release of dead locks no worker has held its lock for longer than the interval. */
  ghost predicate Timely(cfg: Config, w: World, step: Step) {
    step.Release? ==>
      forall k: nat :: k < |w.workers| && !w.workers[k].Idle? ==> HeldInTime(cfg, w, w.workers[k].id)
  }

  lemma StepKeepsExclusion(cfg: Config, w: World, step: Step)
    requires Inv(cfg, w) && Enabled(cfg, w, step) && Exclusive(w) && Timely(cfg, w, step)
    ensures Exclusive(Apply(cfg, w, step))
  {
    var w' := Apply(cfg, w, step);
    forall k: nat | k < |w'.workers| && !w'.workers[k].Idle?
      ensures w'.workers[k].id in w'.log && w'.log[w'.workers[k].id].lock.Locked?
    {
    }
  }

  ghost predicate IsTimelyRun(cfg: Config, w: World, steps: seq<Step>, final: World)
    decreases |steps|
  {
    if steps == [] then final == w
    else (
      && Enabled(cfg, w, steps[0]) && Timely(cfg, w, steps[0])
      && IsTimelyRun(cfg, Apply(cfg, w, steps[0]), steps[1..], final)
    )
  }

  /** If dead locks are released only when no worker is late, no event is ever processed by two workers at a time. */
  lemma {:induction false} TimelyRunsExclude(cfg: Config, w: World, steps: seq<Step>, final: World)
    requires Inv(cfg, w) && Exclusive(w) && IsTimelyRun(cfg, w, steps, final)
    ensures Inv(cfg, final) && Exclusive(final)
    decreases |steps|
  {
    if steps != [] {
      StepKeepsInv(cfg, w, steps[0]);
      StepKeepsExclusion(cfg, w, steps[0]);
      TimelyRunsExclude(cfg, Apply(cfg, w, steps[0]), steps[1..], final);
    }
  }

  // ---- one worker's timeout ----

  lemma {:induction false} RunAppend(cfg: Config, w: World, a: seq<Step>, middle: World, b: seq<Step>, final: World)
    requires IsRun(cfg, w, a, middle) && IsRun(cfg, middle, b, final)
    ensures IsRun(cfg, w, a + b, final)
    decreases |a|
  {
    if a == [] {
      assert a + b == b;
    } else {
      assert (a + b)[1..] == a[1..] + b;
      RunAppend(cfg, Apply(cfg, w, a[0]), a[1..], middle, b, final);
    }
  }

  /** The event is in the log under the worker's topic, and no one has locked it. */
  predicate Lockable(cfg: Config, w: World, k: nat, id: nat)
    requires k < |cfg.topics|
  {
    id in w.log && id in w.created && w.log[id].entry.topic == cfg.topics[k] && w.log[id].lock.Free?
  }

  /** The event is backed up: it can be locked, and its snapshot can be pulled and stored. */
  predicate Succeeds(cfg: Config, w: World, k: nat, id: nat, pullFails: bool, storeFails: bool)
    requires k < |cfg.topics|
  {
    && Lockable(cfg, w, k, id) && !pullFails && !storeFails && w.created[id].ref in w.instance
    && GetDate(w.instance[w.created[id].ref].items, CREATED).Some?
  }

  /** The event ends with an error: it cannot be locked, or its snapshot not be pulled or stored. One whose
      snapshot is gone is removed without an error. */
  predicate Errs(cfg: Config, w: World, k: nat, id: nat, pullFails: bool, storeFails: bool)
    requires k < |cfg.topics|
  {
    || !Lockable(cfg, w, k, id) || pullFails
    || (w.created[id].ref in w.instance
        && (storeFails || GetDate(w.instance[w.created[id].ref].items, CREATED).None?))
  }

  /** Apart from one event the log is as it was; no event is new, and the instance is the same. */
  ghost predicate OnlyTouches(w: World, w': World, id: nat) {
    && w'.log.Keys <= w.log.Keys && w'.created == w.created && w'.instance == w.instance
    && forall other :: other in w.log && other != id ==> other in w'.log && w'.log[other] == w.log[other]
  }

  /** One backup service. The world is what it sees of the workflow instance and its backup space. */
  class BackupService {
    const cfg: Config
    const k: nat
    var world: World

    constructor (cfg: Config, k: nat, world: World)
      ensures this.cfg == cfg && this.k == k && this.world == world
    {
      this.cfg, this.k, this.world := cfg, k, world;
    }

    /** One more step of a run. */
    method Take(step: Step, ghost start: World, ghost steps: seq<Step>) returns (ghost steps': seq<Step>)
      requires Enabled(cfg, world, step) && IsRun(cfg, start, steps, world)
      modifies this
      ensures world == Apply(cfg, old(world), step) && IsRun(cfg, start, steps', world)
    {
      ghost var before := world;
      world := Apply(cfg, world, step);
      steps' := steps + [step];
      assert [step][1..] == [];
      assert IsRun(cfg, before, [step], world);
      RunAppend(cfg, start, steps, before, [step], world);
    }

    /** Locks an event, then pulls and stores its snapshot and removes the event. */
    method ProcessEvent(id: nat, pullFails: bool, storeFails: bool, ghost start: World, ghost steps: seq<Step>)
      returns (success: bool, error: bool, ghost steps': seq<Step>)
      requires IsWorker(cfg, world, k) && world.workers[k].Idle? && IsRun(cfg, start, steps, world)
      modifies this
      ensures IsRun(cfg, start, steps', world) && IsWorker(cfg, world, k) && world.workers[k].Idle?
      ensures OnlyTouches(old(world), world, id)
      ensures success <==> Succeeds(cfg, old(world), k, id, pullFails, storeFails)
      ensures error <==> Errs(cfg, old(world), k, id, pullFails, storeFails)
      ensures id in world.log <==> id in old(world).log && error
    {
      if !Enabled(cfg, world, Acquire(k, id)) || id !in world.created { return false, true, steps; }
      steps' := Take(Acquire(k, id), start, steps);
      success, error, steps' := ProcessLocked(id, pullFails, storeFails, start, steps');
    }

    method ProcessLocked(id: nat, pullFails: bool, storeFails: bool, ghost start: World, ghost steps: seq<Step>)
      returns (success: bool, error: bool, ghost steps': seq<Step>)
      requires IsWorker(cfg, world, k) && world.workers[k] == HasLock(id) && id in world.created && id in world.log
      requires IsRun(cfg, start, steps, world)
      modifies this
      ensures IsRun(cfg, start, steps', world) && IsWorker(cfg, world, k) && world.workers[k].Idle?
      ensures OnlyTouches(old(world), world, id)
      ensures var ref, instance := old(world).created[id].ref, old(world).instance;
              var stored := ref in instance && !storeFails && GetDate(instance[ref].items, CREATED).Some?;
              && success == (!pullFails && stored) && error == (pullFails || (ref in instance && !stored))
      ensures id in world.log <==> error
    {
      if pullFails {
        steps' := Take(Fail(k), start, steps);
        return false, true, steps';
      }
      steps' := Take(Pull(k), start, steps);
      if world.workers[k].Missing? {
        steps' := Take(Remove(k), start, steps');
        return false, false, steps';
      }
      if storeFails || PathOf(cfg, world.workers[k].doc).None? {
        steps' := Take(Fail(k), start, steps');
        return false, true, steps';
      }
      steps' := Take(Store(k), start, steps');
      steps' := Take(Remove(k), start, steps');
      return true, false, steps';
    }

    /** Releases dead locks, then processes the events found one after the other. The timeout is a run of
        the protocol; it removes exactly the found events that do not end with an error. */
    method OnTimeout(found: seq<nat>, pullFails: nat -> bool, storeFails: nat -> bool)
      returns (success: nat, errors: nat, ghost steps: seq<Step>)
      requires IsWorker(cfg, world, k) && world.workers[k].Idle? && |Elements(found)| == |found|
      modifies this
      ensures IsRun(cfg, old(world), steps, world)
      ensures var w := Apply(cfg, old(world), Release(cfg.topics[k]));
              && (forall id :: id in world.log <==>
                    id in w.log && (id in found ==> Errs(cfg, w, k, id, pullFails(id), storeFails(id))))
              && success == |set id | id in found && Succeeds(cfg, w, k, id, pullFails(id), storeFails(id))|
              && errors == |set id | id in found && Errs(cfg, w, k, id, pullFails(id), storeFails(id))|
    {
      ghost var start := world;
      success, errors, steps := 0, 0, [];
      steps := Take(Release(cfg.topics[k]), start, steps);
      success, errors, steps := ProcessFound(found, pullFails, storeFails, start, steps);
    }

    method ProcessFound(found: seq<nat>, pullFails: nat -> bool, storeFails: nat -> bool, ghost start: World,
            ghost steps: seq<Step>)
      returns (success: nat, errors: nat, ghost steps': seq<Step>)
      requires IsWorker(cfg, world, k) && world.workers[k].Idle? && IsRun(cfg, start, steps, world)
      requires |Elements(found)| == |found|
      modifies this
      ensures IsRun(cfg, start, steps', world)
      ensures forall id :: id in world.log <==>
                id in old(world).log && (id in found ==> Errs(cfg, old(world), k, id, pullFails(id), storeFails(id)))
      ensures success == |Successes(cfg, old(world), k, found, pullFails, storeFails)|
      ensures errors == |Errors(cfg, old(world), k, found, pullFails, storeFails)|
    {
      ghost var before := world;
      success, errors, steps' := 0, 0, steps;
      var i := 0;
      while i < |found|
        invariant i <= |found| && Progressed(cfg, before, world, k, found[..i], pullFails, storeFails)
        invariant success == |Successes(cfg, before, k, found[..i], pullFails, storeFails)|
        invariant errors == |Errors(cfg, before, k, found[..i], pullFails, storeFails)|
        invariant IsRun(cfg, start, steps', world) && IsWorker(cfg, world, k) && world.workers[k].Idle?
      {
        ghost var middle, id := world, found[i];
        CountMeansDistinct(found, i);
        SameFate(cfg, before, world, k, found[..i], pullFails, storeFails, id);
        var ok, failed;
        ok, failed, steps' := ProcessEvent(found[i], pullFails(found[i]), storeFails(found[i]), start, steps');
        ProgressedStep(cfg, before, middle, world, k, found, i, pullFails, storeFails);
        CountedStep(cfg, before, k, found, i, pullFails, storeFails);
        if ok { success := success + 1; }
        if failed { errors := errors + 1; }
        i := i + 1;
      }
      assert found[..i] == found;
    }
  }

  function Successes(cfg: Config, w: World, k: nat, found: seq<nat>, pullFails: nat -> bool,
          storeFails: nat -> bool): set<nat>
    requires k < |cfg.topics|
  {
    set id | id in found && Succeeds(cfg, w, k, id, pullFails(id), storeFails(id))
  }

  function Errors(cfg: Config, w: World, k: nat, found: seq<nat>, pullFails: nat -> bool,
          storeFails: nat -> bool): set<nat>
    requires k < |cfg.topics|
  {
    set id | id in found && Errs(cfg, w, k, id, pullFails(id), storeFails(id))
  }

  /** Of the events done those with an error remain; all others are as they were, no event is new, and the
      instance is the same. */
  ghost predicate Progressed(cfg: Config, w: World, w': World, k: nat, done: seq<nat>, pullFails: nat -> bool,
          storeFails: nat -> bool)
    requires k < |cfg.topics|
  {
    && w'.created == w.created && w'.instance == w.instance
    && (forall id :: id in w'.log <==>
          id in w.log && (id in done ==> Errs(cfg, w, k, id, pullFails(id), storeFails(id))))
    && (forall id :: id in w.log && id !in done ==> w'.log[id] == w.log[id])
  }

  /** An event that is not done yet ends as it would have at the beginning. */
  lemma SameFate(cfg: Config, w: World, w': World, k: nat, done: seq<nat>, pullFails: nat -> bool,
          storeFails: nat -> bool, id: nat)
    requires k < |cfg.topics| && Progressed(cfg, w, w', k, done, pullFails, storeFails) && id !in done
    ensures forall p, q :: Succeeds(cfg, w', k, id, p, q) == Succeeds(cfg, w, k, id, p, q)
    ensures forall p, q :: Errs(cfg, w', k, id, p, q) == Errs(cfg, w, k, id, p, q)
  {
  }

  lemma ProgressedStep(cfg: Config, w: World, w': World, w'': World, k: nat, found: seq<nat>, i: nat,
          pullFails: nat -> bool, storeFails: nat -> bool)
    requires i < |found| && k < |cfg.topics| && Progressed(cfg, w, w', k, found[..i], pullFails, storeFails)
    requires found[i] !in found[..i] && OnlyTouches(w', w'', found[i])
    requires var id := found[i];
             id in w''.log <==> id in w'.log && Errs(cfg, w, k, id, pullFails(id), storeFails(id))
    ensures Progressed(cfg, w, w'', k, found[..i + 1], pullFails, storeFails)
  {
    assert found[..i + 1] == found[..i] + [found[i]];
  }

  lemma CountedStep(cfg: Config, w: World, k: nat, found: seq<nat>, i: nat, pullFails: nat -> bool,
          storeFails: nat -> bool)
    requires i < |found| && k < |cfg.topics| && found[i] !in found[..i]
    ensures |Successes(cfg, w, k, found[..i + 1], pullFails, storeFails)|
            == |Successes(cfg, w, k, found[..i], pullFails, storeFails)|
               + if Succeeds(cfg, w, k, found[i], pullFails(found[i]), storeFails(found[i])) then 1 else 0
    ensures |Errors(cfg, w, k, found[..i + 1], pullFails, storeFails)|
            == |Errors(cfg, w, k, found[..i], pullFails, storeFails)|
               + if Errs(cfg, w, k, found[i], pullFails(found[i]), storeFails(found[i])) then 1 else 0
  {
    var before, after := Successes(cfg, w, k, found[..i], pullFails, storeFails),
        Successes(cfg, w, k, found[..i + 1], pullFails, storeFails);
    OneMoreFound(found, i);
    OneMoreCounted(before, after, found[i],
                   Succeeds(cfg, w, k, found[i], pullFails(found[i]), storeFails(found[i])));
    OneMoreCounted(Errors(cfg, w, k, found[..i], pullFails, storeFails),
                   Errors(cfg, w, k, found[..i + 1], pullFails, storeFails), found[i],
                   Errs(cfg, w, k, found[i], pullFails(found[i]), storeFails(found[i])));
  }

  lemma OneMoreFound(found: seq<nat>, i: nat)
    requires i < |found|
    ensures forall id :: id in found[..i + 1] <==> id in found[..i] || id == found[i]
  {
    assert found[..i + 1] == found[..i] + [found[i]];
  }

  lemma OneMoreCounted(before: set<nat>, after: set<nat>, id: nat, counts: bool)
    requires id !in before && forall x :: x in after <==> x in before || (x == id && counts)
    ensures |after| == |before| + if counts then 1 else 0
  {
    assert after == before + if counts then {id} else {};
  }
}
