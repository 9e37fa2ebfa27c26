/** Runs of edits and saves of one document in the document store. */
module WorkitemRuns {
  import opened Order
  import opened Items
  import opened Ids
  import opened VersionNames
  import opened Snapshots
  import opened SnapshotRuns
  import opened SnapshotSafety

  function CurrentId(store: Store, uid: string): string {
    if uid in store.documents then GetString(store.documents[uid].items, SNAPSHOTID) else ""
  }

  /** The files of the snapshot the document refers to. */
  function CurrentFiles(store: Store, uid: string): seq<FileData> {
    var id := CurrentId(store, uid);
    if id in store.documents then store.documents[id].files else []
  }

  /** One round: the store as it is found, the edited document, and what the save reads from outside. */
  datatype Round = Round(env: Store, doc: ItemCollection, ctx: Context)
  {
    function Edit(): Change {
      Change(doc.files, EventDate(doc.items, ctx), ctx.versionTime, ctx.user, ItemValues(doc.items, OVERWRITE))
    }
  }

  /** A run: its rounds and the stores before the first and after every round. */
  datatype Run = Run(rounds: seq<Round>, stores: seq<Store>)

  /** Between two saves anything may happen to the store except to the document's current snapshot;
      the edited document still refers to it. */
  ghost predicate Continues(store: Store, uid: string, r: Round) {
    && r.doc.UniqueId() == uid && TakesSnapshot(r.doc) && r.doc.WellFormed()
    && GetString(r.doc.items, SNAPSHOTID) == CurrentId(store, uid)
    && r.env.Load(CurrentId(store, uid)) == store.Load(CurrentId(store, uid))
  }

  ghost predicate ContinuesAt(cfg: Settings, uid: string, run: Run, k: nat)
    requires |run.stores| == |run.rounds| + 1 && k < |run.rounds|
  {
    && Continues(run.stores[k], uid, run.rounds[k])
    && run.stores[k + 1] == Save(cfg, run.rounds[k].env, run.rounds[k].doc, run.rounds[k].ctx)
  }

  /** Any run of edits and saves. */
  ghost predicate IsRun(cfg: Settings, uid: string, run: Run) {
    |run.stores| == |run.rounds| + 1 && forall k: nat :: k < |run.rounds| ==> ContinuesAt(cfg, uid, run, k)
  }

  /** The edit of the round is a permitted one. */
  ghost predicate RoundOk(cfg: Settings, pool: iset<Bytes>, store: Store, uid: string, r: Round) {
    Continues(store, uid, r) && Permitted(cfg, pool, CurrentFiles(store, uid), r.Edit())
  }

  ghost predicate StepAt(cfg: Settings, pool: iset<Bytes>, uid: string, run: Run, k: nat)
    requires |run.stores| == |run.rounds| + 1 && k < |run.rounds|
  {
    ContinuesAt(cfg, uid, run, k) && RoundOk(cfg, pool, run.stores[k], uid, run.rounds[k])
  }

  ghost predicate InvAt(cfg: Settings, pool: iset<Bytes>, uid: string, run: Run, k: nat)
    requires k < |run.stores|
  {
    Inv(cfg, pool, CurrentFiles(run.stores[k], uid))
  }

  ghost predicate GoodRun(cfg: Settings, pool: iset<Bytes>, uid: string, run: Run) {
    && |run.stores| == |run.rounds| + 1
    && Sound(cfg, pool) && InvAt(cfg, pool, uid, run, 0)
    && forall k: nat :: k < |run.rounds| ==> StepAt(cfg, pool, uid, run, k)
  }

  lemma {:induction false} NoSourceNoVersions(cfg: Settings, files: seq<FileData>, list: seq<Value>, now: int)
    ensures FillAll([], files) == files && Versions(cfg, [], files, list, now) == []
  {
    if files != [] { NoSourceNoVersions(cfg, files[..|files| - 1], list, now); }
  }

  /** A save that takes a snapshot leaves the origin and the snapshot in the store. */
  lemma SavedDocuments(cfg: Settings, env: Store, doc: ItemCollection, ctx: Context)
    requires TakesSnapshot(doc)
    ensures var after, id := Save(cfg, env, doc, ctx), NewSnapshotID(doc, ctx);
            && doc.UniqueId() in after.documents && after.documents[doc.UniqueId()] == NewOrigin(cfg, env, doc, ctx)
            && id in after.documents && after.documents[id] == NewSnapshot(cfg, env, doc, ctx)
            && doc.UniqueId() != id
  {
    var id := NewSnapshotID(doc, ctx);
    assert |id| > |doc.UniqueId()|;
    OriginItems(cfg, env, doc, ctx);
    CleanKeepsNewest(env.documents[id := NewSnapshot(cfg, env, doc, ctx)], id, cfg.history, ctx.denied);
  }

  lemma CleanKeepsNewest(documents: map<string, ItemCollection>, id: string, history: nat, denied: set<string>)
    requires id in documents
    ensures id in CleanHistory(documents, id, history, denied)
    ensures CleanHistory(documents, id, history, denied)[id] == documents[id]
  {
    var victims := HistoryVictims(documents, id, history);
    SortedStringsEnumerate(Older(documents, id));
    assert forall v :: v in victims ==> v in SortedStrings(Older(documents, id));
  }

  lemma OriginItems(cfg: Settings, env: Store, doc: ItemCollection, ctx: Context)
    ensures NewOrigin(cfg, env, doc, ctx).UniqueId() == doc.UniqueId()
    ensures GetString(NewOrigin(cfg, env, doc, ctx).items, SNAPSHOTID) == NewSnapshotID(doc, ctx)
  {
  }

  function SnapshotFiles(snapshot: Option<ItemCollection>): seq<FileData> {
    if snapshot.Some? then snapshot.value.files else []
  }

  /** The two file lists of a save in which no version name is taken. */
  lemma TakeOverClosed(cfg: Settings, snapshot: Option<ItemCollection>, labelled: ItemCollection, now: int)
    requires NoClash(cfg, SnapshotFiles(snapshot), labelled.files, ItemValues(labelled.items, OVERWRITE), now)
    ensures var source, list := SnapshotFiles(snapshot), ItemValues(labelled.items, OVERWRITE);
            var c := TakeOver(cfg, snapshot, labelled, now);
            && c.target == FillAll(source, labelled.files) + Versions(cfg, source, labelled.files, list, now)
            && StripFiles(c.origin) == StripFiles(c.target)
  {
    var source, list := SnapshotFiles(snapshot), ItemValues(labelled.items, OVERWRITE);
    if snapshot.None? {
      NoSourceNoVersions(cfg, labelled.files, list, now);
    } else {
      CopyClosedForm(cfg, source, labelled.files, list, now);
      StripsAgree(source, labelled.files, Versions(cfg, source, labelled.files, list, now));
    }
  }

  /** The two file lists of a save, given that the last snapshot satisfies the invariant. */
  lemma TakeOverIsNext(cfg: Settings, pool: iset<Bytes>, source: seq<FileData>, ch: Change,
                       snapshot: Option<ItemCollection>, labelled: ItemCollection)
    requires Allowed(cfg, pool, source, ch)
    requires labelled.files == ch.Labelled(cfg) && ItemValues(labelled.items, OVERWRITE) == ch.list
    requires source == SnapshotFiles(snapshot)
    ensures var c := TakeOver(cfg, snapshot, labelled, ch.v);
            c.target == Next(cfg, source, ch) && StripFiles(c.origin) == StripFiles(c.target)
  {
    SaveHasNoClash(cfg, pool, source, ch);
    TakeOverClosed(cfg, snapshot, labelled, ch.v);
  }

  lemma StripsAgree(source: seq<FileData>, files: seq<FileData>, v: seq<FileData>)
    ensures StripFiles(files + StripFiles(v)) == StripFiles(FillAll(source, files) + v)
  {
  }

  /** What one save leaves behind: the origin without bytes refers to the new snapshot, which is
      in the store and holds the files computed by Next. */
  lemma RoundEffect(cfg: Settings, pool: iset<Bytes>, store: Store, uid: string, r: Round)
    requires Sound(cfg, pool) && Inv(cfg, pool, CurrentFiles(store, uid))
    requires RoundOk(cfg, pool, store, uid, r)
    ensures var after, id := Save(cfg, r.env, r.doc, r.ctx), NewSnapshotID(r.doc, r.ctx);
            && uid in after.documents && id in after.documents && CurrentId(after, uid) == id
            && CurrentFiles(after, uid) == Next(cfg, CurrentFiles(store, uid), r.Edit())
            && after.documents[uid].files == StripFiles(CurrentFiles(after, uid))
  {
    SavedDocuments(cfg, r.env, r.doc, r.ctx);
    OriginItems(cfg, r.env, r.doc, r.ctx);
    var source, snapshot, labelled := CurrentFiles(store, uid), LastSnapshot(r.env, r.doc), Label(cfg, r.doc, r.ctx);
    assert source == SnapshotFiles(snapshot);
    TakeOverIsNext(cfg, pool, source, r.Edit(), snapshot, labelled);
    SavedFiles(cfg, r.env, r.doc, r.ctx);
  }

  lemma SavedFiles(cfg: Settings, env: Store, doc: ItemCollection, ctx: Context)
    ensures var c := TakeOver(cfg, LastSnapshot(env, doc), Label(cfg, doc, ctx), ctx.versionTime);
            && NewSnapshot(cfg, env, doc, ctx).files == c.target
            && NewOrigin(cfg, env, doc, ctx).files == StripFiles(c.origin)
  {
  }

  /** Round `k` of a run as an allowed change of the current snapshot's files. */
  ghost predicate EffectAt(cfg: Settings, pool: iset<Bytes>, uid: string, run: Run, k: nat)
    requires |run.stores| == |run.rounds| + 1 && k < |run.rounds|
  {
    var source, ch, after := CurrentFiles(run.stores[k], uid), run.rounds[k].Edit(), run.stores[k + 1];
    && Allowed(cfg, pool, source, ch)
    && CurrentFiles(after, uid) == Next(cfg, source, ch) && Inv(cfg, pool, CurrentFiles(after, uid))
    && uid in after.documents && CurrentId(after, uid) in after.documents
    && after.documents[uid].files == StripFiles(CurrentFiles(after, uid))
  }

  lemma StepEffect(cfg: Settings, pool: iset<Bytes>, uid: string, run: Run, k: nat)
    requires |run.stores| == |run.rounds| + 1 && k < |run.rounds| && Sound(cfg, pool)
    requires StepAt(cfg, pool, uid, run, k) && InvAt(cfg, pool, uid, run, k)
    ensures EffectAt(cfg, pool, uid, run, k) && InvAt(cfg, pool, uid, run, k + 1)
  {
    RoundEffect(cfg, pool, run.stores[k], uid, run.rounds[k]);
    SaveKeepsInv(cfg, pool, CurrentFiles(run.stores[k], uid), run.rounds[k].Edit());
  }

  lemma {:induction false} InvAfter(cfg: Settings, pool: iset<Bytes>, uid: string, run: Run, k: nat)
    requires GoodRun(cfg, pool, uid, run) && k <= |run.rounds|
    ensures InvAt(cfg, pool, uid, run, k)
  {
    if k > 0 {
      InvAfter(cfg, pool, uid, run, k - 1);
      InvStep(cfg, pool, uid, run, k - 1);
    }
  }

  lemma InvStep(cfg: Settings, pool: iset<Bytes>, uid: string, run: Run, k: nat)
    requires GoodRun(cfg, pool, uid, run) && k < |run.rounds| && InvAt(cfg, pool, uid, run, k)
    ensures InvAt(cfg, pool, uid, run, k + 1)
  {
    assert StepAt(cfg, pool, uid, run, k);
    StepEffect(cfg, pool, uid, run, k);
  }

  ghost predicate ReadableAt(cfg: Settings, uid: string, run: Run, k: nat, n: string, c: Bytes)
    requires k < |run.stores|
  {
    Readable(cfg, CurrentFiles(run.stores[k], uid), n, c)
  }

  /** Round `k` removes no file, overwrites none by intent, and replaces no longer content by a single byte
      without notice. */
  ghost predicate KeepsAllAt(cfg: Settings, uid: string, run: Run, k: nat)
    requires k < |run.rounds| && k < |run.stores|
  {
    && OverwritingOff(cfg, run.rounds[k].Edit())
    && NothingRemoved(CurrentFiles(run.stores[k], uid), run.rounds[k].doc.files)
  }

  /** Over any run with overwriting off, every content of more than one byte that was ever uploaded
      under a name can still be read from the current snapshot, under that name or under one of
      its time-stamped version names, as long as no later round removes a file. */
  lemma {:induction false} NothingIsLost(cfg: Settings, pool: iset<Bytes>, uid: string, run: Run, i: nat, k: nat,
          f: FileData)
    requires GoodRun(cfg, pool, uid, run) && i < k <= |run.rounds|
    requires forall j: nat :: i < j < k ==> KeepsAllAt(cfg, uid, run, j)
    requires f in run.rounds[i].doc.files && |f.content| > 1
    ensures ReadableAt(cfg, uid, run, k, f.name, f.content)
  {
    if i == k - 1 {
      UploadedInRun(cfg, pool, uid, run, i, f);
    } else {
      NothingIsLost(cfg, pool, uid, run, i, k - 1, f);
      UploadsArePlain(cfg, pool, uid, run, i, f);
      assert KeepsAllAt(cfg, uid, run, k - 1);
      KeptInRun(cfg, pool, uid, run, k - 1, f.name, f.content);
    }
  }

  lemma UploadedInRun(cfg: Settings, pool: iset<Bytes>, uid: string, run: Run, k: nat, f: FileData)
    requires GoodRun(cfg, pool, uid, run) && k < |run.rounds| && f in run.rounds[k].doc.files && f.content != []
    ensures ReadableAt(cfg, uid, run, k + 1, f.name, f.content)
  {
    EffectOfRun(cfg, pool, uid, run, k);
    UploadedByStep(cfg, pool, uid, run, k, f);
  }

  lemma KeptInRun(cfg: Settings, pool: iset<Bytes>, uid: string, run: Run, k: nat, n: string, c: Bytes)
    requires GoodRun(cfg, pool, uid, run) && k < |run.rounds| && KeepsAllAt(cfg, uid, run, k)
    requires |c| > 1 && !IsVersion(cfg, n) && ReadableAt(cfg, uid, run, k, n, c)
    ensures ReadableAt(cfg, uid, run, k + 1, n, c)
  {
    EffectOfRun(cfg, pool, uid, run, k);
    KeptByStep(cfg, pool, uid, run, k, n, c);
  }

  lemma EffectOfRun(cfg: Settings, pool: iset<Bytes>, uid: string, run: Run, k: nat)
    requires GoodRun(cfg, pool, uid, run) && k < |run.rounds|
    ensures EffectAt(cfg, pool, uid, run, k)
  {
    InvAfter(cfg, pool, uid, run, k);
    assert StepAt(cfg, pool, uid, run, k);
    StepEffect(cfg, pool, uid, run, k);
  }

  lemma UploadedByStep(cfg: Settings, pool: iset<Bytes>, uid: string, run: Run, k: nat, f: FileData)
    requires |run.stores| == |run.rounds| + 1 && k < |run.rounds| && EffectAt(cfg, pool, uid, run, k)
    requires f in run.rounds[k].doc.files && f.content != []
    ensures Readable(cfg, CurrentFiles(run.stores[k + 1], uid), f.name, f.content)
  {
    UploadReadable(cfg, CurrentFiles(run.stores[k], uid), run.rounds[k].Edit(), f);
  }

  lemma KeptByStep(cfg: Settings, pool: iset<Bytes>, uid: string, run: Run, k: nat, n: string, c: Bytes)
    requires |run.stores| == |run.rounds| + 1 && k < |run.rounds| && EffectAt(cfg, pool, uid, run, k)
    requires KeepsAllAt(cfg, uid, run, k) && |c| > 1 && !IsVersion(cfg, n)
    requires Readable(cfg, CurrentFiles(run.stores[k], uid), n, c)
    ensures Readable(cfg, CurrentFiles(run.stores[k + 1], uid), n, c)
  {
    SaveKeepsReadable(cfg, pool, CurrentFiles(run.stores[k], uid), run.rounds[k].Edit(), n, c);
  }

  lemma UploadsArePlain(cfg: Settings, pool: iset<Bytes>, uid: string, run: Run, i: nat, f: FileData)
    requires GoodRun(cfg, pool, uid, run) && i < |run.rounds|
    requires f in run.rounds[i].doc.files && f.content != []
    ensures !IsVersion(cfg, f.name)
  {
    assert StepAt(cfg, pool, uid, run, i);
    assert FileEdited(cfg, pool, CurrentFiles(run.stores[i], uid), run.rounds[i].Edit(), f);
  }

  /** The bytes under a name after an edit, given those before: none if the file is not attached, else those
      uploaded with it, else those it had. */
  function Uploaded(edited: seq<FileData>, name: string, before: Option<Bytes>): Option<Bytes> {
    match FindFile(edited, name)
    case None => None
    case Some(f) => if f.content != [] then Some(f.content) else before
  }

  /** The bytes most recently uploaded under a name in the given rounds, since it was last attached. */
  function Latest(rounds: seq<Round>, name: string): Option<Bytes> {
    if rounds == [] then None
    else Uploaded(rounds[|rounds| - 1].doc.files, name, Latest(rounds[..|rounds| - 1], name))
  }

  /** The origin carries no bytes and refers to a snapshot in the store, which holds the given
      bytes under the name. */
  ghost predicate KeepsLatest(store: Store, uid: string, name: string, latest: Option<Bytes>) {
    && uid in store.documents && CurrentId(store, uid) in store.documents
    && (forall f :: f in store.documents[uid].files ==> f.content == [])
    && (latest.Some? ==>
          FindFile(CurrentFiles(store, uid), name).Some?
          && FindFile(CurrentFiles(store, uid), name).value.content == latest.value)
  }

  /** No version file can get the name. */
  ghost predicate NoVersionName(cfg: Settings, name: string) {
    forall fileName, d :: VersionName(fileName, cfg.stamp(d)) != name
  }

  /** Copying leaves under such a name the listed file with its bytes, or what was there before. */
  lemma {:induction false} CopiedFile(cfg: Settings, source: seq<FileData>, c: Copied, files: seq<FileData>,
          list: seq<Value>, now: int, name: string)
    requires UniqueNames(files) && NoVersionName(cfg, name)
    ensures var f := FindFile(files, name);
            FindFile(CopyFiles(cfg, source, c, files, list, now).target, name)
            == if f.Some? && f.value.content == [] && FindFile(source, name).Some? then Some(Fill(source, f.value))
               else FindFile(c.target, name)
    decreases |files|
  {
    if files != [] {
      CopiedFile(cfg, source, CopyFile(cfg, source, c, files[0], list, now), files[1..], list, now, name);
      HeadOrRest(files, name);
    }
  }

  lemma HeadOrRest(files: seq<FileData>, name: string)
    requires UniqueNames(files) && files != []
    ensures FindFile(files, name) == if files[0].name == name then Some(files[0]) else FindFile(files[1..], name)
    ensures files[0].name == name ==> FindFile(files[1..], name).None?
  {
  }

  /** The file of the new snapshot under a name: the edited one, with its bytes or those it had. */
  lemma SavedFile(cfg: Settings, env: Store, doc: ItemCollection, ctx: Context, name: string)
    requires doc.WellFormed() && NoVersionName(cfg, name) && FindFile(doc.files, name).Some?
    ensures var f, g := FindFile(NewSnapshot(cfg, env, doc, ctx).files, name), FindFile(doc.files, name).value;
            var before := FindFile(SnapshotFiles(LastSnapshot(env, doc)), name);
            && f.Some?
            && f.value.content == (if g.content != [] then g.content
                                   else if before.Some? then before.value.content else [])
  {
    var labelled, source := Label(cfg, doc, ctx), SnapshotFiles(LastSnapshot(env, doc));
    SavedFiles(cfg, env, doc, ctx);
    LabelledFile(cfg, doc, ctx, name);
    if LastSnapshot(env, doc).Some? {
      CopiedFile(cfg, source, Copied(labelled.files, labelled.files), labelled.files,
                 ItemValues(labelled.items, OVERWRITE), ctx.versionTime, name);
    }
  }

  lemma LabelledFile(cfg: Settings, doc: ItemCollection, ctx: Context, name: string)
    requires doc.WellFormed() && FindFile(doc.files, name).Some?
    ensures var f := FindFile(Label(cfg, doc, ctx).files, name);
            f.Some? && f.value.content == FindFile(doc.files, name).value.content
  {
    IndexUnique(Label(cfg, doc, ctx).files, name, IndexOf(doc.files, name));
  }

  lemma KeepsLatestStep(cfg: Settings, uid: string, store: Store, r: Round, name: string, before: Option<Bytes>)
    requires Continues(store, uid, r) && NoVersionName(cfg, name)
    requires before.Some? ==> KeepsLatest(store, uid, name, before)
    ensures KeepsLatest(Save(cfg, r.env, r.doc, r.ctx), uid, name, Uploaded(r.doc.files, name, before))
  {
    SavedDocuments(cfg, r.env, r.doc, r.ctx);
    OriginItems(cfg, r.env, r.doc, r.ctx);
    SavedFiles(cfg, r.env, r.doc, r.ctx);
    assert CurrentFiles(store, uid) == SnapshotFiles(LastSnapshot(r.env, r.doc));
    if FindFile(r.doc.files, name).Some? { SavedFile(cfg, r.env, r.doc, r.ctx, name); }
  }

  /** After every save of any run of edits and saves, whatever labels and dates files come with, whatever
      is removed, pruned or overwritten: the origin carries no bytes, it refers to a snapshot in the
      store, and that snapshot holds for every attached name that is no version name the bytes most
      recently uploaded. */
  lemma {:induction false} ContentChain(cfg: Settings, uid: string, run: Run, k: nat, name: string)
    requires IsRun(cfg, uid, run) && 0 < k <= |run.rounds| && NoVersionName(cfg, name)
    ensures KeepsLatest(run.stores[k], uid, name, Latest(run.rounds[..k], name))
  {
    assert run.rounds[..k][..k - 1] == run.rounds[..k - 1];
    if k > 1 { ContentChain(cfg, uid, run, k - 1, name); }
    assert ContinuesAt(cfg, uid, run, k - 1);
    KeepsLatestStep(cfg, uid, run.stores[k - 1], run.rounds[k - 1], name, Latest(run.rounds[..k - 1], name));
  }

  // ---- the limits of protection ----

  /** The previous bytes of `g` are in the list, under its name or the version name made for them. */
  ghost predicate Survives(cfg: Settings, files: seq<FileData>, g: FileData, v: int) {
    exists x :: x in files && x.content == g.content
                && (x.name == g.name || x.name == VersionFile(cfg, g.name, g, v).name)
  }

  /** The version name of `g` is used neither by an edited file nor for another protected file, and
      no other version takes the name of `g`. */
  ghost predicate VersionNameFree(cfg: Settings, source: seq<FileData>, ch: Change, g: FileData) {
    && (forall h :: h in ch.Labelled(cfg) ==> h.name != VersionFile(cfg, g.name, g, ch.v).name)
    && (forall h :: Guarded(cfg, source, ch, h) && h.name != g.name ==>
          && Kept(cfg, source, ch, h).name != g.name
          && Kept(cfg, source, ch, h).name != VersionFile(cfg, g.name, g, ch.v).name)
  }

  /** With overwriting off, saving an edit keeps the previous bytes of a file exactly when the edit
      brings no bytes, the same bytes, or bytes whose checksum attribute differs. */
  lemma OverwriteKeepsExactly(cfg: Settings, source: seq<FileData>, ch: Change, g: FileData, f: FileData)
    requires UniqueNames(source) && UniqueNames(ch.edited) && VersionNameFree(cfg, source, ch, g)
    requires !cfg.overwriteFileContent && Text(f.name) !in ch.list
    requires g in source && f in ch.Labelled(cfg) && f.name == g.name
    ensures Survives(cfg, Next(cfg, source, ch), g, ch.v)
            <==> f.content == [] || f.content == g.content || f.Md5Attribute() != g.Md5Attribute()
  {
    FindMember(source, g);
    NextMember(cfg, source, ch, Fill(source, f));
    if Guarded(cfg, source, ch, f) { NextMember(cfg, source, ch, Kept(cfg, source, ch, f)); }
    if !Guarded(cfg, source, ch, f) && Survives(cfg, Next(cfg, source, ch), g, ch.v) {
      var x :| x in Next(cfg, source, ch) && x.content == g.content
               && (x.name == g.name || x.name == VersionFile(cfg, g.name, g, ch.v).name);
      SurvivorIsFilled(cfg, source, ch, g, f, x);
    }
  }

  lemma SurvivorIsFilled(cfg: Settings, source: seq<FileData>, ch: Change, g: FileData, f: FileData, x: FileData)
    requires UniqueNames(ch.edited) && VersionNameFree(cfg, source, ch, g)
    requires f in ch.Labelled(cfg) && f.name == g.name && !Guarded(cfg, source, ch, f)
    requires x in Next(cfg, source, ch) && (x.name == g.name || x.name == VersionFile(cfg, g.name, g, ch.v).name)
    ensures x == Fill(source, f)
  {
    NextMember(cfg, source, ch, x);
    FindMember(ch.Labelled(cfg), f);
    forall h | h in ch.Labelled(cfg) && h.name == f.name ensures h == f { FindMember(ch.Labelled(cfg), h); }
    forall h | Guarded(cfg, source, ch, h) ensures x != Kept(cfg, source, ch, h) { assert h.name != g.name; }
  }

  /** A single byte uploaded with the old attributes overwrites a longer content without a version:
      the checksum attribute is not renewed, so the old content is gone. */
  lemma OneByteUploadLosesContent(cfg: Settings, c: Bytes, x: Byte, t: int, v: int)
    requires |c| > 1 && !cfg.overwriteFileContent
    ensures var attributes := map[MD5_CHECKSUM := [Text(cfg.md5(c))], CREATED := [Date(0)]];
            var source := [FileData("a.txt", c, "text/plain", attributes)];
            var ch := Change([FileData("a.txt", [x], "text/plain", attributes)], t, v, "", []);
            forall f :: f in Next(cfg, source, ch) ==> f.content != c
  {
    var attributes := map[MD5_CHECKSUM := [Text(cfg.md5(c))], CREATED := [Date(0)]];
    var g, f := FileData("a.txt", c, "text/plain", attributes), FileData("a.txt", [x], "text/plain", attributes);
    var ch := Change([f], t, v, "", []);
    var labelled := ch.Labelled(cfg);
    assert labelled == [f];
    FindUnique([g], 0);
    assert labelled[..0] == [];
    assert Versions(cfg, [g], labelled, [], v) == [];
    assert FillAll([g], labelled) == [f];
  }

  // ---- history in the document store ----

  /** For thirteen-digit creation times the text range of the history query holds exactly the earlier
      snapshots of the same document, among those of documents with equally long ids. */
  lemma OlderIsEarlier(documents: map<string, ItemCollection>, uid: string, t: nat, other: string, s: nat)
    requires Wide(t) && Wide(s) && |other| == |uid| && MakeSnapshotID(other, s) in documents
    ensures MakeSnapshotID(other, s) in Older(documents, MakeSnapshotID(uid, t)) <==> other == uid && s < t
  {
    var id := MakeSnapshotID(other, s);
    IdRoundTrip(uid, t);
    RangeIsTimeRange(uid, s, t);
    if id in Older(documents, MakeSnapshotID(uid, t)) { RangeStaysInWorkitem(id, uid, Decimal(t), other, s); }
  }

  /** A history of zero removes nothing. */
  lemma NoHistoryKeepsAll(cfg: Settings, store: Store, doc: ItemCollection, ctx: Context)
    requires TakesSnapshot(doc) && cfg.history == 0
    ensures store.documents.Keys <= Save(cfg, store, doc, ctx).documents.Keys
    ensures forall documents, id, denied :: CleanHistory(documents, id, 0, denied) == documents
  {
    forall documents, id, denied ensures CleanHistory(documents, id, 0, denied) == documents {
      assert HistoryVictims(documents, id, 0) == [];
    }
  }

  /** A snapshot whose removal is denied stays. */
  lemma DeniedStays(documents: map<string, ItemCollection>, snapshotId: string, h: nat, denied: set<string>, id: string)
    requires id in documents && id in denied
    ensures id in CleanHistory(documents, snapshotId, h, denied)
    ensures forall x :: x !in denied ==>
              (x in CleanHistory(documents, snapshotId, h, denied) <==> x in CleanHistory(documents, snapshotId, h, {}))
  {
  }

  /** If no removal is denied, exactly the `h` newest snapshots of the document remain, the new one
      included; whatever is removed is older than whatever remains, and nothing else is touched. */
  lemma LocalHistory(documents: map<string, ItemCollection>, snapshotId: string, h: nat)
    requires h > 0 && snapshotId in documents
    ensures var after := CleanHistory(documents, snapshotId, h, {});
            && snapshotId in after
            && |Older(after, snapshotId)| ==
                 (if |Older(documents, snapshotId)| < h then |Older(documents, snapshotId)| else h - 1)
            && (forall id :: id in documents && id !in Older(documents, snapshotId) ==> id in after)
            && (forall id :: id in after ==> id in documents && after[id] == documents[id])
            && (forall a, b :: a in documents && a !in after && b in Older(after, snapshotId) ==>
                  StrLeq(a, b) && a != b)
  {
    var all := Older(documents, snapshotId);
    SortedStringsEnumerate(all);
    var k := if |all| < h then 0 else |all| - h + 1;
    assert HistoryVictims(documents, snapshotId, h) == SortedStrings(all)[..k];
    OldestRemoved(documents, CleanHistory(documents, snapshotId, h, {}), snapshotId, SortedStrings(all), k);
  }

  lemma OldestRemoved(documents: map<string, ItemCollection>, after: map<string, ItemCollection>, snapshotId: string,
          ids: seq<string>, k: nat)
    requires Enumerates(ids, Older(documents, snapshotId), StrLeq) && k <= |ids|
    requires after == documents - (set id | id in ids[..k] && id !in {})
    ensures Older(after, snapshotId) <= Older(documents, snapshotId) && |Older(after, snapshotId)| == |ids| - k
    ensures forall id :: id in documents && id !in Older(documents, snapshotId) ==> id in after
    ensures forall id :: id in after ==> id in documents && after[id] == documents[id]
    ensures forall a, b :: a in documents && a !in after && b in Older(after, snapshotId) ==> StrLeq(a, b) && a != b
  {
    var gone := set id | id in ids[..k];
    DistinctCount(ids[..k]);
    assert forall id :: id in ids[..k] ==> id in ids;
    assert after == documents - gone;
    assert Older(after, snapshotId) == Older(documents, snapshotId) - gone;
    forall a, b | a in documents && a !in after && b in Older(after, snapshotId) ensures StrLeq(a, b) && a != b {
      PrefixBelow(ids, k, a, b, StrLeq);
    }
  }
}
