/** Creation of snapshots when a document is saved, and their restoration, as functions on the
    document store and the event log of the workflow instance. */
module Snapshots {
  import opened Order
  import opened Items
  import opened Ids
  import opened EventLog
  import opened VersionNames

  const TYPE_PREFIX := "snapshot-"
  const NOSNAPSHOT := "$nosnapshot"
  const SKIPSNAPSHOT := "$skipsnapshot"
  const OVERWRITE := "$snapshot.overwriteFileContent"
  const LASTEVENTDATE := "$lasteventdate"
  const EDITOR := "$editor"
  const CREATOR := "$creator"
  const NAMCREATOR := "namcreator"
  const SIZE := "size"
  const TXTNAME := "txtname"
  const NOINDEX := "$noindex"
  const IMMUTABLE := "$immutable"
  const VERSION := "$version"

  /** The checksum, the format of time stamps, and the configuration of the service. */
  datatype Settings = Settings(
    md5: Bytes -> string, stamp: int -> string,
    overwriteFileContent: bool, history: nat, allowWorkitemLob: bool, archive: bool, backup: bool)

  /** What one save reads from outside: the user, the clock wherever it is read, and the
      snapshots whose removal is denied. */
  datatype Context = Context(user: string, eventTime: int, idTime: nat, versionTime: int, denied: set<string>)

  datatype Store = Store(documents: map<string, ItemCollection>, log: seq<Event>)
  {
    function Load(id: string): Option<ItemCollection> { if id in documents then Some(documents[id]) else None }
  }

  // ---- file attributes ----

  function EventDate(items: Attributes, ctx: Context): int {
    var date := GetDate(items, LASTEVENTDATE);
    if date.Some? then date.value else ctx.eventTime
  }

  /** Content of more than one byte is labelled with its checksum and the date of the event. */
  function LabelFile(cfg: Settings, f: FileData, date: int, user: string): (r: FileData)
    ensures r.name == f.name && r.content == f.content && r.contentType == f.contentType
  {
    if |f.content| <= 1 then f else
    var previous, sum := f.Md5Attribute(), cfg.md5(f.content);
    var a := f.attributes[MD5_CHECKSUM := [Text(sum)]][SIZE := [Number(|f.content|)]][TXTNAME := [Text(f.name)]];
    f.(attributes :=
         if previous != "" && previous != sum
         then a[MODIFIED := [Date(date)]][EDITOR := [Text(user)]]
         else a[CREATED := [Date(date)]][CREATOR := [Text(user)]][NAMCREATOR := [Text(user)]])
  }

  function LabelFiles(cfg: Settings, files: seq<FileData>, date: int, user: string): (r: seq<FileData>)
    ensures |r| == |files| && forall i :: 0 <= i < |files| ==> r[i] == LabelFile(cfg, files[i], date, user)
    ensures UniqueNames(files) ==> UniqueNames(r)
  {
    seq(|files|, i requires 0 <= i < |files| => LabelFile(cfg, files[i], date, user))
  }

  function FileDate(f: FileData): Option<int> {
    var modified := GetDate(f.attributes, MODIFIED);
    if modified.Some? then modified else GetDate(f.attributes, CREATED)
  }

  // ---- contents taken over from the last snapshot ----

  /** The old content is kept aside because the uploaded file has another checksum. */
  predicate Protects(cfg: Settings, f: FileData, prior: FileData, overwriteList: seq<Value>) {
    && f.content != []
    && !cfg.overwriteFileContent && Text(f.name) !in overwriteList
    && f.Md5Attribute() != prior.Md5Attribute()
  }

  function StampDate(prior: FileData, now: int): int {
    if FileDate(prior).Some? then FileDate(prior).value else now
  }

  /** The file under which the old content is kept. */
  function VersionFile(cfg: Settings, name: string, prior: FileData, now: int): FileData {
    var protectedName := VersionName(name, cfg.stamp(StampDate(prior, now)));
    FileData(protectedName, prior.content, prior.contentType, prior.attributes[TXTNAME := [Text(protectedName)]])
  }

  datatype Copied = Copied(target: seq<FileData>, origin: seq<FileData>)

  function CopyFile(cfg: Settings, source: seq<FileData>, c: Copied, f: FileData, overwriteList: seq<Value>,
          now: int): Copied {
    match FindFile(source, f.name)
    case None => c
    case Some(prior) =>
      if f.content == [] then c.(target := AddFile(c.target, f.(content := prior.content)))
      else if Protects(cfg, f, prior, overwriteList) then
        var version := VersionFile(cfg, f.name, prior, now);
        Copied(AddFile(c.target, version), AddFile(c.origin, version.Stripped()))
      else c
  }

  function CopyFiles(cfg: Settings, source: seq<FileData>, c: Copied, files: seq<FileData>, overwriteList: seq<Value>,
          now: int): Copied
    decreases |files|
  {
    if files == [] then c
    else CopyFiles(cfg, source, CopyFile(cfg, source, c, files[0], overwriteList, now), files[1..], overwriteList, now)
  }

  function ItemValues(items: Attributes, name: string): seq<Value> { if name in items then items[name] else [] }

  /** The files of the new snapshot and of the origin document, given the last snapshot's files. */
  function TakeOver(cfg: Settings, last: Option<ItemCollection>, labelled: ItemCollection, now: int): Copied {
    var c := Copied(labelled.files, labelled.files);
    if last.None? then c
    else CopyFiles(cfg, last.value.files, c, labelled.files, ItemValues(labelled.items, OVERWRITE), now)
  }

  // ---- saving a document ----

  datatype SaveResult = Rejected | Accepted(store: Store, document: ItemCollection)

  function Label(cfg: Settings, doc: ItemCollection, ctx: Context): ItemCollection {
    doc.(files := LabelFiles(cfg, doc.files, EventDate(doc.items, ctx), ctx.user))
  }

  function LastSnapshot(store: Store, doc: ItemCollection): Option<ItemCollection> {
    store.Load(GetString(doc.items, SNAPSHOTID))
  }

  function NewSnapshotID(doc: ItemCollection, ctx: Context): string { MakeSnapshotID(doc.UniqueId(), ctx.idTime) }

  function NewSnapshot(cfg: Settings, store: Store, doc: ItemCollection, ctx: Context): ItemCollection {
    var labelled := Label(cfg, doc, ctx);
    ItemCollection(labelled.items, TakeOver(cfg, LastSnapshot(store, doc), labelled, ctx.versionTime).target)
      .Set(UNIQUEID, Text(NewSnapshotID(doc, ctx)))
      .Set(TYPE, Text(TYPE_PREFIX + GetString(doc.items, TYPE)))
      .Set(NOINDEX, Flag(true)).Set(IMMUTABLE, Flag(true))
  }

  function NewOrigin(cfg: Settings, store: Store, doc: ItemCollection, ctx: Context): ItemCollection {
    var labelled, last := Label(cfg, doc, ctx), LastSnapshot(store, doc);
    var copied := labelled.(files := TakeOver(cfg, last, labelled, ctx.versionTime).origin);
    (if last.Some? then copied.Set(OVERWRITE, Text(""))
        else copied).Stripped().Set(SNAPSHOTID, Text(NewSnapshotID(doc, ctx)))
  }

  /** The ids strictly between the workitem's id with a dash and the given snapshot id. */
  function Older(documents: map<string, ItemCollection>, snapshotId: string): set<string> {
    var prefix := QueryPrefix(snapshotId);
    set id | id in documents && StrLeq(prefix, id) && id != prefix && StrLeq(id, snapshotId) && id != snapshotId
  }

  function QueryPrefix(snapshotId: string): string {
    var origin := GetUniqueID(snapshotId);
    (if origin.Some? then origin.value else "") + "-"
  }

  function HistoryVictims(documents: map<string, ItemCollection>, snapshotId: string, history: nat): seq<string> {
    var ids := SortedStrings(Older(documents, snapshotId));
    if history == 0 || |ids| < history then [] else ids[..|ids| - history + 1]
  }

  function CleanHistory(documents: map<string, ItemCollection>, snapshotId: string, history: nat,
          denied: set<string>): map<string, ItemCollection> {
    documents - (set id | id in HistoryVictims(documents, snapshotId, history) && id !in denied)
  }

  function SnapshotEvents(cfg: Settings, snapshotId: string): seq<Event> {
    if cfg.archive then [Event(TOPIC_ADD, snapshotId)]
    else if cfg.backup then [Event(TOPIC_BACKUP, snapshotId)] else []
  }

  function TakeSnapshot(cfg: Settings, store: Store, doc: ItemCollection, ctx: Context): SaveResult {
    var id := NewSnapshotID(doc, ctx);
    var stored := store.documents[id := NewSnapshot(cfg, store, doc, ctx)];
    Accepted(Store(CleanHistory(stored, id, cfg.history, ctx.denied), store.log + SnapshotEvents(cfg, id)),
             NewOrigin(cfg, store, doc, ctx))
  }

  predicate TakesSnapshot(doc: ItemCollection) {
    var t := GetString(doc.items, TYPE);
    !(TYPE_PREFIX <= t) && t != "model" && t != "workitemlob"
    && !GetBoolean(doc.items, NOSNAPSHOT) && !GetBoolean(doc.items, SKIPSNAPSHOT)
  }

  function OnSave(cfg: Settings, store: Store, doc: ItemCollection, ctx: Context): SaveResult {
    var t := GetString(doc.items, TYPE);
    if TYPE_PREFIX <= t || t == "model" || GetBoolean(doc.items, NOSNAPSHOT) then Accepted(store, doc)
    else if GetBoolean(doc.items, SKIPSNAPSHOT) then Accepted(store, doc.Remove(SKIPSNAPSHOT))
    else if t == "workitemlob" then if cfg.allowWorkitemLob then Accepted(store, doc) else Rejected
    else TakeSnapshot(cfg, store, doc, ctx)
  }

  /** The document service notifies the snapshot service and then stores the document. */
  function Save(cfg: Settings, store: Store, doc: ItemCollection, ctx: Context): Store {
    match OnSave(cfg, store, doc, ctx)
    case Rejected => store
    case Accepted(s, d) => s.(documents := s.documents[d.UniqueId() := d])
  }

  // ---- restoring a snapshot ----

  /** The origin document rebuilt from a snapshot. */
  function RestoredOrigin(snapshot: ItemCollection, originId: string): ItemCollection {
    var t := GetString(snapshot.items, TYPE);
    var d := snapshot.Set(UNIQUEID, Text(originId)).Remove(NOINDEX).Remove(IMMUTABLE).Remove(VERSION).Stripped();
    (if TYPE_PREFIX <= t then d.Set(TYPE, Text(t[|TYPE_PREFIX|..])) else d)
      .Set(SKIPSNAPSHOT, Flag(true)).Set(SNAPSHOTID, Text(snapshot.UniqueId())).Remove(BACKUPRESTORE)
  }

  /** The origin document is rebuilt from the snapshot and saved. */
  function RebuildOrigin(cfg: Settings, store: Store, snapshot: ItemCollection, ctx: Context): Store {
    match GetUniqueID(snapshot.UniqueId())
    case None => store
    case Some(originId) =>
      var s := Save(cfg, store, RestoredOrigin(snapshot, originId), ctx);
      if cfg.archive then s.(log := s.log + [Event(TOPIC_ADD, snapshot.UniqueId())]) else s
  }

  /** A posted snapshot is saved if it is missing, then its origin document is rebuilt. */
  function PostSnapshot(cfg: Settings, store: Store, snapshot: ItemCollection, ctx: Context): Store {
    if snapshot.UniqueId() in store.documents then RebuildOrigin(cfg, store, snapshot, ctx)
    else match OnSave(cfg, store, snapshot, ctx)
         case Rejected => store
         case Accepted(s, d) => RebuildOrigin(cfg, s.(documents := s.documents[d.UniqueId() := d]), d, ctx)
  }
}
