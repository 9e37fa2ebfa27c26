/** The six tables of the archive as one value, and what each archive operation does to them. */
module ArchiveTables {
  import opened Order
  import opened Items
  import opened Ids
  import opened Splitter

  datatype Tables = Tables(
    snapshots: map<string, ItemCollection>,     // snapshot -> data
    byUniqueId: set<(string, string)>,          // (uniqueid, snapshot)
    byModified: set<(int, string)>,             // (day, snapshot)
    byDocument: set<(string, string)>,          // (md5, snapshot)
    documents: map<string, map<int, string>>,   // md5 -> sort_id -> data_id; a partition without rows is absent
    documentsData: map<string, Bytes>,          // data_id -> data
    issued: nat                                 // number of data ids handed out by the id generator
  )

  const EMPTY_TABLES := Tables(map[], {}, {}, {}, map[], map[], 0)

  /** The checksum and the generator of unique ids (its n-th id). */
  datatype Config = Config(md5: Bytes -> string, newId: nat -> string)

  const METADATA := "0"
  const HISTORY := "$snapshot.history"
  const DAY_MILLIS := 86_400_000
  const CLEANUP_LIMIT: nat := 100

  function Day(millis: int): int { millis / 86_400_000 }

  function Modified(s: ItemCollection): Option<int> { GetDate(s.items, MODIFIED) }

  /** The text an optional id is given in a query. */
  function QueryText(id: Option<string>): string { if id.Some? then id.value else "null" }

  // ---- documents ----

  predicate HasRows(t: Tables, md5: string) { md5 in t.documents }

  function SortIds(partition: map<int, string>): seq<int> {
    IntOrder();
    Sorted(partition.Keys, IntLeq)
  }

  lemma SortIdsEnumerate(partition: map<int, string>)
    ensures Enumerates(SortIds(partition), partition.Keys, IntLeq)
  {
    IntOrder();
    SortedEnumerates(partition.Keys, IntLeq);
  }

  /** The bytes behind directory rows, read in the given order; a missing data row is skipped. */
  function Gather(partition: map<int, string>, data: map<string, Bytes>, sortIds: seq<int>): Bytes {
    if sortIds == [] then [] else
    var j := sortIds[|sortIds| - 1];
    Gather(partition, data, sortIds[..|sortIds| - 1])
    + if j in partition && partition[j] in data then data[partition[j]] else []
  }

  function Content(t: Tables, md5: string): Bytes {
    if HasRows(t, md5) then Gather(t.documents[md5], t.documentsData, SortIds(t.documents[md5])) else []
  }

  function Partition(t: Tables, md5: string): map<int, string> {
    if HasRows(t, md5) then t.documents[md5] else map[]
  }

  function DataIds(partition: map<int, string>): set<string> { set j | j in partition :: partition[j] }

  /** Directory rows for `n` blocks: consecutive sort ids, each with the next generated id. */
  function NewRows(cfg: Config, issued: nat, n: nat): map<int, string> {
    if n == 0 then map[] else NewRows(cfg, issued, n - 1)[n - 1 := cfg.newId(issued + n - 1)]
  }

  /** The data rows after writing the blocks. */
  function NewData(cfg: Config, data: map<string, Bytes>, issued: nat, blocks: seq<Bytes>): map<string, Bytes> {
    if blocks == [] then data else
    var n := |blocks| - 1;
    NewData(cfg, data, issued, blocks[..n])[cfg.newId(issued + n) := blocks[n]]
  }

  function StoreBlocks(cfg: Config, t: Tables, md5: string, blocks: seq<Bytes>): Tables {
    if blocks == [] then t else
    t.(documents := t.documents[md5 := Partition(t, md5) + NewRows(cfg, t.issued, |blocks|)],
       documentsData := NewData(cfg, t.documentsData, t.issued, blocks),
       issued := t.issued + |blocks|)
  }

  function StoreDocument(cfg: Config, t: Tables, md5: string, content: Bytes): Tables {
    StoreBlocks(cfg, t, md5, Chunks(content))
  }

  function DropDocument(t: Tables, md5: string): Tables {
    t.(documents := t.documents - {md5},
       documentsData := t.documentsData - DataIds(Partition(t, md5)))
  }

  // ---- saving ----

  function ExtractFile(cfg: Config, t: Tables, f: FileData, id: string): Tables {
    if f.content == [] then t else
    var md5 := cfg.md5(f.content);
    var t1 := if HasRows(t, md5) then t else StoreDocument(cfg, t, md5, f.content);
    t1.(byDocument := t1.byDocument + {(md5, id)})
  }

  function Extract(cfg: Config, t: Tables, files: seq<FileData>, id: string): Tables
    decreases |files|
  {
    if files == [] then t else Extract(cfg, ExtractFile(cfg, t, files[0], id), files[1..], id)
  }

  datatype SaveStatus = Saved | AlreadyStored | InvalidDocument | Aborted

  predicate Accepts(t: Tables, s: ItemCollection) {
    IsSnapshotID(s.UniqueId()) && MODIFIED in s.items && s.UniqueId() !in t.snapshots
  }

  /** The rows written for the snapshot itself, before the history is cleaned up. */
  function Insert(cfg: Config, t: Tables, s: ItemCollection): Tables {
    var id := s.UniqueId();
    var t1 := Extract(cfg, t, s.files, id);
    var t2 := t1.(snapshots := t1.snapshots[id := s.Stripped()],
                  byUniqueId := t1.byUniqueId + {(QueryText(GetUniqueID(id)), id)});
    match Modified(s)
    case None => t2
    case Some(ms) => t2.(byModified := t2.byModified + {(Day(ms), id)})
  }

  function SaveSnapshot(cfg: Config, t: Tables, s: ItemCollection): Tables {
    if !Accepts(t, s) then t
    else if Modified(s).None? then Insert(cfg, t, s)
    else Cleanup(cfg, Insert(cfg, t, s), s)
  }

  // ---- loading ----

  function MergeFile(t: Tables, f: FileData): FileData {
    if f.content == [] && f.Md5Attribute() != "" then f.(content := Content(t, f.Md5Attribute())) else f
  }

  function MergeFiles(t: Tables, files: seq<FileData>): (r: seq<FileData>)
    ensures |r| == |files|
    ensures forall i :: 0 <= i < |files| ==> r[i] == MergeFile(t, files[i])
  {
    seq(|files|, i requires 0 <= i < |files| => MergeFile(t, files[i]))
  }

  function LoadSnapshot(t: Tables, id: string): ItemCollection {
    if id in t.snapshots then t.snapshots[id].(files := MergeFiles(t, t.snapshots[id].files)) else EMPTY
  }

  function SaveMetadata(t: Tables, metadata: ItemCollection): Tables {
    t.(snapshots := t.snapshots[METADATA := metadata])
  }

  function IdsOf(t: Tables, uniqueId: string): set<string> {
    set r | r in t.byUniqueId && r.0 == uniqueId :: r.1
  }

  function SnapshotsByUniqueId(t: Tables, uniqueId: string): seq<string> { SortedStrings(IdsOf(t, uniqueId)) }

  function SnapshotsByDate(t: Tables, day: int): seq<string> {
    SortedStrings(set r | r in t.byModified && r.0 == day :: r.1)
  }

  // ---- deleting ----

  predicate Referenced(t: Tables, md5: string) { exists r :: r in t.byDocument && r.0 == md5 }

  /** The walk over the files of a deleted snapshot ends at the first content that another
      snapshot still refers to. */
  function DropFiles(cfg: Config, t: Tables, files: seq<FileData>, id: string): Tables
    decreases |files|
  {
    if files == [] then t
    else if files[0].content == [] then DropFiles(cfg, t, files[1..], id)
    else
      var md5 := cfg.md5(files[0].content);
      var t1 := t.(byDocument := t.byDocument - {(md5, id)});
      if Referenced(t1, md5) then t1 else DropFiles(cfg, DropDocument(t1, md5), files[1..], id)
  }

  /** The time that locates the by-modified row; None is the NumberFormatException. */
  function DeletionTime(s: ItemCollection, id: string): Option<int> {
    if Modified(s).Some? then Modified(s) else GetSnapshotTime(id)
  }

  function DropIndexRows(t: Tables, id: string): Tables {
    t.(snapshots := t.snapshots - {id},
       byUniqueId := t.byUniqueId - {(QueryText(GetUniqueID(id)), id)})
  }

  predicate DeleteCompletes(t: Tables, id: string) { DeletionTime(LoadSnapshot(t, id), id).Some? }

  function DeleteSnapshot(cfg: Config, t: Tables, id: string): Tables {
    var s := LoadSnapshot(t, id);
    var t1 := DropIndexRows(t, id);
    match DeletionTime(s, id)
    case None => t1
    case Some(ms) => DropFiles(cfg, t1.(byModified := t1.byModified - {(Day(ms), id)}), s.files, s.UniqueId())
  }

  // ---- history ----

  function History(s: ItemCollection): int { GetInteger(s.items, HISTORY) }

  function UpTo(ids: seq<string>, last: string): seq<string> {
    if ids == [] then []
    else (if StrLeq(ids[0], last) then [ids[0]] else []) + UpTo(ids[1..], last)
  }

  /** The snapshots a cleanup deletes, given the ids of the workitem in ascending order. */
  function Victims(ids: seq<string>, history: int): seq<string> {
    if history <= 0 then [] else
    var recent := Limit(Reverse(ids), history + 1);
    if |recent| < history then [] else
    Limit(UpTo(ids, recent[|recent| - 1]), CLEANUP_LIMIT)
  }

  /** Deletions one by one; an exception ends the walk. */
  function DeleteAll(cfg: Config, t: Tables, ids: seq<string>): Tables
    decreases |ids|
  {
    if ids == [] then t
    else if !DeleteCompletes(t, ids[0]) then DeleteSnapshot(cfg, t, ids[0])
    else DeleteAll(cfg, DeleteSnapshot(cfg, t, ids[0]), ids[1..])
  }

  function Cleanup(cfg: Config, t: Tables, s: ItemCollection): Tables {
    DeleteAll(cfg, t, Victims(SnapshotsByUniqueId(t, QueryText(GetUniqueID(s.UniqueId()))), History(s)))
  }

  // ---- runs ----

  datatype Operation = Save(snapshot: ItemCollection) | Delete(id: string) | Metadata(data: ItemCollection)

  function Step(cfg: Config, t: Tables, op: Operation): Tables {
    match op
    case Save(s) => SaveSnapshot(cfg, t, s)
    case Delete(id) => DeleteSnapshot(cfg, t, id)
    case Metadata(d) => SaveMetadata(t, d)
  }

  function Run(cfg: Config, t: Tables, ops: seq<Operation>): Tables
    decreases |ops|
  {
    if ops == [] then t else Run(cfg, Step(cfg, t, ops[0]), ops[1..])
  }
}
