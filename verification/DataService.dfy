/** The archive service: its operations on the tables, statement by statement, each proved to have
    exactly the effect that ArchiveTables defines. */
module DataServices {
  import opened Order
  import opened Items
  import opened Ids
  import opened Splitter
  import Archive = ArchiveTables
  import opened ArchiveTables

  function AddBlock(cfg: Config, t: Tables, md5: string, sortId: int, chunk: Bytes): Tables {
    t.(documentsData := t.documentsData[cfg.newId(t.issued) := chunk],
       documents := t.documents[md5 := Partition(t, md5)[sortId := cfg.newId(t.issued)]],
       issued := t.issued + 1)
  }

  /** One more block under the next sort id. */
  lemma StoreOneMore(cfg: Config, t: Tables, md5: string, blocks: seq<Bytes>, n: nat)
    requires n < |blocks|
    ensures StoreBlocks(cfg, t, md5, blocks[..n + 1])
            == AddBlock(cfg, StoreBlocks(cfg, t, md5, blocks[..n]), md5, n, blocks[n])
  {
    assert blocks[..n + 1][..n] == blocks[..n] && blocks[..n + 1][n] == blocks[n];
    var partition, id := Partition(t, md5), cfg.newId(t.issued + n);
    if n == 0 {
      assert blocks[..n] == [];
      assert partition + map[0 := id] == partition[0 := id];
    } else {
      var u := StoreBlocks(cfg, t, md5, blocks[..n]);
      assert Partition(u, md5) == partition + NewRows(cfg, t.issued, n);
      MergeThenPut(partition, NewRows(cfg, t.issued, n), n, id);
      PutTwice(t.documents, md5, Partition(u, md5), Partition(u, md5)[n := id]);
    }
  }

  lemma PutTwice<K, V>(m: map<K, V>, k: K, a: V, b: V)
    ensures m[k := a][k := b] == m[k := b]
  {
  }

  lemma MergeThenPut(a: map<int, string>, b: map<int, string>, k: int, v: string)
    ensures a + b[k := v] == (a + b)[k := v]
  {
  }

  ghost predicate HasRow(partition: map<int, string>) { exists j :: j in partition }

  /** ORDER BY and LIMIT of a query; no limit if `maxCount` is not positive. */
  function Page(rows: seq<string>, maxCount: int, descending: bool): seq<string> {
    var ordered := if descending then Reverse(rows) else rows;
    if maxCount > 0 then Limit(ordered, maxCount) else ordered
  }

  lemma PageElements(t: Tables, uniqueId: string, maxCount: int, descending: bool)
    ensures var ids := Page(SnapshotsByUniqueId(t, uniqueId), maxCount, descending);
            && Elements(ids) <= IdsOf(t, uniqueId) && |Elements(ids)| == |ids| && (maxCount > 0 ==> |ids| <= maxCount)
            && (maxCount <= 0 || |IdsOf(t, uniqueId)| <= maxCount ==> Elements(ids) == IdsOf(t, uniqueId))
  {
    var rows := SnapshotsByUniqueId(t, uniqueId);
    SortedStringsEnumerate(IdsOf(t, uniqueId));
    var ordered := if descending then Reverse(rows) else rows;
    assert Elements(rows) == IdsOf(t, uniqueId);
    assert forall i :: 0 <= i < |rows| ==> Reverse(rows)[i] == rows[|rows| - 1 - i];
    assert Elements(ordered) == IdsOf(t, uniqueId) by {
      if descending {
        NewestRows(rows, |rows|);
        assert Limit(Reverse(rows), |rows|) == Reverse(rows) && rows[0..] == rows;
      }
    }
    DistinctCount(Page(rows, maxCount, descending));
  }

  /** A page is in the order asked for, and what it leaves out comes after it in that order. */
  ghost predicate InOrder(rows: set<string>, ids: seq<string>, descending: bool) {
    && (forall i, j :: 0 <= i < j < |ids| ==> if descending then StrLeq(ids[j], ids[i]) else StrLeq(ids[i], ids[j]))
    && (forall a, b :: a in ids && b in rows && b !in ids ==> if descending then StrLeq(b, a) else StrLeq(a, b))
  }

  lemma PageOrder(t: Tables, uniqueId: string, maxCount: int, descending: bool)
    ensures InOrder(IdsOf(t, uniqueId), Page(SnapshotsByUniqueId(t, uniqueId), maxCount, descending), descending)
  {
    var rows := SnapshotsByUniqueId(t, uniqueId);
    var n := if 0 < maxCount < |rows| then maxCount else |rows|;
    SortedStringsEnumerate(IdsOf(t, uniqueId));
    if descending {
      LastRows(rows, IdsOf(t, uniqueId), n);
    } else {
      FirstRows(rows, IdsOf(t, uniqueId), n);
      assert Page(rows, maxCount, descending) == rows[..n];
    }
  }

  lemma FirstRows(rows: seq<string>, all: set<string>, n: nat)
    requires Enumerates(rows, all, StrLeq) && n <= |rows|
    ensures InOrder(all, rows[..n], false)
  {
    forall a, b | a in rows[..n] && b in all && b !in rows[..n] ensures StrLeq(a, b) {
      PrefixBelow(rows, n, a, b, StrLeq);
    }
  }

  lemma LastRows(rows: seq<string>, all: set<string>, n: nat)
    requires Enumerates(rows, all, StrLeq) && n <= |rows|
    ensures InOrder(all, Reverse(rows)[..n], true)
  {
    var ids, k := Reverse(rows)[..n], |rows| - n;
    forall a, b | a in ids && b in all && b !in ids ensures StrLeq(b, a) {
      var i :| 0 <= i < n && ids[i] == a;
      var j :| 0 <= j < |rows| && rows[j] == b;
      forall m | k <= m < |rows| ensures rows[m] in ids { assert ids[|rows| - 1 - m] == rows[m]; }
      assert rows[|rows| - 1 - i] == a;
    }
  }

  /** The two queries of a cleanup determine its victims. */
  lemma VictimsByQueries(ids: seq<string>, history: int, recent: seq<string>, latest: string)
    requires history > 0 && recent == Page(ids, history + 1, true)
    requires recent != [] ==> latest == recent[|recent| - 1]
    ensures Victims(ids, history)
            == if |recent| < history then [] else Limit(UpTo(Page(ids, 0, false), latest), CLEANUP_LIMIT)
  {
  }

  // ---- deleting rows one by one ----

  function DeleteDirectoryRow(documents: map<string, map<int, string>>, md5: string,
          sortId: int): map<string, map<int, string>> {
    if md5 !in documents then documents else
    if forall j :: j in documents[md5] ==> j == sortId then documents - {md5}
    else documents[md5 := documents[md5] - {sortId}]
  }

  function DeleteDirectory(documents: map<string, map<int, string>>, md5: string,
          sortIds: seq<int>): map<string, map<int, string>>
    decreases |sortIds|
  {
    if sortIds == [] then documents
    else DeleteDirectory(DeleteDirectoryRow(documents, md5, sortIds[0]), md5, sortIds[1..])
  }

  lemma {:induction false} DeleteDirectoryEmpties(documents: map<string, map<int, string>>, md5: string,
          sortIds: seq<int>)
    requires md5 in documents ==> HasRow(documents[md5]) && forall j :: j in documents[md5] ==> j in sortIds
    ensures DeleteDirectory(documents, md5, sortIds) == documents - {md5}
    decreases |sortIds|
  {
    if md5 in documents {
      var k :| k in documents[md5];
      assert sortIds != [];
      var next := DeleteDirectoryRow(documents, md5, sortIds[0]);
      if j :| j in documents[md5] && j != sortIds[0] { assert j in next[md5]; }
      assert next - {md5} == documents - {md5};
      DeleteDirectoryEmpties(next, md5, sortIds[1..]);
    } else if sortIds != [] {
      DeleteDirectoryEmpties(documents, md5, sortIds[1..]);
    }
  }

  function DeleteData(data: map<string, Bytes>, dataIds: seq<string>): map<string, Bytes>
    decreases |dataIds|
  {
    if dataIds == [] then data else DeleteData(data - {dataIds[0]}, dataIds[1..])
  }

  lemma {:induction false} DeleteDataAll(data: map<string, Bytes>, dataIds: seq<string>)
    ensures DeleteData(data, dataIds) == data - (set d | d in dataIds)
    decreases |dataIds|
  {
    if dataIds != [] {
      DeleteDataAll(data - {dataIds[0]}, dataIds[1..]);
      assert (set d | d in dataIds) == {dataIds[0]} + (set d | d in dataIds[1..]);
    }
  }

  function DataIdsInOrder(partition: map<int, string>): (r: seq<string>)
    ensures (set d | d in r) == DataIds(partition)
  {
    var sortIds := SortIds(partition);
    SortIdsEnumerate(partition);
    assert forall i :: 0 <= i < |sortIds| ==> sortIds[i] in sortIds;
    var r := seq(|sortIds|, i requires 0 <= i < |sortIds| => partition[sortIds[i]]);
    assert (set d | d in r) == DataIds(partition) by {
      SortIdsEnumerate(partition);
      forall d ensures d in r <==> d in DataIds(partition) {
        if d in DataIds(partition) {
          var j :| j in partition && partition[j] == d;
          var i :| 0 <= i < |sortIds| && sortIds[i] == j;
          assert r[i] == d;
        }
      }
    }
    r
  }

  /** Whether a cleanup runs to its end. */
  function DeleteAllCompletes(cfg: Config, t: Tables, ids: seq<string>): bool
    decreases |ids|
  {
    ids == [] || (DeleteCompletes(t, ids[0]) && DeleteAllCompletes(cfg, DeleteSnapshot(cfg, t, ids[0]), ids[1..]))
  }

  /** How a save ends: an exception before anything is written, a snapshot that is there already, an
      exception on the way, or a complete save. */
  function StatusOf(cfg: Config, t: Tables, s: ItemCollection): SaveStatus {
    if !IsSnapshotID(s.UniqueId()) || MODIFIED !in s.items then InvalidDocument
    else if s.UniqueId() in t.snapshots then AlreadyStored
    else if Modified(s).None? then Aborted
    else var u := Insert(cfg, t, s);
         var victims := Victims(SnapshotsByUniqueId(u, QueryText(GetUniqueID(s.UniqueId()))), History(s));
         if DeleteAllCompletes(cfg, u, victims) then Saved else Aborted
  }

  class DataService {
    const cfg: Config
    var snapshots: map<string, ItemCollection>
    var byUniqueId: set<(string, string)>
    var byModified: set<(int, string)>
    var byDocument: set<(string, string)>
    var documents: map<string, map<int, string>>
    var documentsData: map<string, Bytes>
    var issued: nat

    function T(): Tables
      reads this
    {
      Tables(snapshots, byUniqueId, byModified, byDocument, documents, documentsData, issued)
    }

    /** The stored documents key their files by name, and a partition has rows. */
    ghost predicate Valid()
      reads this
    {
      && (forall id :: id in snapshots ==> snapshots[id].WellFormed())
      && (forall m :: m in documents ==> HasRow(documents[m]))
    }

    constructor (cfg: Config)
      ensures Valid() && this.cfg == cfg && T() == EMPTY_TABLES
    {
      this.cfg := cfg;
      snapshots, byUniqueId, byModified, byDocument := map[], {}, {}, {};
      documents, documentsData, issued := map[], map[], 0;
    }

    method ExistSnapshot(id: string) returns (exists_: bool)
      ensures exists_ <==> id in snapshots
    {
      exists_ := id in snapshots;
    }

    method SaveSnapshot(snapshot: ItemCollection) returns (status: SaveStatus)
      requires Valid() && snapshot.WellFormed()
      requires forall f :: f in snapshot.files ==> |f.content| <= MAX_CONTENT
      modifies this
      ensures Valid() && T() == Archive.SaveSnapshot(cfg, old(T()), snapshot)
      ensures status == StatusOf(cfg, old(T()), snapshot)
    {
      var id := snapshot.UniqueId();
      if !IsSnapshotID(id) || MODIFIED !in snapshot.items { return InvalidDocument; }
      var stored := ExistSnapshot(id);
      if stored { return AlreadyStored; }
      var origin := GetUniqueID(id);
      var stripped := ExtractDocuments(snapshot);
      snapshots := snapshots[id := stripped];
      byUniqueId := byUniqueId + {(QueryText(origin), id)};
      match Modified(snapshot) {
        case None => status := Aborted;
        case Some(ms) =>
          byModified := byModified + {(Day(ms), id)};
          var completed := CleanupHistory(snapshot);
          status := if completed then Saved else Aborted;
      }
    }

    method ExtractDocuments(itemCol: ItemCollection) returns (stripped: ItemCollection)
      requires Valid() && itemCol.WellFormed()
      requires forall f :: f in itemCol.files ==> |f.content| <= MAX_CONTENT
      modifies `documents, `documentsData, `issued, `byDocument
      ensures Valid() && T() == Extract(cfg, old(T()), itemCol.files, itemCol.UniqueId())
      ensures stripped == itemCol.Stripped() && stripped.WellFormed()
    {
      var files, id := itemCol.files, itemCol.UniqueId();
      stripped := itemCol;
      var i := 0;
      while i < |files|
        invariant i <= |files| && Valid()
        invariant Extract(cfg, T(), files[i..], id) == Extract(cfg, old(T()), files, id)
        invariant stripped.items == itemCol.items && |stripped.files| == |files|
        invariant forall k :: 0 <= k < |files| ==> stripped.files[k] == if k < i then files[k].Stripped() else files[k]
      {
        var f := files[i];
        assert files[i..][1..] == files[i + 1..];
        if f.content != [] {
          ExtractContent(f.content, id);
          AddListed(files, stripped.files, i, f.Stripped());
          stripped := stripped.(files := AddFile(stripped.files, f.Stripped()));
        }
        i := i + 1;
      }
      assert stripped.files == StripFiles(files);
    }

    /** The content is stored unless its checksum is known, and the reference row is written. */
    method ExtractContent(content: Bytes, id: string)
      requires Valid() && content != [] && |content| <= MAX_CONTENT
      modifies `documents, `documentsData, `issued, `byDocument
      ensures Valid()
      ensures forall f: FileData :: f.content == content ==> T() == ExtractFile(cfg, old(T()), f, id)
    {
      var md5 := cfg.md5(content);
      if md5 !in documents { StoreDocument(md5, content); }
      byDocument := byDocument + {(md5, id)};
    }

    method StoreDocument(md5: string, data: Bytes)
      requires Valid() && |data| <= MAX_CONTENT
      modifies `documents, `documentsData, `issued
      ensures Valid() && T() == Archive.StoreDocument(cfg, old(T()), md5, data)
    {
      var it := new ChunkIterator(data);
      ghost var before, blocks := T(), Chunks(data);
      var sortId := 0;
      var more := it.HasNext();
      assert blocks[..0] == [];
      while more
        invariant sortId <= |blocks| && it.data == data && it.At(sortId) && more == (sortId < |blocks|)
        invariant fresh(it) && Valid() && T() == StoreBlocks(cfg, before, md5, blocks[..sortId])
        decreases |blocks| - sortId
      {
        var r := it.NextChunk(sortId);
        assert r.chunk == blocks[sortId];
        StoreOneMore(cfg, before, md5, blocks, sortId);
        InsertBlock(md5, sortId, r.chunk);
        sortId := sortId + 1;
        more := it.HasNext();
      }
      assert blocks[..sortId] == blocks;
    }

    /** The data row and the directory row of one block. */
    method InsertBlock(md5: string, sortId: int, chunk: Bytes)
      requires Valid()
      modifies `documents, `documentsData, `issued
      ensures Valid() && T() == AddBlock(cfg, old(T()), md5, sortId, chunk)
    {
      var dataId := cfg.newId(issued);
      issued := issued + 1;
      documentsData := documentsData[dataId := chunk];
      var partition := if md5 in documents then documents[md5] else map[];
      documents := documents[md5 := partition[sortId := dataId]];
      assert sortId in documents[md5];
    }

    method LoadFileContent(md5: string) returns (content: Option<Bytes>)
      ensures content == if md5 == "" then None else Some(Content(T(), md5))
    {
      if md5 == "" { return None; }
      if md5 !in documents { return Some([]); }
      SortIdsEnumerate(documents[md5]);
      assert forall i :: 0 <= i < |SortIds(documents[md5])| ==> SortIds(documents[md5])[i] in SortIds(documents[md5]);
      var all := ReadRows(documents[md5], SortIds(documents[md5]));
      content := Some(all);
    }

    method ReadRows(partition: map<int, string>, sortIds: seq<int>) returns (all: Bytes)
      requires forall i :: 0 <= i < |sortIds| ==> sortIds[i] in partition
      ensures all == Gather(partition, documentsData, sortIds)
    {
      all := [];
      var i := 0;
      while i < |sortIds|
        invariant i <= |sortIds| && all == Gather(partition, documentsData, sortIds[..i])
      {
        var dataId := partition[sortIds[i]];
        assert sortIds[..i + 1][..i] == sortIds[..i];
        if dataId in documentsData { all := all + documentsData[dataId]; }
        i := i + 1;
      }
      assert sortIds[..i] == sortIds;
    }

    method LoadSnapshot(id: string) returns (snapshot: ItemCollection)
      requires Valid()
      ensures snapshot == Archive.LoadSnapshot(T(), id) && snapshot.WellFormed()
    {
      if id !in snapshots { return EMPTY; }
      snapshot := MergeDocumentData(snapshots[id]);
      assert forall i :: 0 <= i < |snapshot.files| ==> snapshot.files[i].name == snapshots[id].files[i].name;
    }

    method MergeDocumentData(itemCol: ItemCollection) returns (merged: ItemCollection)
      requires itemCol.WellFormed()
      ensures merged == itemCol.(files := MergeFiles(T(), itemCol.files))
    {
      var files := itemCol.files;
      merged := itemCol;
      var i := 0;
      while i < |files|
        invariant i <= |files|
        invariant merged.items == itemCol.items && |merged.files| == |files|
        invariant forall k :: 0 <= k < i ==> merged.files[k] == MergeFile(T(), files[k])
        invariant forall k :: i <= k < |files| ==> merged.files[k] == files[k]
      {
        var f := files[i];
        if f.content == [] {
          var content := LoadFileContent(f.Md5Attribute());
          // attaching a missing file changes nothing
          if content.Some? {
            var loaded := f.(content := content.value);
            AddListed(files, merged.files, i, loaded);
            merged := merged.(files := AddFile(merged.files, loaded));
          }
        }
        i := i + 1;
      }
      assert merged.files == MergeFiles(T(), files);
    }

    method LoadSnapshotsByUniqueID(uniqueId: string, maxCount: int, descending: bool) returns (ids: seq<string>)
      ensures ids == Page(SnapshotsByUniqueId(T(), uniqueId), maxCount, descending)
      ensures Elements(ids) <= IdsOf(T(), uniqueId) && |Elements(ids)| == |ids|
      ensures maxCount <= 0 || |IdsOf(T(), uniqueId)| <= maxCount ==> Elements(ids) == IdsOf(T(), uniqueId)
      ensures maxCount > 0 ==> |ids| <= maxCount
      ensures InOrder(IdsOf(T(), uniqueId), ids, descending)
    {
      PageElements(T(), uniqueId, maxCount, descending);
      PageOrder(T(), uniqueId, maxCount, descending);
      ids := SnapshotsByUniqueId(T(), uniqueId);
      if descending { ids := Reverse(ids); }
      if maxCount > 0 { ids := Limit(ids, maxCount); }
    }

    method LoadSnapshotsByDate(day: int) returns (ids: seq<string>)
      ensures ids == SnapshotsByDate(T(), day)
      ensures forall id :: id in ids <==> (day, id) in byModified
      ensures Ascending(ids, StrLeq)
    {
      ids := SnapshotsByDate(T(), day);
      SortedStringsEnumerate(set r | r in byModified && r.0 == day :: r.1);
      assert forall id :: id in (set r | r in byModified && r.0 == day :: r.1) <==> (day, id) in byModified;
    }

    method LoadMetadata() returns (metadata: ItemCollection)
      requires Valid()
      ensures metadata == Archive.LoadSnapshot(T(), METADATA) && metadata.WellFormed()
    {
      metadata := LoadSnapshot(METADATA);
    }

    method SaveMetadata(metadata: ItemCollection)
      requires Valid() && metadata.WellFormed()
      modifies `snapshots
      ensures Valid() && T() == Archive.SaveMetadata(old(T()), metadata)
      ensures snapshots == old(snapshots)["0" := metadata]
    {
      snapshots := snapshots[METADATA := metadata];
    }

    method DeleteIndexRows(id: string, uniqueId: string)
      requires Valid() && uniqueId == QueryText(GetUniqueID(id))
      modifies `snapshots, `byUniqueId
      ensures Valid() && T() == DropIndexRows(old(T()), id)
    {
      snapshots := snapshots - {id};
      byUniqueId := byUniqueId - {(uniqueId, id)};
    }

    /** `completed` is false when no time can be found for the by-modified row. */
    method DeleteSnapshot(id: string) returns (completed: bool)
      requires Valid()
      modifies this
      ensures Valid() && T() == Archive.DeleteSnapshot(cfg, old(T()), id)
      ensures completed <==> DeleteCompletes(old(T()), id)
    {
      var uniqueId := GetUniqueID(id);
      var snapshot := LoadSnapshot(id);
      DeleteIndexRows(id, QueryText(uniqueId));
      var time := Modified(snapshot);
      if time.None? { time := GetSnapshotTime(id); }
      if time.None? { return false; }
      byModified := byModified - {(Day(time.value), id)};
      DeleteDocuments(snapshot);
      completed := true;
    }

    method DeleteDocuments(itemCol: ItemCollection)
      requires Valid()
      modifies `documents, `documentsData, `byDocument
      ensures Valid() && T() == DropFiles(cfg, old(T()), itemCol.files, itemCol.UniqueId())
    {
      var files, id := itemCol.files, itemCol.UniqueId();
      var i := 0;
      while i < |files|
        invariant i <= |files| && Valid()
        invariant DropFiles(cfg, T(), files[i..], id) == DropFiles(cfg, old(T()), files, id)
      {
        assert files[i..][1..] == files[i + 1..] && files[i..][0] == files[i];
        if files[i].content != [] {
          var md5 := cfg.md5(files[i].content);
          byDocument := byDocument - {(md5, id)};
          if exists r :: r in byDocument && r.0 == md5 { return; }
          ghost var before := T();
          DeleteRows(md5);
          assert T() == DropDocument(before, md5);
        }
        i := i + 1;
      }
    }

    /** Collects the rows of a document, then deletes the data rows, then the directory rows. */
    method DeleteRows(md5: string)
      requires Valid()
      modifies `documents, `documentsData
      ensures documents == old(documents) - {md5}
      ensures documentsData
              == old(documentsData) - DataIds(if md5 in old(documents) then old(documents)[md5] else map[])
    {
      if md5 in documents {
        var dataIds, sortIds := DataIdsInOrder(documents[md5]), SortIds(documents[md5]);
        SortIdsEnumerate(documents[md5]);
        DeleteDataRows(dataIds);
        DeleteDirectoryRows(md5, sortIds);
      }
    }

    method DeleteDataRows(dataIds: seq<string>)
      modifies `documentsData
      ensures documentsData == old(documentsData) - (set d | d in dataIds)
    {
      var i := 0;
      while i < |dataIds|
        invariant i <= |dataIds|
        invariant DeleteData(documentsData, dataIds[i..]) == DeleteData(old(documentsData), dataIds)
      {
        assert dataIds[i..][1..] == dataIds[i + 1..];
        documentsData := documentsData - {dataIds[i]};
        i := i + 1;
      }
      DeleteDataAll(old(documentsData), dataIds);
    }

    method DeleteDirectoryRows(md5: string, sortIds: seq<int>)
      requires md5 in documents ==> HasRow(documents[md5]) && forall j :: j in documents[md5] ==> j in sortIds
      modifies `documents
      ensures documents == old(documents) - {md5}
    {
      DeleteDirectoryEmpties(documents, md5, sortIds);
      ghost var goal := DeleteDirectory(documents, md5, sortIds);
      var i := 0;
      while i < |sortIds|
        invariant i <= |sortIds| && DeleteDirectory(documents, md5, sortIds[i..]) == goal
      {
        assert sortIds[i..][1..] == sortIds[i + 1..];
        DeleteDirectoryStatement(md5, sortIds[i]);
        i := i + 1;
      }
    }

    method DeleteDirectoryStatement(md5: string, sortId: int)
      modifies `documents
      ensures documents == DeleteDirectoryRow(old(documents), md5, sortId)
    {
      documents := DeleteDirectoryRow(documents, md5, sortId);
    }

    method DeleteVictims(ids: seq<string>) returns (completed: bool)
      requires Valid()
      modifies this
      ensures Valid() && T() == DeleteAll(cfg, old(T()), ids)
      ensures completed <==> DeleteAllCompletes(cfg, old(T()), ids)
    {
      var i := 0;
      while i < |ids|
        invariant i <= |ids| && Valid()
        invariant DeleteAll(cfg, T(), ids[i..]) == DeleteAll(cfg, old(T()), ids)
        invariant DeleteAllCompletes(cfg, T(), ids[i..]) == DeleteAllCompletes(cfg, old(T()), ids)
      {
        assert ids[i..][1..] == ids[i + 1..] && ids[i..][0] == ids[i];
        completed := DeleteSnapshot(ids[i]);
        if !completed { return; }
        i := i + 1;
      }
      completed := true;
    }

    method CleanupHistory(snapshot: ItemCollection) returns (completed: bool)
      requires Valid()
      modifies this
      ensures Valid() && T() == Cleanup(cfg, old(T()), snapshot)
      ensures completed <==> DeleteAllCompletes(cfg, old(T()),
                Victims(SnapshotsByUniqueId(old(T()), QueryText(GetUniqueID(snapshot.UniqueId()))), History(snapshot)))
    {
      var victims := SelectVictims(QueryText(GetUniqueID(snapshot.UniqueId())), History(snapshot));
      completed := DeleteVictims(victims);
    }

    method SelectVictims(uniqueId: string, history: int) returns (victims: seq<string>)
      ensures victims == Victims(SnapshotsByUniqueId(T(), uniqueId), history)
    {
      if history <= 0 { return []; }
      var recent := LoadSnapshotsByUniqueID(uniqueId, history + 1, true);
      var count, latest := LastRow(recent);
      VictimsByQueries(SnapshotsByUniqueId(T(), uniqueId), history, recent, latest);
      if count < history { return []; }
      var ids := LoadSnapshotsByUniqueID(uniqueId, 0, false);
      victims := Limit(UpTo(ids, latest), CLEANUP_LIMIT);
    }

    /** Walks to the last row of a result. */
    static method LastRow(rows: seq<string>) returns (count: nat, last: string)
      ensures count == |rows| && (rows != [] ==> last == rows[|rows| - 1])
    {
      count, last := 0, "";
      while count < |rows|
        invariant count <= |rows| && (count > 0 ==> last == rows[count - 1])
      {
        last := rows[count];
        count := count + 1;
      }
    }
  }
}
