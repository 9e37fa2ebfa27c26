/** What one save does, said of the items, files and names themselves. */
module SaveFacts {
  import opened Items
  import opened Ids
  import opened VersionNames
  import opened Snapshots
  import opened SnapshotRuns
  import opened WorkitemRuns
  import opened SnapshotRestore

  // ---- which documents get a snapshot ----

  /** Snapshots, models and documents with the flag are stored as they are; the skip flag is used up; old blob
      documents are rejected unless they are allowed; all others get a snapshot. */
  lemma SaveCases(cfg: Settings, store: Store, doc: ItemCollection, ctx: Context)
    ensures var t, uid, saved := GetString(doc.items, "type"), doc.UniqueId(), Save(cfg, store, doc, ctx);
            if "snapshot-" <= t || t == "model" || GetBoolean(doc.items, "$nosnapshot") then
              saved == store.(documents := store.documents[uid := doc])
            else if GetBoolean(doc.items, "$skipsnapshot") then
              saved == store.(documents := store.documents[uid := doc.Remove("$skipsnapshot")])
            else if t == "workitemlob" then
              saved == if cfg.allowWorkitemLob then store.(documents := store.documents[uid := doc]) else store
            else
              MakeSnapshotID(uid, ctx.idTime) in saved.documents && uid in saved.documents
  {
    if TakesSnapshot(doc) { SavedDocuments(cfg, store, doc, ctx); }
    assert doc.Remove(SKIPSNAPSHOT).UniqueId() == doc.UniqueId();
  }

  /** The store has the snapshot of a save under its id, and the origin under its own. */
  ghost predicate IsSavedAs(cfg: Settings, store: Store, doc: ItemCollection, ctx: Context, snapshot: ItemCollection,
          origin: ItemCollection)
  {
    var saved := Save(cfg, store, doc, ctx);
    saved.Load(MakeSnapshotID(doc.UniqueId(), ctx.idTime)) == Some(snapshot) &&
        saved.Load(doc.UniqueId()) == Some(origin)
  }

  lemma SavedAre(cfg: Settings, store: Store, doc: ItemCollection, ctx: Context)
    requires TakesSnapshot(doc)
    ensures forall snapshot, origin :: IsSavedAs(cfg, store, doc, ctx, snapshot, origin) <==>
              snapshot == NewSnapshot(cfg, store, doc, ctx) && origin == NewOrigin(cfg, store, doc, ctx)
  {
    SavedDocuments(cfg, store, doc, ctx);
  }

  // ---- the items of the two documents ----

  /** The snapshot has the items of the document but for its id, its type and two flags, the origin but for its
      reference and, if there was an earlier snapshot, the list of files to overwrite. */
  lemma SavedItemsAre(cfg: Settings, store: Store, doc: ItemCollection, ctx: Context, snapshot: ItemCollection,
          origin: ItemCollection)
    requires TakesSnapshot(doc) && IsSavedAs(cfg, store, doc, ctx, snapshot, origin)
    ensures var id, t := MakeSnapshotID(doc.UniqueId(), ctx.idTime), GetString(doc.items, "type");
            IsSnapshotOf(doc.items, snapshot.items, id, t)
            && IsOriginOf(doc.items, origin.items, id, GetString(doc.items, "$snapshotid") in store.documents)
  {
    SavedAre(cfg, store, doc, ctx);
    SavedItems(cfg, store, doc, ctx);
    SnapshotItemsAre(doc.items, NewSnapshotID(doc, ctx), GetString(doc.items, TYPE));
    OriginItemsAre(doc.items, NewSnapshotID(doc, ctx), LastSnapshot(store, doc).Some?);
  }

  ghost predicate IsSnapshotOf(doc: Attributes, snapshot: Attributes, id: string, t: string) {
    && (forall name :: name !in {"$uniqueid", "type", "$noindex", "$immutable"} ==> SameItem(doc, snapshot, name))
    && GetString(snapshot, "$uniqueid") == id && GetString(snapshot, "type") == "snapshot-" + t
    && GetBoolean(snapshot, "$noindex") && GetBoolean(snapshot, "$immutable")
  }

  ghost predicate IsOriginOf(doc: Attributes, origin: Attributes, id: string, overwritten: bool) {
    && (forall name :: name !in {"$snapshotid", "$snapshot.overwriteFileContent"} ==> SameItem(doc, origin, name))
    && GetString(origin, "$snapshotid") == id
    && (if overwritten then "$snapshot.overwriteFileContent" in origin
                            && origin["$snapshot.overwriteFileContent"] == [Text("")]
        else SameItem(doc, origin, "$snapshot.overwriteFileContent"))
  }

  lemma SnapshotItemsAre(items: Attributes, id: string, t: string)
    ensures IsSnapshotOf(items, SnapshotItems(items, id, t), id, t)
  {
  }

  lemma OriginItemsAre(items: Attributes, id: string, overwritten: bool)
    ensures IsOriginOf(items, SnapshotRestore.OriginItems(items, id, overwritten), id, overwritten)
  {
  }

  // ---- the labels of the files ----

  /** The date an upload gets: that of the last event, or that of the clock. */
  function DateOfEvent(doc: ItemCollection, ctx: Context): int {
    match GetDate(doc.items, "$lasteventdate")
    case Some(date) => date
    case None => ctx.eventTime
  }

  /** In the new snapshot an upload of more than one byte has its checksum, size and name, and its creator or, if
      it replaces other bytes, its editor with the date of the event; everything else stays. */
  ghost predicate IsLabelled(cfg: Settings, before: Attributes, after: Attributes, f: FileData, date: int,
          user: string) {
    var prior, sum := GetString(before, "md5checksum"), cfg.md5(f.content);
    && GetString(after, "md5checksum") == sum && GetInteger(after, "size") == |f.content|
    && GetString(after, "txtname") == f.name
    && (if prior != "" && prior != sum then
          && GetDate(after, "$modified") == Some(date) && GetString(after, "$editor") == user
          && forall a :: a !in {"md5checksum", "size", "txtname", "$modified", "$editor"} ==> SameItem(before, after, a)
        else
          && GetDate(after, "$created") == Some(date) && GetString(after, "$creator") == user
          && GetString(after, "namcreator") == user
          && forall a :: a !in {"md5checksum", "size", "txtname", "$created", "$creator", "namcreator"} ==>
               SameItem(before, after, a))
  }

  lemma LabelIsSet(cfg: Settings, f: FileData, date: int, user: string)
    ensures var r := LabelFile(cfg, f, date, user);
            if |f.content| > 1 then IsLabelled(cfg, f.attributes, r.attributes, f, date, user) else r == f
  {
  }

  /** The file of the new snapshot under a name that no version can get. */
  lemma SavedLabels(cfg: Settings, store: Store, doc: ItemCollection, ctx: Context, snapshot: ItemCollection,
          origin: ItemCollection, name: string)
    requires TakesSnapshot(doc) && IsSavedAs(cfg, store, doc, ctx, snapshot, origin)
    requires doc.WellFormed() && NoVersionName(cfg, name) && FindFile(doc.files, name).Some?
    ensures var g, f := FindFile(doc.files, name).value, FindFile(snapshot.files, name);
            && f.Some? && f.value.contentType == g.contentType
            && (if |g.content| > 1
                then IsLabelled(cfg, g.attributes, f.value.attributes, g, DateOfEvent(doc, ctx), ctx.user)
                else f.value.attributes == g.attributes)
  {
    SavedAre(cfg, store, doc, ctx);
    SavedFiles(cfg, store, doc, ctx);
    var labelled, source := Label(cfg, doc, ctx), SnapshotFiles(LastSnapshot(store, doc));
    var i := IndexOf(doc.files, name);
    IndexUnique(labelled.files, name, i);
    LabelIsSet(cfg, doc.files[i], DateOfEvent(doc, ctx), ctx.user);
    if LastSnapshot(store, doc).Some? {
      CopiedFile(cfg, source, Copied(labelled.files, labelled.files), labelled.files,
                 ItemValues(labelled.items, OVERWRITE), ctx.versionTime, name);
    }
  }

  // ---- the versions ----

  /** The date a content was last given: that of its modification, or else of its creation, or else the clock's. */
  function DateOfContent(attributes: Attributes, now: int): int {
    match GetDate(attributes, "$modified")
    case Some(date) => date
    case None => match GetDate(attributes, "$created")
                 case Some(date) => date
                 case None => now
  }

  /** With overwriting off, an upload whose checksum differs from that of the snapshot's file leaves the earlier
      content, with its type and attributes, under the name with the date of that content. */
  lemma EarlierContentIsKept(cfg: Settings, store: Store, doc: ItemCollection, ctx: Context, snapshot: ItemCollection,
          origin: ItemCollection, f: FileData, g: FileData)
    requires TakesSnapshot(doc) && IsSavedAs(cfg, store, doc, ctx, snapshot, origin)
    requires var last := store.Load(GetString(doc.items, "$snapshotid"));
             && last.Some? && FindFile(last.value.files, f.name) == Some(g)
             && NoClash(cfg, last.value.files, Label(cfg, doc, ctx).files, ItemValues(doc.items, OVERWRITE),
                        ctx.versionTime)
    requires f in doc.files && |f.content| > 1 && cfg.md5(f.content) != GetString(g.attributes, "md5checksum")
    requires !cfg.overwriteFileContent && Text(f.name) !in ItemValues(doc.items, "$snapshot.overwriteFileContent")
    ensures exists v :: v in snapshot.files && IsKeptAs(cfg, g, v, f.name, ctx.versionTime)
  {
    SavedAre(cfg, store, doc, ctx);
    SavedFiles(cfg, store, doc, ctx);
    var l := LabelledUpload(cfg, doc, ctx, f);
    var v := VersionFile(cfg, f.name, g, ctx.versionTime);
    VersionIsTaken(cfg, LastSnapshot(store, doc).value, Label(cfg, doc, ctx), ctx.versionTime, l, g);
    VersionKeeps(cfg, g, f.name, ctx.versionTime);
    assert v in snapshot.files;
  }

  lemma LabelledUpload(cfg: Settings, doc: ItemCollection, ctx: Context, f: FileData) returns (l: FileData)
    requires f in doc.files && |f.content| > 1
    ensures l in Label(cfg, doc, ctx).files && l.name == f.name && l.content == f.content
    ensures l.Md5Attribute() == cfg.md5(f.content)
  {
    var i :| 0 <= i < |doc.files| && doc.files[i] == f;
    l := Label(cfg, doc, ctx).files[i];
  }

  lemma VersionIsTaken(cfg: Settings, last: ItemCollection, labelled: ItemCollection, now: int, f: FileData,
          g: FileData)
    requires var list := ItemValues(labelled.items, OVERWRITE);
             && NoClash(cfg, last.files, labelled.files, list, now) && Protects(cfg, f, g, list)
    requires f in labelled.files && FindFile(last.files, f.name) == Some(g)
    ensures VersionFile(cfg, f.name, g, now) in TakeOver(cfg, Some(last), labelled, now).target
  {
    var list := ItemValues(labelled.items, OVERWRITE);
    TakeOverClosed(cfg, Some(last), labelled, now);
    VersionsFrom(cfg, last.files, labelled.files, list, now, VersionFile(cfg, f.name, g, now));
    assert IsProtected(cfg, last.files, f, list);
  }

  /** The file holds the content, the type and the attributes of `g` under the version name. */
  ghost predicate IsKeptAs(cfg: Settings, g: FileData, v: FileData, name: string, now: int) {
    && v.content == g.content && v.contentType == g.contentType
    && v.name == VersionName(name, cfg.stamp(DateOfContent(g.attributes, now)))
    && GetString(v.attributes, "txtname") == v.name
    && forall a :: a != "txtname" ==> SameItem(g.attributes, v.attributes, a)
  }

  lemma VersionKeeps(cfg: Settings, g: FileData, name: string, now: int)
    ensures IsKeptAs(cfg, g, VersionFile(cfg, name, g, now), name, now)
  {
  }

  predicate HasName(files: seq<FileData>, name: string) { exists f :: f in files && f.name == name }

  /** A name in a list that copying adds is that of a version of a file which was uploaded, is not listed, and is
      not overwritten by configuration. */
  lemma {:induction false} NamesCome(cfg: Settings, source: seq<FileData>, c: Copied, files: seq<FileData>,
          list: seq<Value>, now: int, name: string)
    requires HasName(CopyFiles(cfg, source, c, files, list, now).target, name)
    ensures HasName(c.target, name) || HasName(files, name)
            || (!cfg.overwriteFileContent
                && exists f, d :: f in files && f.content != [] && Text(f.name) !in list &&
                     name == VersionName(f.name, cfg.stamp(d)))
    decreases |files|
  {
    if files != [] {
      var once := CopyFile(cfg, source, c, files[0], list, now);
      assert files == [files[0]] + files[1..];
      NamesCome(cfg, source, once, files[1..], list, now, name);
      if HasName(once.target, name) &&
          !HasName(c.target, name) { NameComes(cfg, source, c, files[0], list, now, name); }
    }
  }

  lemma NameComes(cfg: Settings, source: seq<FileData>, c: Copied, f: FileData, list: seq<Value>, now: int,
          name: string)
    requires HasName(CopyFile(cfg, source, c, f, list, now).target, name) && !HasName(c.target, name)
    ensures f.name == name
            || (!cfg.overwriteFileContent && f.content != [] && Text(f.name) !in list
                && exists d :: name == VersionName(f.name, cfg.stamp(d)))
  {
    var once := CopyFile(cfg, source, c, f, list, now);
    assert FindFile(once.target, name).Some? && FindFile(c.target, name).None?;
  }

  /** If overwriting is on by configuration, or every uploaded file is listed for it, a save makes no version. */
  lemma OverwritingMakesNoVersion(cfg: Settings, store: Store, doc: ItemCollection, ctx: Context,
          snapshot: ItemCollection, origin: ItemCollection, v: FileData)
    requires TakesSnapshot(doc) && IsSavedAs(cfg, store, doc, ctx, snapshot, origin) && v in snapshot.files
    requires cfg.overwriteFileContent || forall f :: f in doc.files && f.content != [] ==>
               Text(f.name) in ItemValues(doc.items, "$snapshot.overwriteFileContent")
    ensures HasName(doc.files, v.name)
  {
    SavedAre(cfg, store, doc, ctx);
    SavedFiles(cfg, store, doc, ctx);
    var labelled, source := Label(cfg, doc, ctx), SnapshotFiles(LastSnapshot(store, doc));
    assert HasName(snapshot.files, v.name);
    LabelledNames(cfg, doc, ctx);
    if LastSnapshot(store, doc).Some? {
      NamesCome(cfg, source, Copied(labelled.files, labelled.files), labelled.files,
                ItemValues(labelled.items, OVERWRITE), ctx.versionTime, v.name);
    }
    assert HasName(labelled.files, v.name);
  }

  lemma LabelledNames(cfg: Settings, doc: ItemCollection, ctx: Context)
    ensures forall l :: l in Label(cfg, doc, ctx).files ==>
              exists f :: f in doc.files && f.name == l.name && f.content == l.content
  {
    var labelled := Label(cfg, doc, ctx).files;
    forall l | l in labelled ensures exists f :: f in doc.files && f.name == l.name && f.content == l.content {
      var i :| 0 <= i < |labelled| && labelled[i] == l;
      assert doc.files[i] in doc.files;
    }
  }
}
