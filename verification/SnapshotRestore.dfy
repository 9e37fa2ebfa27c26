/** Restoring snapshots: posting a snapshot undoes the save that made it. */
module SnapshotRestore {
  import opened Items
  import opened Ids
  import opened EventLog
  import opened Snapshots
  import opened SnapshotRuns
  import opened SnapshotSafety
  import opened VersionClashes
  import opened WorkitemRuns

  /** The items in which a restored document may differ from the one the save left behind: the
      flags of the snapshot, the restore marker, and the list of files to overwrite. */
  predicate IsRestoreItem(name: string) {
    name == NOINDEX || name == IMMUTABLE || name == VERSION || name == SKIPSNAPSHOT || name == BACKUPRESTORE
  }

  ghost predicate SameItem(a: Attributes, b: Attributes, name: string) {
    (name in a <==> name in b) && (name in a ==> a[name] == b[name])
  }

  /** `restored` has the items of `origin` up to those above; id, type and reference agree as texts. */
  ghost predicate SameItems(origin: ItemCollection, restored: ItemCollection) {
    && restored.UniqueId() == origin.UniqueId()
    && GetString(restored.items, TYPE) == GetString(origin.items, TYPE)
    && GetString(restored.items, SNAPSHOTID) == GetString(origin.items, SNAPSHOTID)
    && (forall name :: !IsRestoreItem(name) && name != OVERWRITE && name != UNIQUEID && name != TYPE ==>
          SameItem(origin.items, restored.items, name))
    && (forall name :: IsRestoreItem(name) ==> name !in restored.items)
  }

  /** `restored` is `origin` up to the items above. */
  ghost predicate Rebuilt(origin: ItemCollection, restored: ItemCollection) {
    SameItems(origin, restored) && restored.files == origin.files
  }

  /** A snapshot as it comes back from a backup, possibly with the restore marker. */
  function Marked(snapshot: ItemCollection, marker: Option<Value>): ItemCollection {
    if marker.Some? then snapshot.Set(BACKUPRESTORE, marker.value) else snapshot
  }

  // ---- the items of the three documents ----

  /** The items of a snapshot, of the origin it was made from, and of the restored origin. */
  function SnapshotItems(items: Attributes, id: string, t: string): Attributes {
    items[UNIQUEID := [Text(id)]][TYPE := [Text(TYPE_PREFIX + t)]][NOINDEX := [Flag(true)]][IMMUTABLE := [Flag(true)]]
  }

  function MarkedItems(items: Attributes, marker: Option<Value>): Attributes {
    if marker.Some? then items[BACKUPRESTORE := [marker.value]] else items
  }

  function OriginItems(items: Attributes, id: string, overwritten: bool): Attributes {
    (if overwritten then items[OVERWRITE := [Text("")]] else items)[SNAPSHOTID := [Text(id)]]
  }

  function RestoredItems(items: Attributes, uid: string, t: string, id: string): Attributes {
    (items[UNIQUEID := [Text(uid)]] - {NOINDEX} - {IMMUTABLE} - {VERSION})
      [TYPE := [Text(t)]][SKIPSNAPSHOT := [Flag(true)]][SNAPSHOTID := [Text(id)]] - {BACKUPRESTORE}
  }

  lemma SavedItems(cfg: Settings, env: Store, doc: ItemCollection, ctx: Context)
    ensures NewSnapshot(cfg, env, doc, ctx).items ==
              SnapshotItems(doc.items, NewSnapshotID(doc, ctx), GetString(doc.items, TYPE))
    ensures NewOrigin(cfg, env, doc, ctx).items ==
              OriginItems(doc.items, NewSnapshotID(doc, ctx), LastSnapshot(env, doc).Some?)
  {
  }

  lemma RestoringItems(snapshot: ItemCollection, uid: string, t: string)
    requires GetString(snapshot.items, TYPE) == TYPE_PREFIX + t
    ensures RestoredOrigin(snapshot, uid).items == RestoredItems(snapshot.items, uid, t, snapshot.UniqueId())
    ensures RestoredOrigin(snapshot, uid).files == StripFiles(snapshot.files)
  {
    assert (TYPE_PREFIX + t)[|TYPE_PREFIX|..] == t;
  }

  lemma SnapshotTexts(items: Attributes, id: string, t: string, marker: Option<Value>)
    ensures GetString(MarkedItems(SnapshotItems(items, id, t), marker), UNIQUEID) == id
    ensures GetString(MarkedItems(SnapshotItems(items, id, t), marker), TYPE) == TYPE_PREFIX + t
  {
  }

  lemma RestoredTexts(items: Attributes, uid: string, t: string, id: string)
    ensures GetString(RestoredItems(items, uid, t, id), UNIQUEID) == uid
    ensures GetString(RestoredItems(items, uid, t, id), TYPE) == t
    ensures GetString(RestoredItems(items, uid, t, id), SNAPSHOTID) == id
    ensures GetBoolean(RestoredItems(items, uid, t, id), SKIPSNAPSHOT)
  {
  }

  lemma RestoredKeeps(items: Attributes, uid: string, t: string, id: string, marker: Option<Value>, overwritten: bool,
          name: string)
    requires !IsRestoreItem(name) && name != OVERWRITE && name != UNIQUEID && name != TYPE
    ensures SameItem(OriginItems(items, id, overwritten),
                     RestoredItems(MarkedItems(SnapshotItems(items, id, t), marker), uid, t, id) - {SKIPSNAPSHOT}, name)
  {
    if name != SNAPSHOTID {
      assert SameItem(items, MarkedItems(SnapshotItems(items, id, t), marker), name);
      assert SameItem(items, OriginItems(items, id, overwritten), name);
    }
  }

  lemma RestoredDrops(items: Attributes, uid: string, t: string, id: string, name: string)
    requires IsRestoreItem(name)
    ensures name !in RestoredItems(items, uid, t, id) - {SKIPSNAPSHOT}
  {
  }

  // ---- posting a snapshot ----

  /** What posting does when the rebuilt document carries the skip flag. */
  lemma PostedSnapshot(cfg: Settings, store: Store, snapshot: ItemCollection, uid: string, ctx: Context)
    requires TYPE_PREFIX <= GetString(snapshot.items, TYPE) && GetUniqueID(snapshot.UniqueId()) == Some(uid)
    requires var d := RestoredOrigin(snapshot, uid);
             && GetBoolean(d.items, SKIPSNAPSHOT) && !GetBoolean(d.items, NOSNAPSHOT) && d.UniqueId() == uid
             && !(TYPE_PREFIX <= GetString(d.items, TYPE)) && GetString(d.items, TYPE) != "model"
    ensures var id, after := snapshot.UniqueId(), PostSnapshot(cfg, store, snapshot, ctx);
            && after.documents == (if id in store.documents then store.documents else store.documents[id := snapshot])
                                  [uid := RestoredOrigin(snapshot, uid).Remove(SKIPSNAPSHOT)]
            && after.log == store.log + if cfg.archive then [Event(TOPIC_ADD, id)] else []
  {
    var d := RestoredOrigin(snapshot, uid).Remove(SKIPSNAPSHOT);
    assert d.UniqueId() == uid;
  }

  /** The rebuilt document has the items of the origin, whatever the store holds. */
  lemma RebuildsItems(origin: ItemCollection, snapshot: ItemCollection, items: Attributes, uid: string, id: string,
                      overwritten: bool, marker: Option<Value>)
    requires origin.items == OriginItems(items, id, overwritten) && GetString(items, UNIQUEID) == uid
    requires snapshot.items == MarkedItems(SnapshotItems(items, id, GetString(items, TYPE)), marker)
    ensures var t, restored := GetString(items, TYPE), RestoredOrigin(snapshot, uid);
            && SameItems(origin, restored.Remove(SKIPSNAPSHOT)) && restored.files == StripFiles(snapshot.files)
            && GetBoolean(restored.items, SKIPSNAPSHOT) && restored.UniqueId() == uid
            && GetString(restored.items, TYPE) == t
            && GetBoolean(restored.items, NOSNAPSHOT) == GetBoolean(items, NOSNAPSHOT)
  {
    var t, restored := GetString(items, TYPE), RestoredOrigin(snapshot, uid);
    SnapshotTexts(items, id, t, marker);
    RestoringItems(snapshot, uid, t);
    RestoredTexts(snapshot.items, uid, t, id);
    OriginTexts(items, id, overwritten);
    SkipIsNone(restored.items);
    forall name | !IsRestoreItem(name) && name != OVERWRITE && name != UNIQUEID && name != TYPE
      ensures SameItem(origin.items, restored.Remove(SKIPSNAPSHOT).items, name)
    {
      RestoredKeeps(items, uid, t, id, marker, overwritten, name);
    }
    forall name | IsRestoreItem(name) ensures name !in restored.Remove(SKIPSNAPSHOT).items {
      RestoredDrops(snapshot.items, uid, t, id, name);
    }
    RestoredFlag(snapshot.items, uid, t, id);
    assert SameItem(items, snapshot.items, NOSNAPSHOT);
  }

  lemma OriginTexts(items: Attributes, id: string, overwritten: bool)
    ensures GetString(OriginItems(items, id, overwritten), UNIQUEID) == GetString(items, UNIQUEID)
    ensures GetString(OriginItems(items, id, overwritten), TYPE) == GetString(items, TYPE)
    ensures GetString(OriginItems(items, id, overwritten), SNAPSHOTID) == id
  {
  }

  lemma SkipIsNone(items: Attributes)
    ensures GetString(items - {SKIPSNAPSHOT}, UNIQUEID) == GetString(items, UNIQUEID)
    ensures GetString(items - {SKIPSNAPSHOT}, TYPE) == GetString(items, TYPE)
    ensures GetString(items - {SKIPSNAPSHOT}, SNAPSHOTID) == GetString(items, SNAPSHOTID)
  {
  }

  lemma RestoredFlag(items: Attributes, uid: string, t: string, id: string)
    ensures GetBoolean(RestoredItems(items, uid, t, id), NOSNAPSHOT) == GetBoolean(items, NOSNAPSHOT)
  {
  }

  // ---- restoring what a save made ----

  /** The copying of contents that a save does. */
  function CopyingOf(cfg: Settings, env: Store, doc: ItemCollection, ctx: Context): Copying {
    Copying(cfg, SnapshotFiles(LastSnapshot(env, doc)), ItemValues(doc.items, OVERWRITE), ctx.versionTime)
  }

  ghost predicate IntactSave(cfg: Settings, env: Store, doc: ItemCollection, ctx: Context) {
    Intact(CopyingOf(cfg, env, doc, ctx), Label(cfg, doc, ctx).files)
  }

  lemma SavedFilesAgree(cfg: Settings, env: Store, doc: ItemCollection, ctx: Context)
    requires doc.WellFormed()
    ensures NewOrigin(cfg, env, doc, ctx).files == StripFiles(NewSnapshot(cfg, env, doc, ctx).files)
            <==> IntactSave(cfg, env, doc, ctx)
  {
    SavedFiles(cfg, env, doc, ctx);
    if LastSnapshot(env, doc).Some? {
      FilesAgreeExactly(CopyingOf(cfg, env, doc, ctx), Label(cfg, doc, ctx).files);
    }
  }

  /** Posting the snapshot that any save made, at any later time and to any state of the store, gives the
      origin document the items that save left it, adds the snapshot if it is missing, changes no other
      document and takes no further snapshot; the skip flag is used up and the restore marker does not
      reach the document. Its files are those the save left exactly if no version made by the save took
      the name of a file that was filled after it. */
  lemma RestoreUndoesSave(cfg: Settings, env: Store, doc: ItemCollection, saved: Context,
                          later: Store, marker: Option<Value>, ctx: Context)
    requires TakesSnapshot(doc) && doc.WellFormed()
    ensures var origin, snapshot := NewOrigin(cfg, env, doc, saved), Marked(NewSnapshot(cfg, env, doc, saved), marker);
            var uid, id, after := doc.UniqueId(), NewSnapshotID(doc, saved), PostSnapshot(cfg, later, snapshot, ctx);
            && uid in after.documents && SameItems(origin, after.documents[uid])
            && after.documents == (if id in later.documents then later.documents else later.documents[id := snapshot])
                                  [uid := after.documents[uid]]
            && after.log == later.log + (if cfg.archive then [Event(TOPIC_ADD, id)] else [])
            && (Rebuilt(origin, after.documents[uid]) <==> IntactSave(cfg, env, doc, saved))
  {
    var uid, id, t := doc.UniqueId(), NewSnapshotID(doc, saved), GetString(doc.items, TYPE);
    var snapshot := Marked(NewSnapshot(cfg, env, doc, saved), marker);
    IdRoundTrip(uid, saved.idTime);
    SavedItems(cfg, env, doc, saved);
    SavedFilesAgree(cfg, env, doc, saved);
    SnapshotTexts(doc.items, id, t, marker);
    RebuildsItems(NewOrigin(cfg, env, doc, saved), snapshot, doc.items, uid, id, LastSnapshot(env, doc).Some?, marker);
    assert TYPE_PREFIX <= TYPE_PREFIX + t;
    PostedSnapshot(cfg, later, snapshot, uid, ctx);
  }

  lemma RoundsAreIntact(cfg: Settings, pool: iset<Bytes>, before: Store, uid: string, r: Round)
    requires Sound(cfg, pool) && Inv(cfg, pool, CurrentFiles(before, uid))
    requires RoundOk(cfg, pool, before, uid, r)
    ensures IntactSave(cfg, r.env, r.doc, r.ctx) && r.doc.WellFormed()
  {
    SaveHasNoClash(cfg, pool, CurrentFiles(before, uid), r.Edit());
    assert CurrentFiles(before, uid) == SnapshotFiles(LastSnapshot(r.env, r.doc));
    NoClashIsIntact(CopyingOf(cfg, r.env, r.doc, r.ctx), Label(cfg, r.doc, r.ctx).files);
  }

  /** In a run of edits and saves posting a snapshot always rebuilds the origin as the save left it. */
  lemma RestoreRebuildsOrigin(cfg: Settings, pool: iset<Bytes>, before: Store, uid: string, r: Round,
                              later: Store, marker: Option<Value>, ctx: Context)
    requires Sound(cfg, pool) && Inv(cfg, pool, CurrentFiles(before, uid))
    requires RoundOk(cfg, pool, before, uid, r)
    ensures var snapshot := Marked(NewSnapshot(cfg, r.env, r.doc, r.ctx), marker);
            var after := PostSnapshot(cfg, later, snapshot, ctx);
            uid in after.documents && Rebuilt(NewOrigin(cfg, r.env, r.doc, r.ctx), after.documents[uid])
  {
    RoundsAreIntact(cfg, pool, before, uid, r);
    RestoreUndoesSave(cfg, r.env, r.doc, r.ctx, later, marker, ctx);
  }

  lemma StillTakesSnapshots(origin: ItemCollection, restored: ItemCollection)
    requires SameItems(origin, restored) && GetString(origin.items, TYPE) != "workitemlob"
    requires !(TYPE_PREFIX <= GetString(origin.items, TYPE)) && GetString(origin.items, TYPE) != "model"
    requires !GetBoolean(origin.items, NOSNAPSHOT)
    ensures TakesSnapshot(restored)
  {
    assert IsRestoreItem(SKIPSNAPSHOT);
    assert SameItem(origin.items, restored.items, NOSNAPSHOT);
  }

  lemma OriginTakesSnapshots(cfg: Settings, env: Store, doc: ItemCollection, ctx: Context)
    requires TakesSnapshot(doc)
    ensures var t := GetString(NewOrigin(cfg, env, doc, ctx).items, TYPE);
            t != "workitemlob" && !(TYPE_PREFIX <= t) && t != "model"
    ensures !GetBoolean(NewOrigin(cfg, env, doc, ctx).items, NOSNAPSHOT)
  {
    SavedItems(cfg, env, doc, ctx);
    OriginTexts(doc.items, NewSnapshotID(doc, ctx), LastSnapshot(env, doc).Some?);
    assert SameItem(doc.items, OriginItems(doc.items, NewSnapshotID(doc, ctx), LastSnapshot(env, doc).Some?),
        NOSNAPSHOT);
  }

  /** After the restore of any saved snapshot the document reads the files of that snapshot, and its next
      save takes a snapshot again. */
  lemma RestoredReads(cfg: Settings, env: Store, doc: ItemCollection, saved: Context,
                      later: Store, marker: Option<Value>, ctx: Context)
    requires TakesSnapshot(doc) && doc.WellFormed()
    requires var id := NewSnapshotID(doc, saved);
             id in later.documents ==> later.documents[id].files == NewSnapshot(cfg, env, doc, saved).files
    ensures var after := PostSnapshot(cfg, later, Marked(NewSnapshot(cfg, env, doc, saved), marker), ctx);
            && CurrentFiles(after, doc.UniqueId()) == NewSnapshot(cfg, env, doc, saved).files
            && doc.UniqueId() in after.documents && TakesSnapshot(after.documents[doc.UniqueId()])
  {
    RestoreUndoesSave(cfg, env, doc, saved, later, marker, ctx);
    var uid, id := doc.UniqueId(), NewSnapshotID(doc, saved);
    var after := PostSnapshot(cfg, later, Marked(NewSnapshot(cfg, env, doc, saved), marker), ctx);
    SavedItems(cfg, env, doc, saved);
    OriginTexts(doc.items, id, LastSnapshot(env, doc).Some?);
    assert |id| > |uid|;
    CurrentAfter(after, uid, id);
    OriginTakesSnapshots(cfg, env, doc, saved);
    StillTakesSnapshots(NewOrigin(cfg, env, doc, saved), after.documents[uid]);
  }

  /** After a restore the run of saves can go on where the restored snapshot was made: the document
      refers to that snapshot's files, and their invariant holds. */
  lemma RestoreResumesRun(cfg: Settings, pool: iset<Bytes>, before: Store, uid: string, r: Round,
                          later: Store, marker: Option<Value>, ctx: Context)
    requires Sound(cfg, pool) && Inv(cfg, pool, CurrentFiles(before, uid))
    requires RoundOk(cfg, pool, before, uid, r)
    requires var id := NewSnapshotID(r.doc, r.ctx);
             id in later.documents ==> later.documents[id].files == NewSnapshot(cfg, r.env, r.doc, r.ctx).files
    ensures var after := PostSnapshot(cfg, later, Marked(NewSnapshot(cfg, r.env, r.doc, r.ctx), marker), ctx);
            && CurrentFiles(after, uid) == Next(cfg, CurrentFiles(before, uid), r.Edit())
            && Inv(cfg, pool, CurrentFiles(after, uid))
            && uid in after.documents && TakesSnapshot(after.documents[uid])
  {
    RestoredReads(cfg, r.env, r.doc, r.ctx, later, marker, ctx);
    SavedSnapshotFiles(cfg, pool, before, uid, r);
    SaveKeepsInv(cfg, pool, CurrentFiles(before, uid), r.Edit());
  }

  /** The files of the snapshot that a save makes. */
  lemma SavedSnapshotFiles(cfg: Settings, pool: iset<Bytes>, before: Store, uid: string, r: Round)
    requires Sound(cfg, pool) && Inv(cfg, pool, CurrentFiles(before, uid))
    requires RoundOk(cfg, pool, before, uid, r)
    ensures NewSnapshot(cfg, r.env, r.doc, r.ctx).files == Next(cfg, CurrentFiles(before, uid), r.Edit())
  {
    RoundEffect(cfg, pool, before, uid, r);
    SavedDocuments(cfg, r.env, r.doc, r.ctx);
  }

  lemma CurrentAfter(store: Store, uid: string, id: string)
    requires uid in store.documents && GetString(store.documents[uid].items, SNAPSHOTID) == id && id in store.documents
    ensures CurrentFiles(store, uid) == store.documents[id].files
  {
  }

  /** Posting any snapshot of an ordinary document makes it the one its origin refers to, and
      changes the reference of no other document. */
  lemma PostingMovesReference(cfg: Settings, store: Store, snapshot: ItemCollection, uid: string, t: string,
          ctx: Context)
    requires GetString(snapshot.items, TYPE) == TYPE_PREFIX + t && !(TYPE_PREFIX <= t) && t != "model"
    requires GetUniqueID(snapshot.UniqueId()) == Some(uid) && !GetBoolean(snapshot.items, NOSNAPSHOT)
    ensures var after := PostSnapshot(cfg, store, snapshot, ctx);
            && CurrentId(after, uid) == snapshot.UniqueId() && snapshot.UniqueId() in after.documents
            && (forall u :: u != uid && u != snapshot.UniqueId() ==> CurrentId(after, u) == CurrentId(store, u))
            && (snapshot.UniqueId() !in store.documents ==> after.documents[snapshot.UniqueId()] == snapshot)
            && BACKUPRESTORE !in after.documents[uid].items
            && (forall x :: x != uid && x != snapshot.UniqueId() ==> after.Load(x) == store.Load(x))
  {
    var id, d := snapshot.UniqueId(), RestoredOrigin(snapshot, uid);
    RestoringItems(snapshot, uid, t);
    RestoredTexts(snapshot.items, uid, t, id);
    RestoredFlag(snapshot.items, uid, t, id);
    SkipIsNone(d.items);
    RestoredDrops(snapshot.items, uid, t, id, BACKUPRESTORE);
    assert TYPE_PREFIX <= TYPE_PREFIX + t;
    assert |id| > |uid|;
    PostedSnapshot(cfg, store, snapshot, uid, ctx);
  }
}
