/** Safety of attachments over runs of edits and saves. */
module SnapshotSafety {
  import opened Items
  import opened Ids
  import opened VersionNames
  import opened Snapshots
  import opened SnapshotRuns

  const MAX_DATE := 253_402_300_800_000   // the first millisecond of the year 10000

  predicate IsDate(d: int) { 0 <= d < MAX_DATE }

  /** Checksums separate the contents in play, and time stamps have their fixed shape and separate dates. */
  ghost predicate Sound(cfg: Settings, pool: iset<Bytes>) {
    && (forall a :: cfg.md5(a) != "")
    && (forall a, b :: a in pool && b in pool && cfg.md5(a) == cfg.md5(b) ==> a == b)
    && (forall d :: IsDate(d) ==> IsStamp(cfg.stamp(d)))
    && (forall d, e :: IsDate(d) && IsDate(e) && cfg.stamp(d) == cfg.stamp(e) ==> d == e)
  }

  ghost predicate IsVersionOf(cfg: Settings, name: string, fileName: string, d: int) {
    IsDate(d) && name == VersionName(fileName, cfg.stamp(d))
  }

  ghost predicate IsVersion(cfg: Settings, name: string) { exists n, d :: IsVersionOf(cfg, name, n, d) }

  lemma VersionUnique(cfg: Settings, pool: iset<Bytes>, name: string, n: string, d: int, m: string, e: int)
    requires Sound(cfg, pool) && IsVersionOf(cfg, name, n, d) && IsVersionOf(cfg, name, m, e)
    ensures n == m && d == e
  {
    VersionNameInjective(n, cfg.stamp(d), m, cfg.stamp(e));
  }

  // ---- the invariant of the current snapshot's files ----

  /** The checksum attribute of a longer content, where there is one, is that of the content, and a file
      without content has none. */
  ghost predicate FileOk(cfg: Settings, pool: iset<Bytes>, f: FileData) {
    && (f.content != [] ==> f.content in pool)
    && (f.content == [] ==> f.Md5Attribute() == "")
    && (|f.content| > 1 && f.Md5Attribute() != "" ==> f.Md5Attribute() == cfg.md5(f.content))
    && (FileDate(f).Some? ==> IsDate(FileDate(f).value))
  }

  /** No version of the name has that stamp. */
  ghost predicate Unstamped(cfg: Settings, files: seq<FileData>, name: string, d: int) {
    forall g :: g in files ==> !IsVersionOf(cfg, g.name, name, d)
  }

  /** The date of a file is not the stamp of one of its versions. */
  ghost predicate DateUnstamped(cfg: Settings, files: seq<FileData>, f: FileData) {
    FileDate(f).Some? && !IsVersion(cfg, f.name) ==> Unstamped(cfg, files, f.name, FileDate(f).value)
  }

  ghost predicate Inv(cfg: Settings, pool: iset<Bytes>, files: seq<FileData>) {
    UniqueNames(files) && forall f :: f in files ==> FileOk(cfg, pool, f) && DateUnstamped(cfg, files, f)
  }

  /** What a save starts from: the files of the edited document, the date of the event, the date
      given to versions without one, the user and the list of files to overwrite. */
  datatype Change = Change(edited: seq<FileData>, t: int, v: int, user: string, list: seq<Value>)
  {
    function Labelled(cfg: Settings): (r: seq<FileData>)
      ensures UniqueNames(edited) ==> UniqueNames(r)
    {
      LabelFiles(cfg, edited, t, user)
    }
  }

  /** The date of a version made for the file. */
  function KeptDate(files: seq<FileData>, ch: Change, f: FileData): int
    requires FindFile(files, f.name).Some?
  {
    StampDate(FindFile(files, f.name).value, ch.v)
  }

  /** Dates that separate the contents of one name: that of the labelled file is neither the stamp of a
      version in the snapshot nor that of the version made for it, and the clock gives a new stamp to a
      content without a date. */
  ghost predicate DatesDiffer(cfg: Settings, files: seq<FileData>, ch: Change, f: FileData) {
    && (FileDate(f).Some? ==> IsDate(FileDate(f).value)) && DateUnstamped(cfg, files, f)
    && (IsProtected(cfg, files, f, ch.list) ==>
          && FileDate(f) != Some(KeptDate(files, ch, f))
          && (FileDate(FindFile(files, f.name).value).None? ==>
                IsDate(ch.v) && Unstamped(cfg, files, f.name, ch.v)))
  }

  /** A file of an edited document, with whatever attributes it is uploaded; one that keeps its bytes
      keeps their checksum, too, or has none. An upload or a new file never uses a version name. */
  ghost predicate FileEdited(cfg: Settings, pool: iset<Bytes>, files: seq<FileData>, ch: Change, f: FileData) {
    && (f.content != [] ==> f.content in pool)
    && (f.content != [] || FindFile(files, f.name).None? ==> !IsVersion(cfg, f.name))
    && (f.content == [] && f.Md5Attribute() != "" ==>
          FindFile(files, f.name).Some? && FindFile(files, f.name).value.Md5Attribute() == f.Md5Attribute())
    && DatesDiffer(cfg, files, ch, LabelFile(cfg, f, ch.t, ch.user))
  }

  /** Uploads, additions, removals and changes of attributes. */
  ghost predicate Permitted(cfg: Settings, pool: iset<Bytes>, files: seq<FileData>, ch: Change) {
    UniqueNames(ch.edited) && forall f :: f in ch.edited ==> FileEdited(cfg, pool, files, ch, f)
  }

  ghost predicate Allowed(cfg: Settings, pool: iset<Bytes>, files: seq<FileData>, ch: Change) {
    Sound(cfg, pool) && Inv(cfg, pool, files) && Permitted(cfg, pool, files, ch)
  }

  /** A single byte uploaded over a longer content that still carries that content's checksum. */
  predicate Unnoticed(files: seq<FileData>, f: FileData) {
    |f.content| == 1
    && match FindFile(files, f.name)
       case None => false
       case Some(g) => |g.content| > 1 && f.Md5Attribute() == g.Md5Attribute()
  }

  /** No file is removed, and no longer content is replaced by a single byte without notice. */
  ghost predicate NothingRemoved(files: seq<FileData>, edited: seq<FileData>) {
    && (forall g :: g in files ==> FindFile(edited, g.name).Some?)
    && (forall f :: f in edited ==> !Unnoticed(files, f))
  }

  // ---- one save ----

  /** The files of the next snapshot when no version name is taken. */
  function Next(cfg: Settings, source: seq<FileData>, ch: Change): seq<FileData> {
    FillAll(source, ch.Labelled(cfg)) + Versions(cfg, source, ch.Labelled(cfg), ch.list, ch.v)
  }

  predicate Guarded(cfg: Settings, files: seq<FileData>, ch: Change, f: FileData) {
    f in ch.Labelled(cfg) && IsProtected(cfg, files, f, ch.list)
  }

  /** The version file made for a protected content. */
  function Kept(cfg: Settings, files: seq<FileData>, ch: Change, f: FileData): FileData
    requires FindFile(files, f.name).Some?
  {
    VersionFile(cfg, f.name, FindFile(files, f.name).value, ch.v)
  }

  /** A labelled file comes from a file of the edited document; what it may replace is in the snapshot. */
  lemma EditedFile(cfg: Settings, pool: iset<Bytes>, files: seq<FileData>, ch: Change, f: FileData)
    returns (e: FileData)
    requires Allowed(cfg, pool, files, ch) && f in ch.Labelled(cfg)
    ensures e in ch.edited && f == LabelFile(cfg, e, ch.t, ch.user) && FileEdited(cfg, pool, files, ch, e)
    ensures |f.content| > 1 ==> f.Md5Attribute() == cfg.md5(f.content)
    ensures FindFile(files, f.name).Some? ==>
              var g := FindFile(files, f.name).value;
              g in files && FileOk(cfg, pool, g) && DateUnstamped(cfg, files, g)
  {
    var labelled := ch.Labelled(cfg);
    var i :| 0 <= i < |labelled| && labelled[i] == f;
    e := ch.edited[i];
  }

  /** A protected file has a plain name, and the stamp of its version is new. */
  lemma GuardedFile(cfg: Settings, pool: iset<Bytes>, files: seq<FileData>, ch: Change, f: FileData)
    requires Allowed(cfg, pool, files, ch) && Guarded(cfg, files, ch, f)
    ensures var g, d := FindFile(files, f.name).value, KeptDate(files, ch, f);
            && g in files && FileOk(cfg, pool, g) && !IsVersion(cfg, f.name)
            && IsVersionOf(cfg, Kept(cfg, files, ch, f).name, f.name, d)
            && Unstamped(cfg, files, f.name, d) && FileDate(f) != Some(d)
  {
    var e := EditedFile(cfg, pool, files, ch, f);
  }

  lemma VersionsFresh(cfg: Settings, pool: iset<Bytes>, files: seq<FileData>, ch: Change, w: FileData, f: FileData)
    requires Allowed(cfg, pool, files, ch) && f in ch.Labelled(cfg)
    requires w in Versions(cfg, files, ch.Labelled(cfg), ch.list, ch.v)
    ensures w.name != f.name
  {
    VersionsFrom(cfg, files, ch.Labelled(cfg), ch.list, ch.v, w);
    var h :| h in ch.Labelled(cfg) && IsProtected(cfg, files, h, ch.list)
             && w == VersionFile(cfg, h.name, FindFile(files, h.name).value, ch.v);
    GuardedFile(cfg, pool, files, ch, h);
    var e := EditedFile(cfg, pool, files, ch, f);
    assert IsVersion(cfg, w.name);
    assert FindFile(files, f.name).Some? ==> FindFile(files, f.name).value.name != w.name;
  }

  lemma VersionsDiffer(cfg: Settings, pool: iset<Bytes>, files: seq<FileData>, ch: Change, f: FileData,
          h: FileData)
    requires Allowed(cfg, pool, files, ch) && Guarded(cfg, files, ch, f) && Guarded(cfg, files, ch, h)
    ensures f.name != h.name ==> Kept(cfg, files, ch, f).name != Kept(cfg, files, ch, h).name
  {
    GuardedFile(cfg, pool, files, ch, f);
    GuardedFile(cfg, pool, files, ch, h);
    var name := Kept(cfg, files, ch, f).name;
    if name == Kept(cfg, files, ch, h).name {
      VersionUnique(cfg, pool, name, f.name, KeptDate(files, ch, f), h.name, KeptDate(files, ch, h));
    }
  }

  lemma {:induction false} VersionsDistinct(cfg: Settings, pool: iset<Bytes>, files: seq<FileData>,
          ch: Change, n: nat)
    requires Allowed(cfg, pool, files, ch) && n <= |ch.edited|
    ensures UniqueNames(Versions(cfg, files, ch.Labelled(cfg)[..n], ch.list, ch.v))
  {
    if n > 0 {
      var labelled := ch.Labelled(cfg);
      VersionsDistinct(cfg, pool, files, ch, n - 1);
      assert labelled[..n][..n - 1] == labelled[..n - 1];
      var f, before := labelled[n - 1], Versions(cfg, files, labelled[..n - 1], ch.list, ch.v);
      if IsProtected(cfg, files, f, ch.list) {
        forall w | w in before ensures w.name != Kept(cfg, files, ch, f).name {
          EarlierVersionDiffers(cfg, pool, files, ch, n, w);
        }
        UniqueWithNew(before, Kept(cfg, files, ch, f));
      }
    }
  }

  lemma UniqueWithNew(files: seq<FileData>, f: FileData)
    requires UniqueNames(files) && forall g :: g in files ==> g.name != f.name
    ensures UniqueNames(files + [f])
  {
    assert forall i :: 0 <= i < |files| ==> files[i] in files;
  }

  lemma EarlierVersionDiffers(cfg: Settings, pool: iset<Bytes>, files: seq<FileData>, ch: Change, n: nat,
          w: FileData)
    requires Allowed(cfg, pool, files, ch) && 0 < n <= |ch.edited|
    requires IsProtected(cfg, files, ch.Labelled(cfg)[n - 1], ch.list)
    requires w in Versions(cfg, files, ch.Labelled(cfg)[..n - 1], ch.list, ch.v)
    ensures w.name != Kept(cfg, files, ch, ch.Labelled(cfg)[n - 1]).name
  {
    var labelled := ch.Labelled(cfg);
    VersionsFrom(cfg, files, labelled[..n - 1], ch.list, ch.v, w);
    var h :| h in labelled[..n - 1] && IsProtected(cfg, files, h, ch.list)
             && w == VersionFile(cfg, h.name, FindFile(files, h.name).value, ch.v);
    var k :| 0 <= k < n - 1 && labelled[k] == h;
    VersionsDiffer(cfg, pool, files, ch, labelled[n - 1], h);
  }

  /** Under the invariant a save never takes a name twice. */
  lemma SaveHasNoClash(cfg: Settings, pool: iset<Bytes>, files: seq<FileData>, ch: Change)
    requires Allowed(cfg, pool, files, ch)
    ensures NoClash(cfg, files, ch.Labelled(cfg), ch.list, ch.v)
  {
    var labelled := ch.Labelled(cfg);
    var versions := Versions(cfg, files, labelled, ch.list, ch.v);
    assert labelled[..|labelled|] == labelled;
    VersionsDistinct(cfg, pool, files, ch, |labelled|);
    forall i, j | 0 <= i < |labelled| && 0 <= j < |versions| ensures labelled[i].name != versions[j].name {
      VersionsFresh(cfg, pool, files, ch, versions[j], labelled[i]);
    }
  }

  lemma NextUnique(cfg: Settings, source: seq<FileData>, ch: Change)
    requires NoClash(cfg, source, ch.Labelled(cfg), ch.list, ch.v)
    ensures UniqueNames(Next(cfg, source, ch))
  {
    var all := ch.Labelled(cfg) + Versions(cfg, source, ch.Labelled(cfg), ch.list, ch.v);
    assert forall k :: 0 <= k < |all| ==> Next(cfg, source, ch)[k].name == all[k].name;
  }

  lemma NextMember(cfg: Settings, source: seq<FileData>, ch: Change, x: FileData)
    ensures x in Next(cfg, source, ch) <==>
            || (exists f :: f in ch.Labelled(cfg) && x == Fill(source, f))
            || (exists f :: Guarded(cfg, source, ch, f) && x == Kept(cfg, source, ch, f))
  {
    var labelled := ch.Labelled(cfg);
    VersionsFrom(cfg, source, labelled, ch.list, ch.v, x);
    var filled := FillAll(source, labelled);
    if f :| f in labelled && x == Fill(source, f) {
      var i :| 0 <= i < |labelled| && labelled[i] == f;
      assert filled[i] == x;
    }
    if x in filled {
      var i :| 0 <= i < |filled| && filled[i] == x;
      assert labelled[i] in labelled;
    }
    if f :| Guarded(cfg, source, ch, f) && x == Kept(cfg, source, ch, f) {
      assert x == VersionFile(cfg, f.name, FindFile(source, f.name).value, ch.v);
    }
    if x in Versions(cfg, source, labelled, ch.list, ch.v) {
      var f :| f in labelled && IsProtected(cfg, source, f, ch.list)
               && x == VersionFile(cfg, f.name, FindFile(source, f.name).value, ch.v);
      assert Guarded(cfg, source, ch, f);
    }
  }

  /** A file kept or uploaded is labelled as it should be, and with the bytes it keeps a version name only
      stays where it was. */
  lemma FilledOk(cfg: Settings, pool: iset<Bytes>, files: seq<FileData>, ch: Change, f: FileData)
    requires Allowed(cfg, pool, files, ch) && f in ch.Labelled(cfg)
    ensures FileOk(cfg, pool, Fill(files, f)) && DatesDiffer(cfg, files, ch, f)
    ensures FileDate(Fill(files, f)) == FileDate(f)
    ensures IsVersion(cfg, f.name) ==> FindFile(files, f.name).Some?
  {
    var e := EditedFile(cfg, pool, files, ch, f);
    var x := Fill(files, f);
    assert x.Md5Attribute() == f.Md5Attribute() && FileDate(x) == FileDate(f);
  }

  /** A version file keeps content and label of what it protects. */
  lemma VersionOk(cfg: Settings, pool: iset<Bytes>, name: string, g: FileData, v: int)
    requires FileOk(cfg, pool, g)
    ensures FileOk(cfg, pool, VersionFile(cfg, name, g, v))
  {
    var w := VersionFile(cfg, name, g, v);
    assert w.Md5Attribute() == g.Md5Attribute() && FileDate(w) == FileDate(g);
  }

  /** Every save re-establishes the invariant, whether contents are overwritten or protected. */
  lemma SaveKeepsInv(cfg: Settings, pool: iset<Bytes>, files: seq<FileData>, ch: Change)
    requires Allowed(cfg, pool, files, ch)
    ensures Inv(cfg, pool, Next(cfg, files, ch))
  {
    SaveHasNoClash(cfg, pool, files, ch);
    NextUnique(cfg, files, ch);
    forall x | x in Next(cfg, files, ch) ensures FileOk(cfg, pool, x) {
      NextMember(cfg, files, ch, x);
      if f :| f in ch.Labelled(cfg) && x == Fill(files, f) {
        FilledOk(cfg, pool, files, ch, f);
      } else {
        var f :| Guarded(cfg, files, ch, f) && x == Kept(cfg, files, ch, f);
        GuardedFile(cfg, pool, files, ch, f);
        VersionOk(cfg, pool, f.name, FindFile(files, f.name).value, ch.v);
      }
    }
    forall x | x in Next(cfg, files, ch) ensures DateUnstamped(cfg, Next(cfg, files, ch), x) {
      if FileDate(x).Some? && !IsVersion(cfg, x.name) { StampsNotPresent(cfg, pool, files, ch, x); }
    }
  }

  /** Where a version name in the new snapshot comes from. */
  lemma VersionOrigin(cfg: Settings, pool: iset<Bytes>, files: seq<FileData>, ch: Change, y: FileData,
          n: string, d: int)
    requires Allowed(cfg, pool, files, ch) && y in Next(cfg, files, ch) && IsVersionOf(cfg, y.name, n, d)
    ensures || !Unstamped(cfg, files, n, d)
            || (exists f :: Guarded(cfg, files, ch, f) && f.name == n && d == KeptDate(files, ch, f))
  {
    NextMember(cfg, files, ch, y);
    if f :| f in ch.Labelled(cfg) && y == Fill(files, f) {
      FilledOk(cfg, pool, files, ch, f);
      assert IsVersion(cfg, f.name);
      assert FindFile(files, y.name).value in files;
    } else {
      var f :| Guarded(cfg, files, ch, f) && y == Kept(cfg, files, ch, f);
      GuardedFile(cfg, pool, files, ch, f);
      VersionUnique(cfg, pool, y.name, n, d, f.name, KeptDate(files, ch, f));
    }
  }

  lemma StampsNotPresent(cfg: Settings, pool: iset<Bytes>, files: seq<FileData>, ch: Change, x: FileData)
    requires Allowed(cfg, pool, files, ch) && x in Next(cfg, files, ch) && !IsVersion(cfg, x.name) && FileDate(x).Some?
    ensures Unstamped(cfg, Next(cfg, files, ch), x.name, FileDate(x).value)
  {
    var h := PlainFile(cfg, pool, files, ch, x);
    FilledOk(cfg, pool, files, ch, h);
    forall y | y in Next(cfg, files, ch) ensures !IsVersionOf(cfg, y.name, x.name, FileDate(x).value) {
      if IsVersionOf(cfg, y.name, x.name, FileDate(x).value) {
        VersionOrigin(cfg, pool, files, ch, y, x.name, FileDate(x).value);
        var f :| Guarded(cfg, files, ch, f) && f.name == x.name && FileDate(x).value == KeptDate(files, ch, f);
        FindMember(ch.Labelled(cfg), f);
        FindMember(ch.Labelled(cfg), h);
        assert false;
      }
    }
  }

  /** A file of the new snapshot whose name is no version name was in the edited document. */
  lemma PlainFile(cfg: Settings, pool: iset<Bytes>, files: seq<FileData>, ch: Change, x: FileData)
    returns (h: FileData)
    requires Allowed(cfg, pool, files, ch) && x in Next(cfg, files, ch) && !IsVersion(cfg, x.name)
    ensures h in ch.Labelled(cfg) && x == Fill(files, h)
  {
    NextMember(cfg, files, ch, x);
    forall f | Guarded(cfg, files, ch, f) ensures x != Kept(cfg, files, ch, f) {
      GuardedFile(cfg, pool, files, ch, f);
    }
    h :| h in ch.Labelled(cfg) && x == Fill(files, h);
  }

  /** The first upload of a content records its creator; an upload of other bytes over it keeps creator
      and creation date and records the editor and the date of the change. */
  lemma CreatorIsKept(cfg: Settings, f: FileData, g: FileData, t: int, user: string, t': int, user': string)
    requires |f.content| > 1 && f.Md5Attribute() == "" && |g.content| > 1 && cfg.md5(f.content) != ""
    requires g.attributes == LabelFile(cfg, f, t, user).attributes
    ensures var a, b := LabelFile(cfg, f, t, user).attributes, LabelFile(cfg, g, t', user').attributes;
            && GetString(b, MD5_CHECKSUM) == cfg.md5(g.content) && GetInteger(b, SIZE) == |g.content|
            && GetString(b, TXTNAME) == g.name
            && GetDate(a, CREATED) == Some(t) && GetString(a, CREATOR) == user
            && (cfg.md5(g.content) != cfg.md5(f.content) ==>
                  GetDate(b, CREATED) == Some(t) && GetString(b, CREATOR) == user
                  && GetDate(b, MODIFIED) == Some(t') && GetString(b, EDITOR) == user')
            && (cfg.md5(g.content) == cfg.md5(f.content) ==>
                  GetDate(b, CREATED) == Some(t') && GetString(b, CREATOR) == user')
  {
    var a := LabelFile(cfg, f, t, user);
    assert a.Md5Attribute() == cfg.md5(f.content);
    assert g.Md5Attribute() == cfg.md5(f.content);
  }

  // ---- contents stay readable ----

  ghost predicate ReadableAs(cfg: Settings, g: FileData, n: string, c: Bytes) {
    g.content == c && (g.name == n || exists d :: IsVersionOf(cfg, g.name, n, d))
  }

  /** The content can be read under the file's name or one of its time-stamped version names. */
  ghost predicate Readable(cfg: Settings, files: seq<FileData>, n: string, c: Bytes) {
    exists g :: g in files && ReadableAs(cfg, g, n, c)
  }

  predicate OverwritingOff(cfg: Settings, ch: Change) {
    !cfg.overwriteFileContent && forall f :: f in ch.edited ==> Text(f.name) !in ch.list
  }

  /** What was readable before a save is readable after it. */
  lemma SaveKeepsReadable(cfg: Settings, pool: iset<Bytes>, files: seq<FileData>, ch: Change, n: string,
          c: Bytes)
    requires Allowed(cfg, pool, files, ch) && OverwritingOff(cfg, ch) && NothingRemoved(files, ch.edited)
    requires |c| > 1 && !IsVersion(cfg, n) && Readable(cfg, files, n, c)
    ensures Readable(cfg, Next(cfg, files, ch), n, c)
  {
    var g :| g in files && ReadableAs(cfg, g, n, c);
    var f := EditedFileOf(cfg, pool, files, ch, g);
    if Guarded(cfg, files, ch, f) {
      GuardedReadable(cfg, pool, files, ch, g, f, n, c);
    } else {
      UnguardedReadable(cfg, pool, files, ch, g, f, n, c);
    }
  }

  /** The previous content of a protected file is readable under its version name. */
  lemma GuardedReadable(cfg: Settings, pool: iset<Bytes>, files: seq<FileData>, ch: Change,
          g: FileData, f: FileData, n: string, c: Bytes)
    requires Allowed(cfg, pool, files, ch) && f in ch.Labelled(cfg) && Guarded(cfg, files, ch, f)
    requires FindFile(files, f.name) == Some(g) && ReadableAs(cfg, g, n, c)
    ensures Readable(cfg, Next(cfg, files, ch), n, c)
  {
    GuardedFile(cfg, pool, files, ch, f);
    NextMember(cfg, files, ch, Kept(cfg, files, ch, f));
    PlainReadable(cfg, g, Kept(cfg, files, ch, f), n, c, KeptDate(files, ch, f));
  }

  lemma UnguardedReadable(cfg: Settings, pool: iset<Bytes>, files: seq<FileData>, ch: Change,
          g: FileData, f: FileData, n: string, c: Bytes)
    requires Allowed(cfg, pool, files, ch) && OverwritingOff(cfg, ch) && NothingRemoved(files, ch.edited)
    requires f in ch.Labelled(cfg) && !Guarded(cfg, files, ch, f)
    requires FindFile(files, f.name) == Some(g) && ReadableAs(cfg, g, n, c) && |c| > 1
    ensures Readable(cfg, Next(cfg, files, ch), n, c)
  {
    UnguardedKeepsContent(cfg, pool, files, ch, g, f);
    NextMember(cfg, files, ch, Fill(files, f));
    SameReadable(cfg, g, Fill(files, f), n, c);
  }

  lemma SameReadable(cfg: Settings, g: FileData, x: FileData, n: string, c: Bytes)
    requires ReadableAs(cfg, g, n, c) && x.name == g.name && x.content == g.content
    ensures ReadableAs(cfg, x, n, c)
  {
  }

  lemma PlainReadable(cfg: Settings, g: FileData, x: FileData, n: string, c: Bytes, d: int)
    requires ReadableAs(cfg, g, n, c) && !IsVersion(cfg, g.name) && x.content == g.content
    requires IsVersionOf(cfg, x.name, g.name, d)
    ensures ReadableAs(cfg, x, n, c)
  {
  }

  /** Nothing was removed: every file of the snapshot is in the edited document. */
  lemma EditedFileOf(cfg: Settings, pool: iset<Bytes>, files: seq<FileData>, ch: Change, g: FileData)
    returns (f: FileData)
    requires Allowed(cfg, pool, files, ch) && NothingRemoved(files, ch.edited) && g in files
    ensures f in ch.Labelled(cfg) && f.name == g.name && FindFile(files, f.name) == Some(g)
  {
    FindMember(files, g);
    var e := FindFile(ch.edited, g.name).value;
    var i :| 0 <= i < |ch.edited| && ch.edited[i] == e;
    f := ch.Labelled(cfg)[i];
  }

  /** With overwriting off a file that is not protected keeps the bytes it had. */
  lemma UnguardedKeepsContent(cfg: Settings, pool: iset<Bytes>, files: seq<FileData>, ch: Change,
          g: FileData, f: FileData)
    requires Allowed(cfg, pool, files, ch) && OverwritingOff(cfg, ch) && NothingRemoved(files, ch.edited)
    requires |g.content| > 1
    requires f in ch.Labelled(cfg) && FindFile(files, f.name) == Some(g) && !Guarded(cfg, files, ch, f)
    ensures Fill(files, f).content == g.content
  {
    var e := EditedFile(cfg, pool, files, ch, f);
    assert Text(f.name) !in ch.list;
  }

  /** What is uploaded is readable after the save, under its own name. */
  lemma UploadReadable(cfg: Settings, source: seq<FileData>, ch: Change, f: FileData)
    requires f in ch.edited && f.content != []
    ensures Readable(cfg, Next(cfg, source, ch), f.name, f.content)
  {
    var i :| 0 <= i < |ch.edited| && ch.edited[i] == f;
    assert ch.Labelled(cfg)[i] in ch.Labelled(cfg);
    var x := Fill(source, ch.Labelled(cfg)[i]);
    NextMember(cfg, source, ch, x);
    assert ReadableAs(cfg, x, f.name, f.content);
  }

  /** The bytes of a file after a save: those uploaded with it, else those it had. */
  lemma SaveKeepsLatest(cfg: Settings, source: seq<FileData>, ch: Change, f: FileData)
    requires f in ch.edited && UniqueNames(Next(cfg, source, ch))
    ensures var r, before := FindFile(Next(cfg, source, ch), f.name), FindFile(source, f.name);
            && r.Some?
            && r.value.content == (if f.content != [] then f.content
                                   else if before.Some? then before.value.content else [])
  {
    var i :| 0 <= i < |ch.edited| && ch.edited[i] == f;
    assert ch.Labelled(cfg)[i] in ch.Labelled(cfg);
    var x := Fill(source, ch.Labelled(cfg)[i]);
    NextMember(cfg, source, ch, x);
    FindMember(Next(cfg, source, ch), x);
  }
}
