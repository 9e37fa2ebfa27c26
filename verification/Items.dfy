/** The generic document of the workflow engine: named items plus a list of attached files
    that is keyed by the file name. */
module Items {

  newtype Byte = b: int | 0 <= b < 256
  type Bytes = seq<Byte>

  datatype Option<+T> = None | Some(value: T)

  datatype Value = Text(text: string) | Number(number: int) | Date(millis: int) | Flag(flag: bool)
  type Attributes = map<string, seq<Value>>

  datatype FileData = FileData(name: string, content: Bytes, contentType: string, attributes: Attributes)
  {
    /** The file as it remains in a document whose bytes are stored elsewhere. */
    function Stripped(): FileData { this.(content := []) }

    function Md5Attribute(): string { GetString(attributes, MD5_CHECKSUM) }
  }

  datatype ItemCollection = ItemCollection(items: Attributes, files: seq<FileData>)
  {
    function UniqueId(): string { GetString(items, UNIQUEID) }

    function Set(name: string, value: Value): ItemCollection { this.(items := items[name := [value]]) }

    function Remove(name: string): ItemCollection { this.(items := items - {name}) }

    /** The document with the bytes of every file dropped. */
    function Stripped(): ItemCollection { this.(files := StripFiles(files)) }

    /** File names are unique: attaching a file replaces the entry of the same name. */
    ghost predicate WellFormed() { UniqueNames(files) }
  }

  const EMPTY := ItemCollection(map[], [])

  const UNIQUEID := "$uniqueid"
  const TYPE := "type"
  const MODIFIED := "$modified"
  const CREATED := "$created"
  const SNAPSHOTID := "$snapshotid"
  const BACKUPRESTORE := "$backuprestore"
  const MD5_CHECKSUM := "md5checksum"

  // The typed getters look at the first value of an item and fall back to a neutral value.
  function GetString(items: Attributes, name: string): string {
    if name in items && items[name] != [] && items[name][0].Text? then items[name][0].text else ""
  }

  function GetInteger(items: Attributes, name: string): int {
    if name in items && items[name] != [] && items[name][0].Number? then items[name][0].number else 0
  }

  function GetDate(items: Attributes, name: string): Option<int> {
    if name in items && items[name] != [] && items[name][0].Date? then Some(items[name][0].millis) else None
  }

  function GetBoolean(items: Attributes, name: string): bool {
    name in items && items[name] != [] && items[name][0].Flag? && items[name][0].flag
  }

  ghost predicate UniqueNames(files: seq<FileData>) {
    forall i, j :: 0 <= i < j < |files| ==> files[i].name != files[j].name
  }

  function StripFiles(files: seq<FileData>): (r: seq<FileData>)
    ensures |r| == |files|
    ensures forall i :: 0 <= i < |files| ==> r[i] == files[i].Stripped()
  {
    seq(|files|, i requires 0 <= i < |files| => files[i].Stripped())
  }

  /** Position of a file name, or the length of the list. */
  function IndexOf(files: seq<FileData>, name: string): (i: nat)
    ensures i <= |files|
    ensures i < |files| ==> files[i].name == name
    ensures forall j :: 0 <= j < i ==> files[j].name != name
  {
    if files == [] || files[0].name == name then 0 else 1 + IndexOf(files[1..], name)
  }

  function FindFile(files: seq<FileData>, name: string): (r: Option<FileData>)
    ensures r.Some? ==> r.value in files && r.value.name == name
    ensures r.None? <==> forall f :: f in files ==> f.name != name
  {
    var i := IndexOf(files, name);
    if i < |files| then Some(files[i]) else None
  }

  /** Attach a file: an entry of the same name is replaced in place, a new name is appended. */
  function AddFile(files: seq<FileData>, f: FileData): (r: seq<FileData>)
    ensures UniqueNames(files) ==> UniqueNames(r)
    ensures forall n :: FindFile(r, n) == if n == f.name then Some(f) else FindFile(files, n)
  {
    var i := IndexOf(files, f.name);
    var r := if i < |files| then files[i := f] else files + [f];
    assert forall n :: FindFile(r, n) == if n == f.name then Some(f) else FindFile(files, n) by {
      forall n ensures FindFile(r, n) == if n == f.name then Some(f) else FindFile(files, n) {
        var k := IndexOf(files, n);
        IndexUnique(r, n, if n == f.name then i else if k < |files| then k else |r|);
      }
    }
    r
  }

  lemma IndexUnique(files: seq<FileData>, name: string, i: nat)
    requires i <= |files| && (i < |files| ==> files[i].name == name)
    requires forall j :: 0 <= j < i ==> files[j].name != name
    ensures IndexOf(files, name) == i
  {
  }

  /** With unique names a file is found exactly under its own name. */
  lemma FindUnique(files: seq<FileData>, i: nat)
    requires UniqueNames(files) && i < |files|
    ensures IndexOf(files, files[i].name) == i && FindFile(files, files[i].name) == Some(files[i])
  {
    IndexUnique(files, files[i].name, i);
  }

  /** Replacing the entry of a listed file changes exactly that position. */
  lemma AddListed(files: seq<FileData>, current: seq<FileData>, i: nat, f: FileData)
    requires UniqueNames(files) && |current| == |files| && i < |files| && f.name == files[i].name
    requires forall k :: 0 <= k < |files| ==> current[k].name == files[k].name
    ensures AddFile(current, f) == current[i := f]
  {
    assert UniqueNames(current);
    FindUnique(current, i);
  }

  /** A new name is appended. */
  lemma AddNew(files: seq<FileData>, f: FileData)
    requires forall g :: g in files ==> g.name != f.name
    ensures AddFile(files, f) == files + [f]
  {
    assert forall i :: 0 <= i < |files| ==> files[i] in files;
  }

  /** Replacing the file in the middle of a list. */
  lemma AddBetween(p: seq<FileData>, f: FileData, g: FileData, rest: seq<FileData>)
    requires UniqueNames(p + [f] + rest) && g.name == f.name
    ensures AddFile(p + [f] + rest, g) == p + [g] + rest
  {
    var all := p + [f] + rest;
    AddListed(all, all, |p|, g);
  }

  /** With unique names membership and lookup agree. */
  lemma FindMember(files: seq<FileData>, f: FileData)
    requires UniqueNames(files)
    ensures f in files <==> FindFile(files, f.name) == Some(f)
  {
    if f in files {
      var i :| 0 <= i < |files| && files[i] == f;
      FindUnique(files, i);
    }
  }
}
