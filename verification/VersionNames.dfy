/** The names under which overwritten file contents are kept. */
module VersionNames {
  import opened Ids

  /** The shape of `[yyyy-MM-dd'T'HH:mm:ss.SSS'Z']` for four-digit years. */
  predicate IsStamp(s: string) {
    && |s| == 26
    && s[0] == '[' && s[5] == '-' && s[8] == '-' && s[11] == 'T' && s[14] == ':' && s[17] == ':'
    && s[20] == '.' && s[24] == 'Z' && s[25] == ']'
    && forall i :: 1 <= i < 24 && i !in {5, 8, 11, 14, 17, 20} ==> IsDigit(s[i])
  }

  function Extension(fileName: string): (e: string) {
    var dot := LastIndexOf(fileName, '.');
    if dot > 0 then fileName[dot..] else ""
  }

  function BaseName(fileName: string): (b: string)
    ensures b + Extension(fileName) == fileName
  {
    fileName[..|fileName| - |Extension(fileName)|]
  }

  /** The time stamp goes in front of the extension; a leading dot does not start one. */
  function VersionName(fileName: string, stamp: string): string {
    var dot := LastIndexOf(fileName, '.');
    if dot > 0 then fileName[..dot] + "-" + stamp + fileName[dot..] else fileName + "-" + stamp
  }

  /** The name of a version: the stamp stands in front of the last dot, or at the end of a name without a dot or
      with a leading one only. */
  lemma VersionNameShape(base: string, extension: string, stamp: string)
    requires base != "" && '.' !in extension
    ensures VersionName(base + "." + extension, stamp) == base + "-" + stamp + "." + extension
    ensures VersionName("." + extension, stamp) == "." + extension + "-" + stamp
    ensures VersionName(extension, stamp) == extension + "-" + stamp
  {
    var name, hidden := base + "." + extension, "." + extension;
    forall j | |base| < j < |name| ensures name[j] != '.' { assert name[j] == extension[j - |base| - 1]; }
    LastIndexUnique(name, '.', |base|);
    forall j | 0 < j < |hidden| ensures hidden[j] != '.' { assert hidden[j] == extension[j - 1]; }
    LastIndexUnique(hidden, '.', 0);
    assert forall j :: 0 <= j < |extension| ==> extension[j] in extension;
    assert name[..|base|] == base && name[|base|..] == "." + extension;
    assert base + "-" + stamp + ("." + extension) == base + "-" + stamp + "." + extension;
  }

  lemma VersionParts(fileName: string, stamp: string)
    requires IsStamp(stamp)
    ensures var r, b, e := VersionName(fileName, stamp), BaseName(fileName), Extension(fileName);
            && |r| == |b| + 27 + |e| && r[..|b|] == b && r[|b|] == '-' && r[|b| + 1..|b| + 27] == stamp
            && r[|b| + 27..] == e
  {
    var r, b, e := VersionName(fileName, stamp), BaseName(fileName), Extension(fileName);
    if LastIndexOf(fileName, '.') <= 0 { assert b == fileName; }
    assert r == b + "-" + stamp + e;
  }

  /** The last dot of a version name is where its extension starts, or the dot of the stamp. */
  lemma LastDot(fileName: string, stamp: string)
    requires IsStamp(stamp)
    ensures var r, e := VersionName(fileName, stamp), Extension(fileName);
            LastIndexOf(r, '.') == if e == "" then |r| - 6 else |r| - |e|
  {
    VersionParts(fileName, stamp);
    var r, b, e := VersionName(fileName, stamp), BaseName(fileName), Extension(fileName);
    var dot := LastIndexOf(fileName, '.');
    if e == "" {
      forall j | |r| - 6 < j < |r| ensures r[j] != '.' { assert r[j] == stamp[j - |b| - 1]; }
      assert r[|r| - 6] == stamp[20];
      LastIndexUnique(r, '.', |r| - 6);
    } else {
      forall j | |r| - |e| <= j < |r| ensures r[j] == fileName[dot + j - (|r| - |e|)] {
        assert r[|b| + 27..][j - (|r| - |e|)] == e[j - (|r| - |e|)];
      }
      LastIndexUnique(r, '.', |r| - |e|);
    }
  }

  /** Versions of different files, or of one file with different stamps, never share a name. */
  lemma VersionNameInjective(n1: string, s1: string, n2: string, s2: string)
    requires IsStamp(s1) && IsStamp(s2) && VersionName(n1, s1) == VersionName(n2, s2)
    ensures n1 == n2 && s1 == s2
  {
    if |Extension(n1)| == |Extension(n2)| {
      VersionParts(n1, s1);
      VersionParts(n2, s2);
    } else if |Extension(n1)| < |Extension(n2)| {
      ExtensionsDiffer(n1, s1, n2, s2);
    } else {
      ExtensionsDiffer(n2, s2, n1, s1);
    }
  }

  /** What stands in front of the extension closes a stamp; without an extension the seventh
      character from the end is a digit of the stamp. */
  lemma VersionTail(fileName: string, stamp: string)
    requires IsStamp(stamp)
    ensures var r, e := VersionName(fileName, stamp), Extension(fileName);
            |r| > |e| + 26 && r[|r| - |e| - 1] == ']' && (e == "" ==> IsDigit(r[|r| - 7]))
  {
    VersionParts(fileName, stamp);
    var r, b := VersionName(fileName, stamp), BaseName(fileName);
    assert r[|b| + 1..|b| + 27][25] == stamp[25] && r[|b| + 1..|b| + 27][19] == stamp[19];
  }

  /** If the extensions differ in length, the longer one would have to be exactly `.SSSZ]` of the
      other stamp, and the bracket that closes its own stamp would fall on a digit. */
  lemma ExtensionsDiffer(n1: string, s1: string, n2: string, s2: string)
    requires IsStamp(s1) && IsStamp(s2) && |Extension(n1)| < |Extension(n2)|
    ensures VersionName(n1, s1) != VersionName(n2, s2)
  {
    LastDot(n1, s1);
    LastDot(n2, s2);
    VersionTail(n1, s1);
    VersionTail(n2, s2);
  }
}
