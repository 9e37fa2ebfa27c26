/** Snapshot ids: the id of the origin document, a dash and the creation time in milliseconds. */
module Ids {
  import opened Order
  import opened Items

  const MAX_LONG := 0x7FFF_FFFF_FFFF_FFFF

  function LastIndexBefore(s: string, c: char, end: nat): (i: int)
    requires end <= |s|
    ensures -1 <= i < end
    ensures i >= 0 ==> s[i] == c
    ensures forall j :: i < j < end ==> s[j] != c
  {
    if end == 0 then -1 else if s[end - 1] == c then end - 1 else LastIndexBefore(s, c, end - 1)
  }

  function LastIndexOf(s: string, c: char): (i: int)
    ensures -1 <= i < |s|
    ensures i >= 0 ==> s[i] == c
    ensures forall j :: i < j < |s| ==> s[j] != c
  {
    LastIndexBefore(s, c, |s|)
  }

  function GetUniqueID(snapshotId: string): Option<string> {
    var i := LastIndexOf(snapshotId, '-');
    if i >= 0 then Some(snapshotId[..i]) else None
  }

  predicate IsDigit(c: char) { '0' <= c <= '9' }

  function DigitValue(c: char): (n: nat)
    requires IsDigit(c)
  {
    c as int - '0' as int
  }

  function DigitsValue(s: string): (n: nat)
    requires forall c :: c in s ==> IsDigit(c)
  {
    if s == [] then 0 else
    assert s[|s| - 1] in s;
    10 * DigitsValue(s[..|s| - 1]) + DigitValue(s[|s| - 1])
  }

  /** Long.parseLong on text without a minus sign; None is the NumberFormatException. */
  function ParseLong(s: string): (r: Option<int>)
    ensures r.Some? ==> 0 <= r.value <= MAX_LONG
  {
    var digits := if s != [] && s[0] == '+' then s[1..] else s;
    if digits != [] && (forall c :: c in digits ==> IsDigit(c)) && DigitsValue(digits) <= MAX_LONG
    then Some(DigitsValue(digits)) else None
  }

  function GetSnapshotTime(snapshotId: string): Option<int> {
    var i := LastIndexOf(snapshotId, '-');
    if i >= 0 then ParseLong(snapshotId[i + 1..]) else Some(0)
  }

  predicate IsHex(c: char) { IsDigit(c) || 'a' <= c <= 'f' }

  predicate AllHex(s: string) { forall c :: c in s ==> IsHex(c) }

  /** `[0-9a-f]{n}-.*` where the dot matches anything but a line terminator. */
  predicate HexDashAny(s: string, n: nat) {
    n < |s| && AllHex(s[..n]) && s[n] == '-'
    && forall c :: c in s[n + 1..] ==> c !in ['\n', '\r', '\U{0085}', '\U{2028}', '\U{2029}']
  }

  /** What a UUID with a time suffix has at a position. */
  predicate UuidCharAt(i: int, c: char) {
    if i in {8, 13, 18, 23, 36} then c == '-' else if i < 36 then IsHex(c) else IsDigit(c)
  }

  /** A UUID, a dash and 13 to 15 digits. */
  predicate IsUuidSnapshotID(s: string) {
    50 <= |s| <= 52 && forall i :: 0 <= i < |s| ==> UuidCharAt(i, s[i])
  }

  predicate IsSnapshotID(uid: string) {
    IsUuidSnapshotID(uid) || HexDashAny(uid, 8) || HexDashAny(uid, 11)
  }

  /** Exactly these ids are accepted: eight or eleven hexadecimal digits, a dash, and any text in one line.
      An id made of a UUID is one of them. */
  lemma AcceptedIds(uid: string)
    ensures IsSnapshotID(uid) <==>
            exists n :: n in {8, 11} && n < |uid| && uid[n] == '-'
                        && (forall c :: c in uid[..n] ==> c in "0123456789abcdef")
                        && (forall c :: c in uid[n + 1..] ==> c !in ['\n', '\r', '\U{0085}', '\U{2028}', '\U{2029}'])
  {
    if IsUuidSnapshotID(uid) { UuidIsHexDashAny(uid); }
    assert forall c :: IsHex(c) <==> c in "0123456789abcdef" by { HexDigits(); }
    if HexDashAny(uid, 8) { assert 8 in {8, 11}; }
    if HexDashAny(uid, 11) { assert 11 in {8, 11}; }
  }

  lemma HexDigits()
    ensures forall c :: IsHex(c) <==> c in "0123456789abcdef"
  {
    forall c ensures IsHex(c) <==> c in "0123456789abcdef" {
      var digits := "0123456789abcdef";
      if IsDigit(c) { assert digits[c as int - '0' as int] == c; }
      else if 'a' <= c <= 'f' { assert digits[10 + (c as int - 'a' as int)] == c; }
    }
  }

  /** The form of a UUID with a time is a special case of the older form. */
  lemma UuidIsHexDashAny(uid: string)
    requires IsUuidSnapshotID(uid)
    ensures HexDashAny(uid, 8)
  {
    forall i | 0 <= i < |uid| ensures UuidCharAt(i, uid[i]) {}
    assert forall c :: c in uid[..8] ==> IsHex(c);
    assert forall c :: c in uid[9..] ==> IsHex(c) || c == '-';
  }

  lemma SnapshotIdsHaveOrigins(uid: string)
    requires IsSnapshotID(uid)
    ensures GetUniqueID(uid).Some?
  {
    assert IsUuidSnapshotID(uid) ==> UuidCharAt(8, uid[8]);
    assert '-' in uid;
  }

  // ---- construction of ids ----

  function Decimal(n: nat): (s: string)
    ensures s != [] && forall c :: c in s ==> IsDigit(c)
    ensures DigitsValue(s) == n
  {
    var last := '0' + (n % 10) as char;
    if n < 10 then [last] else Decimal(n / 10) + [last]
  }

  function MakeSnapshotID(uniqueId: string, time: nat): string { uniqueId + "-" + Decimal(time) }

  lemma LastIndexUnique(s: string, c: char, i: nat)
    requires i < |s| && s[i] == c && forall j :: i < j < |s| ==> s[j] != c
    ensures LastIndexOf(s, c) == i
  {
  }

  lemma LastDash(u: string, d: string)
    requires '-' !in d
    ensures LastIndexOf(u + "-" + d, '-') == |u|
  {
    var id := u + "-" + d;
    forall j | |u| < j < |id| ensures id[j] != '-' {
      assert d[j - |u| - 1] in d && id[j] == d[j - |u| - 1];
    }
    LastIndexUnique(id, '-', |u|);
  }

  /** Taking an id apart recovers both parts it was built from, the time as far as it is a long. */
  lemma IdRoundTrip(uniqueId: string, time: nat)
    ensures GetUniqueID(MakeSnapshotID(uniqueId, time)) == Some(uniqueId)
    ensures GetSnapshotTime(MakeSnapshotID(uniqueId, time)) == if time <= MAX_LONG then Some(time) else None
  {
    var d := Decimal(time);
    LastDash(uniqueId, d);
    assert MakeSnapshotID(uniqueId, time)[..|uniqueId|] == uniqueId;
    assert MakeSnapshotID(uniqueId, time)[|uniqueId| + 1..] == d;
    assert d[0] in d;
  }

  // ---- text order and numeric order ----

  predicate Wide(t: nat) { 1_000_000_000_000 <= t <= 9_999_999_999_999 }

  function Power10(n: nat): nat { if n == 0 then 1 else 10 * Power10(n - 1) }

  /** Equally long digit strings are ordered as the numbers they denote. */
  lemma {:induction false} DigitsOrder(a: string, b: string)
    requires |a| == |b| && (forall c :: c in a ==> IsDigit(c)) && (forall c :: c in b ==> IsDigit(c))
    ensures StrLeq(a, b) <==> DigitsValue(a) <= DigitsValue(b)
    decreases |a|
  {
    if a != [] {
      var a', b', n := a[..|a| - 1], b[..|b| - 1], |a| - 1;
      DigitsOrder(a', b');
      LastMatters(a, b);
      if StrLeq(a', b') && StrLeq(b', a') { StrAntisymmetric(a', b'); }
      DigitsOrder(b', a');
      assert a[n] in a && b[n] in b;
    }
  }

  /** The last character decides only if everything before it agrees. */
  lemma {:induction false} LastMatters(a: string, b: string)
    requires |a| == |b| > 0
    ensures StrLeq(a, b) <==>
            var a', b', n := a[..|a| - 1], b[..|b| - 1], |a| - 1;
            StrLeq(a', b') && (a' == b' ==> a[n] <= b[n])
  {
    if |a| > 1 {
      LastMatters(a[1..], b[1..]);
      var n := |a| - 1;
      assert a[1..][..n - 1] == a[..n][1..] && b[1..][..n - 1] == b[..n][1..];
      assert a[..n] == [a[0]] + a[..n][1..] && b[..n] == [b[0]] + b[..n][1..];
    }
  }

  lemma {:induction false} DecimalWidth(n: nat, w: nat)
    requires w > 0 && n < Power10(w) && (w > 1 ==> Power10(w - 1) <= n)
    ensures |Decimal(n)| == w
  {
    if w > 1 {
      assert n >= 10 by { assert Power10(1) == 10; PowerGrows(1, w - 1); }
      DecimalWidth(n / 10, w - 1);
    } else { assert n < 10 by { assert Power10(1) == 10; } }
  }

  lemma {:induction false} PowerGrows(a: nat, b: nat)
    requires a <= b
    ensures Power10(a) <= Power10(b)
  {
    if a < b { PowerGrows(a, b - 1); }
  }

  lemma WideIsThirteen(t: nat)
    requires Wide(t)
    ensures |Decimal(t)| == 13
  {
    assert Power10(6) == 1_000_000;
    assert Power10(12) == 1_000_000_000_000 by { assert Power10(9) == 1_000_000_000; }
    DecimalWidth(t, 13);
  }

  /** Within one workitem the text order of snapshot ids is the order of their creation times. */
  lemma IdOrder(uniqueId: string, s: nat, t: nat)
    requires Wide(s) && Wide(t)
    ensures StrLeq(MakeSnapshotID(uniqueId, s), MakeSnapshotID(uniqueId, t)) <==> s <= t
  {
    WideIsThirteen(s); WideIsThirteen(t);
    StrPrefix(uniqueId + "-", Decimal(s), Decimal(t));
    DigitsOrder(Decimal(s), Decimal(t));
  }

  /** The ranges used by the history and delete queries: strictly above `u-`, at most `u-...`. */
  predicate InRange(id: string, uniqueId: string, upTo: string) {
    StrLeq(uniqueId + "-", id) && id != uniqueId + "-" && StrLeq(id, uniqueId + "-" + upTo)
  }

  /** A range query selects no snapshot of another workitem whose id is equally long. */
  lemma RangeStaysInWorkitem(id: string, uniqueId: string, upTo: string, other: string, time: nat)
    requires InRange(id, uniqueId, upTo)
    requires id == MakeSnapshotID(other, time) && |other| == |uniqueId|
    ensures other == uniqueId
  {
    StrBetween(uniqueId + "-", id, upTo);
    assert uniqueId == (uniqueId + "-")[..|uniqueId|] == id[..|uniqueId|] == other;
  }

  /** For thirteen-digit times a range query finds exactly the workitem's snapshots in the time
      range, whether the upper end belongs to it or not. */
  lemma RangeIsTimeRange(uniqueId: string, t: nat, upTo: nat)
    requires Wide(t) && Wide(upTo)
    ensures var id := MakeSnapshotID(uniqueId, t);
            && (InRange(id, uniqueId, Decimal(upTo)) <==> t <= upTo)
            && (InRange(id, uniqueId, Decimal(upTo)) && id != MakeSnapshotID(uniqueId, upTo) <==> t < upTo)
  {
    var p, d := uniqueId + "-", Decimal(t);
    assert p + [] == p;
    StrPrefix(p, [], d);
    IdOrder(uniqueId, t, upTo);
    OtherTimeOtherId(uniqueId, t, upTo);
  }

  lemma OtherTimeOtherId(uniqueId: string, s: nat, t: nat)
    requires Wide(s) && Wide(t)
    ensures MakeSnapshotID(uniqueId, s) == MakeSnapshotID(uniqueId, t) <==> s == t
  {
    var a, b := MakeSnapshotID(uniqueId, s), MakeSnapshotID(uniqueId, t);
    IdOrder(uniqueId, s, t);
    IdOrder(uniqueId, t, s);
    if a == b { StrTotal(a, b); }
  }
}
