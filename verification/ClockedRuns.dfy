/** Runs whose dates come from an increasing clock: their edits are permitted ones, so nothing is lost. */
module ClockedRuns {
  import opened Items
  import opened Snapshots
  import opened SnapshotRuns
  import opened SnapshotSafety
  import opened WorkitemRuns

  /** No date and no stamp in a version name lies after `last`. */
  ghost predicate InPast(cfg: Settings, files: seq<FileData>, last: int) {
    && (forall f :: f in files && FileDate(f).Some? ==> FileDate(f).value <= last)
    && (forall f, n, d :: f in files && IsVersionOf(cfg, f.name, n, d) ==> d <= last)
  }

  /** A labelled file carries the date of the event or none, or the date that the file had in the snapshot,
      if that one gets no version. */
  predicate DatedByClock(cfg: Settings, files: seq<FileData>, ch: Change, f: FileData) {
    || FileDate(f).None? || FileDate(f) == Some(ch.t)
    || (FindFile(files, f.name).Some? && FileDate(f) == FileDate(FindFile(files, f.name).value)
        && !IsProtected(cfg, files, f, ch.list))
  }

  ghost predicate ClockedFile(cfg: Settings, pool: iset<Bytes>, files: seq<FileData>, ch: Change, f: FileData) {
    && (f.content != [] ==> f.content in pool)
    && (f.content != [] || FindFile(files, f.name).None? ==> !IsVersion(cfg, f.name))
    && (f.content == [] && f.Md5Attribute() != "" ==>
          FindFile(files, f.name).Some? && FindFile(files, f.name).value.Md5Attribute() == f.Md5Attribute())
    && DatedByClock(cfg, files, ch, LabelFile(cfg, f, ch.t, ch.user))
  }

  function Later(ch: Change): int { if ch.t < ch.v then ch.v else ch.t }

  /** The event, and the date given to versions without one, come after everything before, and differ. */
  ghost predicate ClockedEdit(cfg: Settings, pool: iset<Bytes>, files: seq<FileData>, last: int, ch: Change) {
    && UniqueNames(ch.edited) && (forall f :: f in ch.edited ==> ClockedFile(cfg, pool, files, ch, f))
    && IsDate(ch.t) && IsDate(ch.v) && last < ch.t && last < ch.v && ch.t != ch.v
  }

  /** A file is dated by the clock if it comes without label, with the label it has in the snapshot, or as an
      upload of more than one byte with the checksum of other bytes or without a date of modification. */
  lemma UploadsAreDated(cfg: Settings, files: seq<FileData>, ch: Change, f: FileData)
    requires
      || (f.Md5Attribute() == "" && FileDate(f).None?)
      || (|f.content| > 1 && f.Md5Attribute() != "" && f.Md5Attribute() != cfg.md5(f.content))
      || (|f.content| > 1 && GetDate(f.attributes, MODIFIED).None?)
      || (FindFile(files, f.name).Some? && f.Md5Attribute() == FindFile(files, f.name).value.Md5Attribute()
          && FileDate(f) == FileDate(FindFile(files, f.name).value)
          && (f.Md5Attribute() == "" ==> FileDate(f).None?))
    ensures DatedByClock(cfg, files, ch, LabelFile(cfg, f, ch.t, ch.user))
  {
    var l := LabelFile(cfg, f, ch.t, ch.user);
    assert |f.content| > 1 ==> l.Md5Attribute() == cfg.md5(f.content);
  }

  /** What the clock dates is permitted. */
  lemma ClockPermits(cfg: Settings, pool: iset<Bytes>, files: seq<FileData>, last: int, ch: Change)
    requires Inv(cfg, pool, files) && InPast(cfg, files, last) && ClockedEdit(cfg, pool, files, last, ch)
    ensures Permitted(cfg, pool, files, ch)
  {
    forall f | f in ch.edited ensures DatesDiffer(cfg, files, ch, LabelFile(cfg, f, ch.t, ch.user)) {
      ClockedDates(cfg, pool, files, last, ch, f);
    }
  }

  lemma ClockedDates(cfg: Settings, pool: iset<Bytes>, files: seq<FileData>, last: int, ch: Change, f: FileData)
    requires Inv(cfg, pool, files) && InPast(cfg, files, last) && ClockedEdit(cfg, pool, files, last, ch)
    requires f in ch.edited
    ensures DatesDiffer(cfg, files, ch, LabelFile(cfg, f, ch.t, ch.user))
  {
    var prior := FindFile(files, f.name);
    assert ClockedFile(cfg, pool, files, ch, f);
    assert prior.Some? ==> FileOk(cfg, pool, prior.value) && DateUnstamped(cfg, files, prior.value);
  }

  /** The next snapshot lies in the past of the clock again. */
  lemma ClockKeepsPast(cfg: Settings, pool: iset<Bytes>, files: seq<FileData>, last: int, ch: Change)
    requires Allowed(cfg, pool, files, ch) && InPast(cfg, files, last) && ClockedEdit(cfg, pool, files, last, ch)
    ensures InPast(cfg, Next(cfg, files, ch), Later(ch))
  {
    forall x | x in Next(cfg, files, ch)
      ensures FileDate(x).Some? ==> FileDate(x).value <= Later(ch)
      ensures forall n, d :: IsVersionOf(cfg, x.name, n, d) ==> d <= Later(ch)
    {
      NextMember(cfg, files, ch, x);
      if f :| f in ch.Labelled(cfg) && x == Fill(files, f) {
        FilledInPast(cfg, pool, files, last, ch, f);
      } else {
        var f :| Guarded(cfg, files, ch, f) && x == Kept(cfg, files, ch, f);
        KeptInPast(cfg, pool, files, last, ch, f);
      }
    }
  }

  lemma FilledInPast(cfg: Settings, pool: iset<Bytes>, files: seq<FileData>, last: int, ch: Change, f: FileData)
    requires Allowed(cfg, pool, files, ch) && InPast(cfg, files, last) && ClockedEdit(cfg, pool, files, last, ch)
    requires f in ch.Labelled(cfg)
    ensures var x := Fill(files, f);
            && (FileDate(x).Some? ==> FileDate(x).value <= Later(ch))
            && (forall n, d :: IsVersionOf(cfg, x.name, n, d) ==> d <= Later(ch))
  {
    var e := EditedFile(cfg, pool, files, ch, f);
    FilledOk(cfg, pool, files, ch, f);
    assert ClockedFile(cfg, pool, files, ch, e);
    forall n, d | IsVersionOf(cfg, f.name, n, d) ensures d <= Later(ch) {
      assert IsVersion(cfg, f.name);
      var g := FindFile(files, f.name).value;
      assert g in files && IsVersionOf(cfg, g.name, n, d);
    }
  }

  lemma KeptInPast(cfg: Settings, pool: iset<Bytes>, files: seq<FileData>, last: int, ch: Change, f: FileData)
    requires Allowed(cfg, pool, files, ch) && InPast(cfg, files, last) && ClockedEdit(cfg, pool, files, last, ch)
    requires Guarded(cfg, files, ch, f)
    ensures var x := Kept(cfg, files, ch, f);
            && (FileDate(x).Some? ==> FileDate(x).value <= Later(ch))
            && (forall n, d :: IsVersionOf(cfg, x.name, n, d) ==> d <= Later(ch))
  {
    GuardedFile(cfg, pool, files, ch, f);
    var x, g := Kept(cfg, files, ch, f), FindFile(files, f.name).value;
    assert FileDate(x) == FileDate(g);
    forall n, d | IsVersionOf(cfg, x.name, n, d) ensures d <= Later(ch) {
      VersionUnique(cfg, pool, x.name, n, d, f.name, KeptDate(files, ch, f));
    }
  }

  // ---- runs ----

  ghost predicate ClockedAt(cfg: Settings, pool: iset<Bytes>, uid: string, run: Run, times: seq<int>, k: nat)
    requires |run.stores| == |times| == |run.rounds| + 1 && k < |run.rounds|
  {
    && ContinuesAt(cfg, uid, run, k)
    && ClockedEdit(cfg, pool, CurrentFiles(run.stores[k], uid), times[k], run.rounds[k].Edit())
    && times[k + 1] == Later(run.rounds[k].Edit())
  }

  /** The current files after round `k` satisfy the invariant and lie in the past. */
  ghost predicate PastAt(cfg: Settings, pool: iset<Bytes>, uid: string, run: Run, times: seq<int>, k: nat)
    requires |run.stores| == |times| && k < |times|
  {
    var files := CurrentFiles(run.stores[k], uid);
    Inv(cfg, pool, files) && InPast(cfg, files, times[k])
  }

  /** A run and the latest date used up to each of its stores. */
  ghost predicate ClockedRun(cfg: Settings, pool: iset<Bytes>, uid: string, run: Run, times: seq<int>) {
    && |run.stores| == |times| == |run.rounds| + 1 && Sound(cfg, pool) && PastAt(cfg, pool, uid, run, times, 0)
    && forall k: nat :: k < |run.rounds| ==> ClockedAt(cfg, pool, uid, run, times, k)
  }

  lemma {:induction false} ClockedUpTo(cfg: Settings, pool: iset<Bytes>, uid: string, run: Run, times: seq<int>, k: nat)
    requires ClockedRun(cfg, pool, uid, run, times) && k <= |run.rounds|
    ensures PastAt(cfg, pool, uid, run, times, k)
  {
    if k > 0 {
      ClockedUpTo(cfg, pool, uid, run, times, k - 1);
      NextOfRun(cfg, pool, uid, run, times, k - 1);
    }
  }

  lemma NextOfRun(cfg: Settings, pool: iset<Bytes>, uid: string, run: Run, times: seq<int>, k: nat)
    requires ClockedRun(cfg, pool, uid, run, times) && k < |run.rounds| && PastAt(cfg, pool, uid, run, times, k)
    ensures StepAt(cfg, pool, uid, run, k) && PastAt(cfg, pool, uid, run, times, k + 1)
  {
    assert ClockedAt(cfg, pool, uid, run, times, k);
    ClockedStep(cfg, pool, uid, run, times, k);
  }

  lemma ClockedStep(cfg: Settings, pool: iset<Bytes>, uid: string, run: Run, times: seq<int>, k: nat)
    requires |run.stores| == |times| == |run.rounds| + 1 && k < |run.rounds| && Sound(cfg, pool)
    requires ClockedAt(cfg, pool, uid, run, times, k) && PastAt(cfg, pool, uid, run, times, k)
    ensures StepAt(cfg, pool, uid, run, k) && PastAt(cfg, pool, uid, run, times, k + 1)
  {
    var files, ch := CurrentFiles(run.stores[k], uid), run.rounds[k].Edit();
    ClockPermits(cfg, pool, files, times[k], ch);
    RoundEffect(cfg, pool, run.stores[k], uid, run.rounds[k]);
    SaveKeepsInv(cfg, pool, files, ch);
    ClockKeepsPast(cfg, pool, files, times[k], ch);
  }

  /** A run whose dates come from an increasing clock is a good run, so that `NothingIsLost` holds for it. */
  lemma ClockedRunIsGood(cfg: Settings, pool: iset<Bytes>, uid: string, run: Run, times: seq<int>)
    requires ClockedRun(cfg, pool, uid, run, times)
    ensures GoodRun(cfg, pool, uid, run)
  {
    forall k: nat | k < |run.rounds| ensures StepAt(cfg, pool, uid, run, k) {
      ClockedUpTo(cfg, pool, uid, run, times, k);
      NextOfRun(cfg, pool, uid, run, times, k);
    }
    assert InvAt(cfg, pool, uid, run, 0);
  }
}
