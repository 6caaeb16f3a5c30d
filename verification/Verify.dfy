/** The drift checker, against replaying every applied file over a set of names.
    Source: internal/verify/collect.go. */
module Verify {
  import opened Wrappers
  import opened Ordered
  import opened Ledger
  import opened Migrations
  import opened DdlCheck
  import Hashes

  /** One file's operations in source order, under its version. */
  datatype Migration = Migration(version: nat, ops: seq<Operation>)

  ghost predicate AscendingVersions(ms: seq<Migration>) {
    forall i, j :: 0 <= i < j < |ms| ==> ms[i].version < ms[j].version
  }

  /** The names that exist after running every file in order on an empty database. */
  function Names(ms: seq<Migration>): set<ObjectRef> {
    if ms == [] then {} else RunOps(Names(ms[..|ms| - 1]), ms[|ms| - 1].ops)
  }

  predicate Touches(m: Migration, ref: ObjectRef) {
    LastKind(m.ops, ref) >= 0
  }

  /** The index of the last file that has something to say about `ref`, or -1. */
  function LastTouch(ms: seq<Migration>, ref: ObjectRef): (k: int)
    ensures -1 <= k < |ms|
    ensures k >= 0 ==> Touches(ms[k], ref)
    ensures forall i :: k < i < |ms| ==> !Touches(ms[i], ref)
  {
    if ms == [] then -1
    else if Touches(ms[|ms| - 1], ref) then |ms| - 1
    else LastTouch(ms[..|ms| - 1], ref)
  }

  /** A name survives the replay exactly when the last file that touches it leaves it. */
  lemma {:induction false} NamesMean(ms: seq<Migration>, ref: ObjectRef)
    ensures var k := LastTouch(ms, ref);
            ref in Names(ms) <==> k >= 0 && MustExist(LifecycleOf(ms[k].ops), ref)
  {
    if ms != [] {
      var last := ms[|ms| - 1];
      NamesMean(ms[..|ms| - 1], ref);
      RunOpsMeans(Names(ms[..|ms| - 1]), last.ops, ref);
      LifecycleMeans(last.ops, ref);
    }
  }

  // ----- The ownership map -----

  ghost predicate Owns(ms: seq<Migration>, lastWord: map<ObjectRef, nat>) {
    forall ref :: var k := LastTouch(ms, ref);
      && (ref in lastWord <==> k >= 0)
      && (k >= 0 ==> lastWord[ref] == ms[k].version)
  }

  /** Gives the version every name its file leaves behind, staging names aside, and every
      name it ends without. */
  method Claim(lastWord: map<ObjectRef, nat>, version: nat, lc: Lifecycle) returns (after: map<ObjectRef, nat>)
    ensures forall ref :: ref in after <==> ref in lastWord || MustExist(lc, ref) || ref in lc.destroyed
    ensures forall ref :: ref in after ==>
              after[ref] == if MustExist(lc, ref) || ref in lc.destroyed then version else lastWord[ref]
  {
    after := lastWord;
    for i := 0 to |lc.leftBehind|
      invariant forall ref :: ref in after <==> ref in lastWord || (ref in lc.leftBehind[..i] && !lc.Temporary(ref))
      invariant forall ref :: ref in after ==>
                  after[ref] == if ref in lc.leftBehind[..i] && !lc.Temporary(ref) then version else lastWord[ref]
    {
      assert lc.leftBehind[..i + 1] == lc.leftBehind[..i] + [lc.leftBehind[i]];
      if lc.Temporary(lc.leftBehind[i]) {
        continue;
      }
      after := after[lc.leftBehind[i] := version];
    }
    assert lc.leftBehind[..|lc.leftBehind|] == lc.leftBehind;
    for i := 0 to |lc.destroyed|
      invariant forall ref :: ref in after <==> ref in lastWord || MustExist(lc, ref) || ref in lc.destroyed[..i]
      invariant forall ref :: ref in after ==>
                  after[ref] == if MustExist(lc, ref) || ref in lc.destroyed[..i] then version else lastWord[ref]
    {
      assert lc.destroyed[..i + 1] == lc.destroyed[..i] + [lc.destroyed[i]];
      after := after[lc.destroyed[i] := version];
    }
    assert lc.destroyed[..|lc.destroyed|] == lc.destroyed;
  }

  lemma ClaimOwns(ms: seq<Migration>, m: Migration, lastWord: map<ObjectRef, nat>, after: map<ObjectRef, nat>)
    requires Owns(ms, lastWord)
    requires var lc := LifecycleOf(m.ops);
             && (forall ref :: ref in after <==> ref in lastWord || MustExist(lc, ref) || ref in lc.destroyed)
             && (forall ref :: ref in after ==>
                   after[ref] == if MustExist(lc, ref) || ref in lc.destroyed then m.version else lastWord[ref])
    ensures Owns(ms + [m], after)
  {
    assert (ms + [m])[..|ms|] == ms;
    forall ref
      ensures var k := LastTouch(ms + [m], ref);
              && (ref in after <==> k >= 0)
              && (k >= 0 ==> after[ref] == (ms + [m])[k].version)
    {
      LifecycleMeans(m.ops, ref);
      var k := LastTouch(ms, ref);
    }
  }

  /** A name one file must leave in place is not excused by a later owner exactly when
      the replay ends with it and that file is the one that left it. */
  lemma UnexcusedIsLeftBy(ms: seq<Migration>, lastWord: map<ObjectRef, nat>, i: nat, ref: ObjectRef)
    requires AscendingVersions(ms) && Owns(ms, lastWord) && i < |ms|
    ensures MustExist(LifecycleOf(ms[i].ops), ref) && !(ref in lastWord && lastWord[ref] > ms[i].version)
            <==> ref in Names(ms) && LastTouch(ms, ref) == i
  {
    NamesMean(ms, ref);
    LifecycleMeans(ms[i].ops, ref);
    var k := LastTouch(ms, ref);
    if k > i {
      assert ms[k].version > ms[i].version;
    }
  }

  // ----- The reports -----

  datatype Detail = NoFile | FileEdited | Missing(ref: ObjectRef) | StillExists(ref: ObjectRef)

  datatype Finding = Finding(version: nat, drift: bool, details: seq<Detail>)

  /** What the checker reads: the directory, the operations of a text (in the extractor's
      order), the file hash, and the objects that exist. */
  datatype Sources = Sources(
    dir: Dir, extract: string -> seq<Operation>, digest: string -> string, live: set<ObjectRef>)
  {
    function MigrationOf(f: File): Migration {
      Migration(f.version, StableSort(extract(f.sql)))
    }

    /** The applied rows whose file is present, as files to replay in version order. */
    function AppliedFiles(entries: seq<Entry>): seq<Migration> {
      if entries == [] then []
      else
        var init, e := AppliedFiles(entries[..|entries| - 1]), entries[|entries| - 1];
        if e.row.status == Applied && e.version in dir.byVersion then init + [MigrationOf(dir.byVersion[e.version])]
        else init
    }

    function AllFiles(files: seq<File>): seq<Migration> {
      seq(|files|, i requires 0 <= i < |files| => MigrationOf(files[i]))
    }
  }

  /** Some name the replay ends with was left by `version` and does not exist. */
  ghost predicate LosesName(ms: seq<Migration>, version: nat, live: set<ObjectRef>) {
    exists ref :: ref in Names(ms) && ref !in live && LeftBy(ms, ref, version)
  }

  predicate LeftBy(ms: seq<Migration>, ref: ObjectRef, version: nat) {
    LastTouch(ms, ref) >= 0 && ms[LastTouch(ms, ref)].version == version
  }

  /** When one ledger row is reported as drift. */
  ghost predicate Drifts(src: Sources, ms: seq<Migration>, e: Entry) {
    if e.version !in src.dir.byVersion then e.row.status != Reverted
    else match e.row.status
         case Applied => Hashes.Mismatch(src.digest, src.dir, e.version, e.row) || LosesName(ms, e.version, src.live)
         case Reverted =>
           exists ref :: ref in src.live && MustExist(LifecycleOf(src.MigrationOf(src.dir.byVersion[e.version]).ops),
                                                      ref)
         case Applying => false
  }

  /** The report on one row is exact to the name: a missing object is reported at the one
      version that the replay says left it. */
  ghost predicate Explains(src: Sources, ms: seq<Migration>, e: Entry, f: Finding) {
    && f.version == e.version && (f.drift <==> f.details != [])
    && (NoFile in f.details <==> e.version !in src.dir.byVersion && e.row.status != Reverted)
    && (FileEdited in f.details <==>
          e.version in src.dir.byVersion && Hashes.Mismatch(src.digest, src.dir, e.version, e.row))
    && (forall ref :: Missing(ref) in f.details <==>
          && e.row.status == Applied && e.version in src.dir.byVersion
          && ref in Names(ms) && LeftBy(ms, ref, e.version) && ref !in src.live)
    && (forall ref :: StillExists(ref) in f.details <==>
          && e.row.status == Reverted && e.version in src.dir.byVersion && ref in src.live
          && MustExist(LifecycleOf(src.MigrationOf(src.dir.byVersion[e.version]).ops), ref))
  }

  ghost predicate AscendingEntries(entries: seq<Entry>) {
    forall i, j :: 0 <= i < j < |entries| ==> entries[i].version < entries[j].version
  }

  lemma {:induction false} AppliedFilesMean(src: Sources, entries: seq<Entry>)
    requires AscendingEntries(entries) && src.dir.UpIndexed()
    ensures AscendingVersions(src.AppliedFiles(entries))
    ensures forall m :: m in src.AppliedFiles(entries) <==>
              exists e :: && e in entries && e.row.status == Applied && e.version in src.dir.byVersion
                          && m == src.MigrationOf(src.dir.byVersion[e.version])
  {
    if entries != [] {
      var init, e := entries[..|entries| - 1], entries[|entries| - 1];
      AppliedFilesMean(src, init);
      assert entries == init + [e];
      var before := src.AppliedFiles(init);
      forall i | 0 <= i < |before|
        ensures before[i].version < e.version
      {
        assert before[i] in before;
        var d :| && d in init && d.version in src.dir.byVersion
                 && before[i] == src.MigrationOf(src.dir.byVersion[d.version]);
      }
    }
  }

  /** One of the names the file must leave in place is missing and not excused. */
  ghost predicate Unexcused(lc: Lifecycle, version: nat, lastWord: map<ObjectRef, nat>, live: set<ObjectRef>) {
    exists ref :: MustExist(lc, ref) && ref !in live && !(ref in lastWord && lastWord[ref] > version)
  }

  lemma OwnerIsLeaver(ms: seq<Migration>, lastWord: map<ObjectRef, nat>, m: Migration)
    requires AscendingVersions(ms) && Owns(ms, lastWord) && m in ms
    ensures forall ref ::
              MustExist(LifecycleOf(m.ops), ref) && !(ref in lastWord && lastWord[ref] > m.version)
              <==> ref in Names(ms) && LeftBy(ms, ref, m.version)
  {
    var i :| 0 <= i < |ms| && ms[i] == m;
    forall ref
      ensures MustExist(LifecycleOf(m.ops), ref) && !(ref in lastWord && lastWord[ref] > m.version)
              <==> ref in Names(ms) && LeftBy(ms, ref, m.version)
    {
      UnexcusedIsLeftBy(ms, lastWord, i, ref);
      NamesMean(ms, ref);
    }
  }

  lemma UnexcusedLosesName(ms: seq<Migration>, lastWord: map<ObjectRef, nat>, m: Migration, live: set<ObjectRef>)
    requires AscendingVersions(ms) && Owns(ms, lastWord) && m in ms
    ensures Unexcused(LifecycleOf(m.ops), m.version, lastWord, live) <==> LosesName(ms, m.version, live)
  {
    OwnerIsLeaver(ms, lastWord, m);
  }

  /** The objects part of one row's check. */
  method CheckObjects(lc: Lifecycle, version: nat, status: Status, lastWord: map<ObjectRef, nat>, live: set<ObjectRef>)
    returns (details: seq<Detail>)
    ensures forall d :: d in details ==> d.Missing? || d.StillExists?
    ensures forall ref :: Missing(ref) in details <==>
              && status == Applied && MustExist(lc, ref) && ref !in live
              && !(ref in lastWord && lastWord[ref] > version)
    ensures forall ref :: StillExists(ref) in details <==> status == Reverted && MustExist(lc, ref) && ref in live
  {
    details := [];
    for i := 0 to |lc.leftBehind|
      invariant forall d :: d in details ==> d.Missing? || d.StillExists?
      invariant forall ref :: Missing(ref) in details <==>
                  && status == Applied && ref in lc.leftBehind[..i] && !lc.Temporary(ref) && ref !in live
                  && !(ref in lastWord && lastWord[ref] > version)
      invariant forall ref :: StillExists(ref) in details <==>
                  status == Reverted && ref in lc.leftBehind[..i] && !lc.Temporary(ref) && ref in live
    {
      var obj := lc.leftBehind[i];
      assert lc.leftBehind[..i + 1] == lc.leftBehind[..i] + [obj];
      if lc.Temporary(obj) {
        continue;
      }
      var present := obj in live;
      var excused := obj in lastWord && lastWord[obj] > version;
      if status == Applied && !present && !excused {
        details := details + [Missing(obj)];
      }
      if status == Reverted && present {
        details := details + [StillExists(obj)];
      }
    }
    assert lc.leftBehind[..|lc.leftBehind|] == lc.leftBehind;
  }

  /** One ledger row, given the ownership map. */
  method CheckEntry(src: Sources, lastWord: map<ObjectRef, nat>, e: Entry) returns (f: Finding)
    ensures f.version == e.version && (f.drift <==> f.details != [])
    ensures e.version !in src.dir.byVersion ==> f.details == if e.row.status == Reverted then [] else [NoFile]
    ensures e.version in src.dir.byVersion ==>
              var lc := LifecycleOf(src.MigrationOf(src.dir.byVersion[e.version]).ops);
              && NoFile !in f.details
              && (FileEdited in f.details <==> Hashes.Mismatch(src.digest, src.dir, e.version, e.row))
              && (forall ref :: Missing(ref) in f.details <==>
                    && e.row.status == Applied && MustExist(lc, ref) && ref !in src.live
                    && !(ref in lastWord && lastWord[ref] > e.version))
              && (forall ref :: StillExists(ref) in f.details <==>
                    e.row.status == Reverted && MustExist(lc, ref) && ref in src.live)
  {
    if e.version !in src.dir.byVersion {
      if e.row.status == Reverted {
        return Finding(e.version, false, []);
      }
      return Finding(e.version, true, [NoFile]);
    }
    var content := src.dir.byVersion[e.version].sql;
    var lc := Resolve(src.extract(content));
    var drift, details := false, [];
    if e.row.status == Applied && e.row.hash != "" && e.row.source != ADOPTED {
      if src.digest(content) != e.row.hash {
        drift := true;
        details := details + [FileEdited];
      }
    }
    var objects := CheckObjects(lc, e.version, e.row.status, lastWord, src.live);
    if objects != [] {
      drift := true;
    }
    f := Finding(e.version, drift, details + objects);
  }

  /** The first pass: which version has the last word on each name. */
  method Owners(src: Sources, entries: seq<Entry>) returns (lastWord: map<ObjectRef, nat>)
    requires src.dir.UpIndexed()
    ensures Owns(src.AppliedFiles(entries), lastWord)
  {
    lastWord := map[];
    for i := 0 to |entries|
      invariant Owns(src.AppliedFiles(entries[..i]), lastWord)
    {
      var e := entries[i];
      assert entries[..i + 1][..i] == entries[..i];
      if e.row.status != Applied {
        continue;
      }
      if e.version !in src.dir.byVersion {
        continue;
      }
      var lc := Resolve(src.extract(src.dir.byVersion[e.version].sql));
      var after := Claim(lastWord, e.version, lc);
      ghost var m := src.MigrationOf(src.dir.byVersion[e.version]);
      assert m.version == e.version;
      ClaimOwns(src.AppliedFiles(entries[..i]), m, lastWord, after);
      lastWord := after;
    }
    assert entries[..|entries|] == entries;
  }

  /** The second pass, for one row. */
  method CheckRow(src: Sources, ghost entries: seq<Entry>, lastWord: map<ObjectRef, nat>, e: Entry) returns (f: Finding)
    requires AscendingEntries(entries) && src.dir.UpIndexed() && e in entries
    requires Owns(src.AppliedFiles(entries), lastWord)
    ensures Explains(src, src.AppliedFiles(entries), e, f)
  {
    f := CheckEntry(src, lastWord, e);
    LeftByEntry(src, entries, lastWord, e);
  }

  /** The drift report with a ledger: exact on every row. */
  method Collect(src: Sources, entries: seq<Entry>) returns (report: seq<Finding>)
    requires AscendingEntries(entries) && src.dir.UpIndexed()
    ensures |report| == |entries|
    ensures forall i :: 0 <= i < |entries| ==>
              && Explains(src, src.AppliedFiles(entries), entries[i], report[i])
              && (report[i].drift <==> Drifts(src, src.AppliedFiles(entries), entries[i]))
  {
    var lastWord := Owners(src, entries);
    ghost var ms := src.AppliedFiles(entries);
    report := [];
    for i := 0 to |entries|
      invariant |report| == i
      invariant forall j :: 0 <= j < i ==>
                  Explains(src, ms, entries[j], report[j]) && (report[j].drift <==> Drifts(src, ms, entries[j]))
    {
      var f := CheckRow(src, entries, lastWord, entries[i]);
      ExplainedDrifts(src, ms, entries[i], f);
      report := report + [f];
    }
  }

  /** What the ownership map decides about a name is what the replay says about it. */
  lemma LeftByEntry(src: Sources, entries: seq<Entry>, lastWord: map<ObjectRef, nat>, e: Entry)
    requires AscendingEntries(entries) && src.dir.UpIndexed() && e in entries
    requires Owns(src.AppliedFiles(entries), lastWord)
    ensures e.row.status == Applied && e.version in src.dir.byVersion ==>
              var ms := src.AppliedFiles(entries);
              forall ref ::
                && MustExist(LifecycleOf(src.MigrationOf(src.dir.byVersion[e.version]).ops), ref)
                && !(ref in lastWord && lastWord[ref] > e.version)
                <==> ref in Names(ms) && LeftBy(ms, ref, e.version)
  {
    if e.row.status == Applied && e.version in src.dir.byVersion {
      AppliedFilesMean(src, entries);
      OwnerIsLeaver(src.AppliedFiles(entries), lastWord, src.MigrationOf(src.dir.byVersion[e.version]));
    }
  }

  lemma HasDetail(details: seq<Detail>)
    requires details != []
    ensures exists d :: d in details &&
                        (d == NoFile || d == FileEdited || d == Missing(d.ref) || d == StillExists(d.ref))
  {
    assert details[0] in details;
  }

  /** An exact report says drift exactly for the rows that have drifted. */
  lemma ExplainedDrifts(src: Sources, ms: seq<Migration>, e: Entry, f: Finding)
    requires Explains(src, ms, e, f)
    ensures f.drift <==> Drifts(src, ms, e)
  {
    if f.details != [] {
      HasDetail(f.details);
    }
  }

  /** The first pass without a ledger: every file has a word. */
  method FileOwners(src: Sources, files: seq<File>) returns (lastWord: map<ObjectRef, nat>)
    ensures Owns(src.AllFiles(files), lastWord)
  {
    ghost var ms := src.AllFiles(files);
    lastWord := map[];
    for i := 0 to |files|
      invariant Owns(ms[..i], lastWord)
    {
      var lc := Resolve(src.extract(files[i].sql));
      var after := Claim(lastWord, files[i].version, lc);
      ClaimOwns(ms[..i], ms[i], lastWord, after);
      assert ms[..i + 1] == ms[..i] + [ms[i]];
      lastWord := after;
    }
    assert ms[..|files|] == ms;
  }

  /** A file's finding names one object that the replay says the file left and that does
      not exist, or nothing. */
  ghost predicate NamesOne(ms: seq<Migration>, live: set<ObjectRef>, r: Finding) {
    if r.drift then
      exists ref :: r.details == [Missing(ref)] && ref in Names(ms) && ref !in live && LeftBy(ms, ref, r.version)
    else r.details == []
  }

  /** It is drift if and only if some such object is missing. */
  ghost predicate FileReported(ms: seq<Migration>, live: set<ObjectRef>, r: Finding) {
    (r.drift <==> LosesName(ms, r.version, live)) && NamesOne(ms, live, r)
  }

  /** The second pass, for one file. */
  method CheckFile(src: Sources, ghost ms: seq<Migration>, lastWord: map<ObjectRef, nat>, f: File)
    returns (r: Finding)
    requires AscendingVersions(ms) && Owns(ms, lastWord) && src.MigrationOf(f) in ms
    ensures r.version == f.version && FileReported(ms, src.live, r)
  {
    var lc := Resolve(src.extract(f.sql));
    var missing := FirstMissing(lc, f.version, lastWord, src.live);
    UnexcusedLosesName(ms, lastWord, src.MigrationOf(f), src.live);
    OwnerIsLeaver(ms, lastWord, src.MigrationOf(f));
    r := if missing.Some? then Finding(f.version, true, [Missing(missing.value)]) else Finding(f.version, false, []);
  }

  /** The report without a ledger: every file is checked as if it had been applied. */
  method CollectNoLedger(src: Sources) returns (report: seq<Finding>)
    requires AscendingFiles(src.dir.upFiles)
    ensures |report| == |src.dir.upFiles|
    ensures forall i :: 0 <= i < |report| ==>
              && report[i].version == src.dir.upFiles[i].version
              && FileReported(src.AllFiles(src.dir.upFiles), src.live, report[i])
  {
    var files := src.dir.upFiles;
    ghost var ms := src.AllFiles(files);
    var lastWord := FileOwners(src, files);
    report := [];
    for i := 0 to |files|
      invariant |report| == i
      invariant forall j :: 0 <= j < i ==>
                  && report[j].version == files[j].version
                  && FileReported(ms, src.live, report[j])
    {
      assert ms[i] in ms;
      var r := CheckFile(src, ms, lastWord, files[i]);
      report := report + [r];
    }
  }

  /** The loop that stops at the first name that must exist and does not. */
  method FirstMissing(lc: Lifecycle, version: nat, lastWord: map<ObjectRef, nat>, live: set<ObjectRef>)
    returns (missing: Option<ObjectRef>)
    ensures missing.Some? <==> Unexcused(lc, version, lastWord, live)
    ensures missing.Some? ==>
              && MustExist(lc, missing.value) && missing.value !in live
              && !(missing.value in lastWord && lastWord[missing.value] > version)
  {
    for i := 0 to |lc.leftBehind|
      invariant forall ref :: ref in lc.leftBehind[..i] && !lc.Temporary(ref) && ref !in live ==>
                  ref in lastWord && lastWord[ref] > version
    {
      var obj := lc.leftBehind[i];
      assert lc.leftBehind[..i + 1] == lc.leftBehind[..i] + [obj];
      if lc.Temporary(obj) {
        continue;
      }
      if obj !in live && !(obj in lastWord && lastWord[obj] > version) {
        return Some(obj);
      }
    }
    assert lc.leftBehind[..|lc.leftBehind|] == lc.leftBehind;
    return None;
  }

  // ----- The two theorems -----

  /** No applied row with its file present and unedited is drift exactly when every name
      the replay of those files ends with exists. */
  lemma NoDriftMeansReplayExists(src: Sources, entries: seq<Entry>)
    requires AscendingEntries(entries) && src.dir.UpIndexed()
    requires forall e :: e in entries && e.row.status == Applied ==>
               e.version in src.dir.byVersion && !Hashes.Mismatch(src.digest, src.dir, e.version, e.row)
    ensures var ms := src.AppliedFiles(entries);
            (forall e :: e in entries && e.row.status == Applied ==> !Drifts(src, ms, e)) <==> Names(ms) <= src.live
  {
    var ms := src.AppliedFiles(entries);
    AppliedFilesMean(src, entries);
    forall ref | ref in Names(ms) && ref !in src.live
      ensures exists e :: e in entries && e.row.status == Applied && Drifts(src, ms, e)
    {
      NamesMean(ms, ref);
      var m := ms[LastTouch(ms, ref)];
      assert m in ms;
      var e :| && e in entries && e.row.status == Applied && e.version in src.dir.byVersion
               && m == src.MigrationOf(src.dir.byVersion[e.version]);
      assert LeftBy(ms, ref, e.version);
      assert LosesName(ms, e.version, src.live);
    }
  }

  /** The same without a ledger, over every file. */
  lemma NoDriftWithoutLedger(src: Sources)
    requires AscendingFiles(src.dir.upFiles)
    ensures var ms := src.AllFiles(src.dir.upFiles);
            (forall f :: f in src.dir.upFiles ==> !LosesName(ms, f.version, src.live)) <==> Names(ms) <= src.live
  {
    var ms := src.AllFiles(src.dir.upFiles);
    forall ref | ref in Names(ms) && ref !in src.live
      ensures exists f :: f in src.dir.upFiles && LosesName(ms, f.version, src.live)
    {
      NamesMean(ms, ref);
      var f := src.dir.upFiles[LastTouch(ms, ref)];
      assert f in src.dir.upFiles;
      assert LeftBy(ms, ref, f.version);
    }
  }
}
