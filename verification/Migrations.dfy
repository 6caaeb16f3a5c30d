/** The indexed view of a migrations directory and the three questions asked of it:
    what is pending, what can never run again, and what a revert would run.
    Source: internal/migrator/dir.go. */
module Migrations {
  import opened Wrappers
  import opened Ordered
  import opened Ledger

  datatype File = File(version: nat, name: string, sql: string)

  ghost predicate AscendingFiles(files: seq<File>) {
    forall i, j :: 0 <= i < j < |files| ==> files[i].version < files[j].version
  }

  /** The versions of a list of files. */
  function Versions(files: seq<File>): (vs: seq<nat>)
    ensures |vs| == |files|
    ensures forall i :: 0 <= i < |files| ==> vs[i] == files[i].version
  {
    seq(|files|, i requires 0 <= i < |files| => files[i].version)
  }

  /** The files the predicate-free filter of `PendingAfter` keeps. */
  function After(files: seq<File>, version: nat, hasVersion: bool): seq<File> {
    if files == [] then []
    else if !hasVersion || files[0].version > version then [files[0]] + After(files[1..], version, hasVersion)
    else After(files[1..], version, hasVersion)
  }

  /** The files strictly below the watermark that are not applied. */
  function Below(files: seq<File>, version: nat, applied: set<nat>): seq<File> {
    if files == [] then []
    else if files[0].version < version && files[0].version !in applied then
      [files[0]] + Below(files[1..], version, applied)
    else Below(files[1..], version, applied)
  }

  /** How many of `n` applied versions a revert of `steps` covers. */
  function DownCount(n: nat, steps: int): (count: nat)
    ensures count <= n && (n > 0 ==> count > 0)
  {
    if steps <= 0 || steps > n then n else steps
  }

  /** At most `limit` files, all of them when `limit` sets no bound. */
  function Take(files: seq<File>, limit: int): seq<File> {
    if limit > 0 && |files| > limit then files[..limit] else files
  }

  datatype Dir = Dir(upFiles: seq<File>, byVersion: map<nat, File>, byVersionDown: map<nat, File>) {

    /** Up versions are distinct, the list is ascending and both indexes agree with it. */
    ghost predicate Valid() {
      && AscendingFiles(upFiles)
      && UpIndexed()
      && DownIndexed()
    }

    ghost predicate UpIndexed() {
      && (forall f :: f in upFiles ==> f.version in byVersion && byVersion[f.version] == f)
      && (forall v :: v in byVersion ==> byVersion[v] in upFiles && byVersion[v].version == v)
    }

    ghost predicate DownIndexed() {
      forall v :: v in byVersionDown ==> byVersionDown[v].version == v
    }

    /** The files `Up` and `Step` may run next. */
    function Pending(st: State): seq<File> {
      After(upFiles, st.version, st.hasVersion)
    }

    /** The files every later `Up` passes over. */
    function Ignored(st: State, applied: set<nat>): seq<File> {
      if st.hasVersion then Below(upFiles, st.version, applied) else []
    }

    /** The plan of one `Up` or `Step`. */
    function UpPlan(st: State, limit: int): seq<File> {
      Take(Pending(st), limit)
    }

    /** The down files of the last applied versions, newest first, or the first
        version, newest first, that has none. */
    function DownPlan(applied: seq<nat>, steps: int): Result<seq<File>, nat> {
      DownFiles(applied, DownCount(|applied|, steps))
    }

    function DownFiles(applied: seq<nat>, count: nat): Result<seq<File>, nat>
      requires count <= |applied|
      decreases count
    {
      if count == 0 then Ok([])
      else
        var v := applied[|applied| - 1];
        if v !in byVersionDown then Err(v)
        else
          match DownFiles(applied[..|applied| - 1], count - 1)
          case Err(e) => Err(e)
          case Ok(rest) => Ok([byVersionDown[v]] + rest)
    }

    method PendingAfter(currentVersion: nat, hasVersion: bool) returns (pending: seq<File>)
      ensures pending == After(upFiles, currentVersion, hasVersion)
    {
      pending := [];
      for i := 0 to |upFiles|
        invariant pending + After(upFiles[i..], currentVersion, hasVersion) ==
                  After(upFiles, currentVersion, hasVersion)
      {
        var f := upFiles[i];
        assert upFiles[i..][0] == f && upFiles[i..][1..] == upFiles[i + 1..];
        if !hasVersion || f.version > currentVersion {
          pending := pending + [f];
        }
      }
    }

    method BelowWatermark(currentVersion: nat, hasVersion: bool, applied: seq<nat>) returns (skipped: seq<File>)
      ensures skipped == if hasVersion then Below(upFiles, currentVersion, Elements(applied)) else []
    {
      skipped := [];
      if !hasVersion {
        return;
      }
      var isApplied: set<nat> := {};
      for i := 0 to |applied|
        invariant isApplied == Elements(applied[..i])
      {
        assert applied[..i + 1] == applied[..i] + [applied[i]];
        isApplied := isApplied + {applied[i]};
      }
      assert applied[..|applied|] == applied;
      for i := 0 to |upFiles|
        invariant skipped + Below(upFiles[i..], currentVersion, isApplied) == Below(upFiles, currentVersion, isApplied)
      {
        var f := upFiles[i];
        assert upFiles[i..][0] == f && upFiles[i..][1..] == upFiles[i + 1..];
        if f.version >= currentVersion {
          continue;
        }
        if f.version in isApplied {
          continue;
        }
        skipped := skipped + [f];
      }
    }

    method MakeDownPlan(applied: seq<nat>, steps: int) returns (plan: Result<seq<File>, nat>)
      ensures plan == DownPlan(applied, steps)
    {
      if |applied| == 0 {
        return Ok([]);
      }
      var count := steps;
      if count <= 0 || count > |applied| {
        count := |applied|;
      }
      var files := [];
      var i := |applied| - 1;
      assert applied[..i + 1] == applied;
      while i >= |applied| - count
        invariant |applied| - count - 1 <= i < |applied|
        invariant DownPlan(applied, steps) ==
                  Prepend(files, DownFiles(applied[..i + 1], i + 1 - (|applied| - count)))
      {
        var ver := applied[i];
        assert applied[..i + 1][..i] == applied[..i];
        if ver !in byVersionDown {
          return Err(ver);
        }
        ghost var rest := DownFiles(applied[..i], i - (|applied| - count));
        assert rest.Ok? ==> files + ([byVersionDown[ver]] + rest.value) == files + [byVersionDown[ver]] + rest.value;
        files := files + [byVersionDown[ver]];
        i := i - 1;
      }
      assert files + [] == files;
      return Ok(files);
    }
  }

  function Prepend(files: seq<File>, r: Result<seq<File>, nat>): (p: Result<seq<File>, nat>)
    ensures files == [] ==> p == r
  {
    if r.Ok? then
      assert files == [] ==> files + r.value == r.value;
      Ok(files + r.value)
    else r
  }

  // ----- What the filters mean -----

  lemma {:induction false} AfterMeans(files: seq<File>, version: nat, hasVersion: bool)
    ensures forall f :: f in After(files, version, hasVersion) <==> f in files && (hasVersion ==> f.version > version)
  {
    if files != [] {
      AfterMeans(files[1..], version, hasVersion);
      assert forall f :: f in files <==> f == files[0] || f in files[1..];
    }
  }

  lemma {:induction false} BelowMeans(files: seq<File>, version: nat, applied: set<nat>)
    ensures forall f :: f in Below(files, version, applied) <==>
                        f in files && f.version < version && f.version !in applied
  {
    if files != [] {
      BelowMeans(files[1..], version, applied);
      assert forall f :: f in files <==> f == files[0] || f in files[1..];
    }
  }

  /** In an ascending directory the pending files are a suffix of it. */
  lemma {:induction false} AfterIsSuffix(files: seq<File>, version: nat, hasVersion: bool) returns (k: nat)
    requires AscendingFiles(files)
    ensures k <= |files| && After(files, version, hasVersion) == files[k..]
    ensures forall i :: 0 <= i < k ==> hasVersion && files[i].version <= version
    ensures forall i :: k <= i < |files| ==> hasVersion ==> files[i].version > version
  {
    if files == [] {
      k := 0;
    } else if !hasVersion || files[0].version > version {
      k := AfterIsSuffix(files[1..], version, hasVersion);
      assert files == [files[0]] + files[1..];
    } else {
      var j := AfterIsSuffix(files[1..], version, hasVersion);
      k := j + 1;
      forall i | 0 <= i < k
        ensures files[i].version <= version
      {
        assert i == 0 || files[i] == files[1..][i - 1];
      }
      forall i | k <= i < |files|
        ensures files[i].version > version
      {
        assert files[i] == files[1..][i - 1];
      }
    }
  }

  /** Once the first pending file is the watermark, the pending files are the others. */
  lemma PendingAdvances(files: seq<File>, version: nat, hasVersion: bool)
    requires AscendingFiles(files)
    requires After(files, version, hasVersion) != []
    ensures var p := After(files, version, hasVersion);
            After(files, p[0].version, true) == p[1..] && (hasVersion ==> version < p[0].version)
  {
    var p := After(files, version, hasVersion);
    var k := AfterIsSuffix(files, version, hasVersion);
    var j := AfterIsSuffix(files, p[0].version, true);
    assert p[0] == files[k];
  }

  /** Every up file is exactly one of pending, ignored and applied, because the
      watermark is the highest applied version. */
  lemma UpFilesSplit(dir: Dir, rows: Rows, f: File)
    requires f in dir.upFiles
    ensures var st := QueryState(rows);
            var pending, ignored, applied :=
              f in dir.Pending(st), f in dir.Ignored(st, AppliedSet(rows)), f.version in AppliedSet(rows);
            && (pending || ignored || applied)
            && !(pending && ignored) && !(pending && applied) && !(ignored && applied)
  {
    var st := QueryState(rows);
    AfterMeans(dir.upFiles, st.version, st.hasVersion);
    BelowMeans(dir.upFiles, st.version, AppliedSet(rows));
  }

  /** A planned revert: one down file for each of the last `count` versions, newest
      first; it is refused exactly when one of them is missing. */
  lemma {:induction false} DownFilesMean(dir: Dir, applied: seq<nat>, count: nat)
    requires count <= |applied|
    ensures var plan := dir.DownFiles(applied, count);
            && (plan.Ok? <==> forall i :: |applied| - count <= i < |applied| ==> applied[i] in dir.byVersionDown)
            && (plan.Ok? ==>
                  && |plan.value| == count
                  && forall i :: 0 <= i < count ==>
                       && applied[|applied| - 1 - i] in dir.byVersionDown
                       && plan.value[i] == dir.byVersionDown[applied[|applied| - 1 - i]])
    decreases count
  {
    if count > 0 {
      var rest := applied[..|applied| - 1];
      DownFilesMean(dir, rest, count - 1);
      assert forall i :: |applied| - count <= i < |applied| - 1 ==> rest[i] == applied[i];
    }
  }

  /** How many files a step runs: `limit` of them, or all that are pending when there are
      fewer or `limit` sets no bound; and always the first ones. */
  lemma UpPlanMeans(dir: Dir, st: State, limit: int)
    ensures var plan, pending := dir.UpPlan(st, limit), dir.Pending(st);
            && plan <= pending
            && (0 < limit <= |pending| ==> |plan| == limit)
            && (limit <= 0 || limit > |pending| ==> plan == pending)
  {
  }

  /** How many versions a planned revert covers: `steps` of them, or all that are applied
      when `steps` asks for none or for more. */
  lemma DownPlanMeans(dir: Dir, applied: seq<nat>, steps: int)
    ensures var plan := dir.DownPlan(applied, steps);
            var count := if 1 <= steps <= |applied| then steps else |applied|;
            && (plan.Ok? <==> forall i :: |applied| - count <= i < |applied| ==> applied[i] in dir.byVersionDown)
            && (plan.Ok? ==>
                  && |plan.value| == count
                  && forall i :: 0 <= i < count ==>
                       && applied[|applied| - 1 - i] in dir.byVersionDown
                       && plan.value[i] == dir.byVersionDown[applied[|applied| - 1 - i]])
  {
    DownFilesMean(dir, applied, DownCount(|applied|, steps));
  }

  /** The ignored files come in the order of the directory. */
  lemma {:induction false} BelowAscends(files: seq<File>, version: nat, applied: set<nat>)
    requires AscendingFiles(files)
    ensures AscendingFiles(Below(files, version, applied))
  {
    if files != [] {
      BelowAscends(files[1..], version, applied);
      BelowMeans(files[1..], version, applied);
    }
  }
}
