/** What a completed run computes, as a function, and the laws of `up`, `step` and `down`. */
module Runs {
  import opened Wrappers
  import opened Ordered
  import opened Ledger
  import opened Migrations
  import opened Protocol
  import Replay
  import Watermark

  datatype Db = Db(rows: Rows, schema: Schema)

  function Marked(db: Db, f: File): Rows {
    Put(db.rows, SetStatus(f.version, Applying))
  }

  /** One file marked, run and recorded. */
  function Migrate(env: Env, dir: Dir, dirn: Direction, db: Db, f: File): Db {
    Db(Put(Marked(db, f), RecordOf(env, dir, dirn, f)), env.exec(f.sql, db.schema))
  }

  function MigrateAll(env: Env, dir: Dir, dirn: Direction, db: Db, files: seq<File>): Db
    decreases |files|
  {
    if files == [] then db
    else Migrate(env, dir, dirn, MigrateAll(env, dir, dirn, db, files[..|files| - 1]), files[|files| - 1])
  }

  lemma MigrateNext(env: Env, dir: Dir, dirn: Direction, db: Db, files: seq<File>, i: nat)
    requires i < |files|
    ensures MigrateAll(env, dir, dirn, db, files[..i + 1]) ==
            Migrate(env, dir, dirn, MigrateAll(env, dir, dirn, db, files[..i]), files[i])
    ensures Versions(files[..i + 1]) == Versions(files[..i]) + [files[i].version]
  {
    assert files[..i + 1][..i] == files[..i];
  }

  /** The run stopped at `f`: nothing of it shows, or its row is applying and the schema
      is whatever its SQL left. */
  ghost predicate StoppedAt(before: Db, f: File, after: Db) {
    after == before || after.rows == Marked(before, f)
  }

  ghost predicate Clean(db: Db) {
    ApplyingSet(db.rows) == {}
  }

  function UpPlan(dir: Dir, db: Db, limit: int): seq<File> {
    dir.UpPlan(QueryState(db.rows), limit)
  }

  function Pending(dir: Dir, db: Db): seq<File> {
    dir.Pending(QueryState(db.rows))
  }

  // ----- Going forward -----

  lemma ForwardOne(env: Env, dir: Dir, db: Db, f: File)
    requires AscendingFiles(dir.upFiles) && Clean(db) && Pending(dir, db) != [] && Pending(dir, db)[0] == f
    ensures var after := Migrate(env, dir, Forward, db, f);
            && Clean(after)
            && Pending(dir, after) == Pending(dir, db)[1..]
            && AppliedVersions(after.rows) == AppliedVersions(db.rows) + [f.version]
  {
    var after := Migrate(env, dir, Forward, db, f);
    PutApplying(db.rows, SetStatus(f.version, Applying));
    PutApplying(Marked(db, f), RecordOf(env, dir, Forward, f));
    Replay.AbovePending(dir, db.rows, [f]);
    assert AppliedSet(after.rows) == AppliedSet(db.rows) + {f.version};
    Replay.PushApplied(dir, db.rows, after.rows, Pending(dir, db));
    Watermark.ApplyFirstPending(dir, db.rows, after.rows, f);
  }

  lemma MoveLast(applied: seq<nat>, ran: seq<File>, rest: seq<File>)
    requires ran != []
    ensures var init, last := ran[..|ran| - 1], ran[|ran| - 1];
            && ran + rest == init + ([last] + rest)
            && ([last] + rest)[0] == last && ([last] + rest)[1..] == rest
            && applied + Versions(ran) == applied + Versions(init) + [last.version]
  {
  }

  /** Running files in order that are a prefix of the pending ones leaves the rest
      pending and nothing applying, and appends the versions run. */
  lemma {:induction false} ForwardPrefix(env: Env, dir: Dir, db: Db, ran: seq<File>, rest: seq<File>)
    requires AscendingFiles(dir.upFiles) && Clean(db) && Pending(dir, db) == ran + rest
    ensures var after := MigrateAll(env, dir, Forward, db, ran);
            && Clean(after)
            && Pending(dir, after) == rest
            && AppliedVersions(after.rows) == AppliedVersions(db.rows) + Versions(ran)
    decreases |ran|
  {
    if ran == [] {
      assert ran + rest == rest;
      assert AppliedVersions(db.rows) + Versions(ran) == AppliedVersions(db.rows);
    } else {
      var init, f := ran[..|ran| - 1], ran[|ran| - 1];
      MoveLast(AppliedVersions(db.rows), ran, rest);
      ForwardPrefix(env, dir, db, init, [f] + rest);
      ForwardOne(env, dir, MigrateAll(env, dir, Forward, db, init), f);
    }
  }

  lemma {:induction false} MigrateAllAppends(env: Env, dir: Dir, dirn: Direction, db: Db, a: seq<File>, b: seq<File>)
    ensures MigrateAll(env, dir, dirn, db, a + b) == MigrateAll(env, dir, dirn, MigrateAll(env, dir, dirn, db, a), b)
    decreases |b|
  {
    if b == [] {
      assert a + b == a;
    } else {
      var init := b[..|b| - 1];
      assert (a + b)[..|a + b| - 1] == a + init;
      MigrateAllAppends(env, dir, dirn, db, a, init);
    }
  }

  lemma TakeSplits(files: seq<File>, a: int, b: int)
    requires a > 0 && b > 0
    ensures var head := Take(files, a);
            && head <= files
            && Take(files, a + b) == head + Take(files[|head|..], b)
  {
  }

  /** `step a` and then `step b` is `step (a + b)`. */
  lemma StepThenStep(env: Env, dir: Dir, db: Db, a: int, b: int)
    requires AscendingFiles(dir.upFiles) && Clean(db) && a > 0 && b > 0
    ensures var mid := MigrateAll(env, dir, Forward, db, UpPlan(dir, db, a));
            && Clean(mid)
            && UpPlan(dir, db, a + b) == UpPlan(dir, db, a) + UpPlan(dir, mid, b)
            && MigrateAll(env, dir, Forward, mid, UpPlan(dir, mid, b)) ==
               MigrateAll(env, dir, Forward, db, UpPlan(dir, db, a + b))
  {
    var p, head := Pending(dir, db), UpPlan(dir, db, a);
    TakeSplits(p, a, b);
    assert p == head + p[|head|..];
    ForwardPrefix(env, dir, db, head, p[|head|..]);
    MigrateAllAppends(env, dir, Forward, db, head, Take(p[|head|..], b));
  }

  /** After a completed `up` there is nothing left for the next one. */
  lemma UpTwice(env: Env, dir: Dir, db: Db)
    requires AscendingFiles(dir.upFiles) && Clean(db)
    ensures var after := MigrateAll(env, dir, Forward, db, UpPlan(dir, db, 0));
            Clean(after) && forall limit :: UpPlan(dir, after, limit) == []
  {
    var p := Pending(dir, db);
    assert p == p + [];
    ForwardPrefix(env, dir, db, p, []);
  }

  // ----- And back -----

  /** The down files of the last `k` applied versions, newest first. */
  function DownFiles(dir: Dir, files: seq<File>): seq<File>
    requires forall f :: f in files ==> f.version in dir.byVersionDown
  {
    if files == [] then []
    else [dir.byVersionDown[files[|files| - 1].version]] + DownFiles(dir, files[..|files| - 1])
  }

  ghost predicate HaveDowns(dir: Dir, files: seq<File>) {
    forall f :: f in files ==> f.version in dir.byVersionDown
  }

  /** On the schemas this run passes through, each down file undoes its up file. */
  ghost predicate UndoneInTurn(env: Env, dir: Dir, db: Db, files: seq<File>) {
    forall i :: 0 <= i < |files| && files[i].version in dir.byVersionDown ==>
      env.exec(dir.byVersionDown[files[i].version].sql, MigrateAll(env, dir, Forward, db, files[..i + 1]).schema)
      == MigrateAll(env, dir, Forward, db, files[..i]).schema
  }

  lemma HaveDownsSplit(dir: Dir, init: seq<File>, last: File)
    ensures HaveDowns(dir, init + [last]) <==> HaveDowns(dir, init) && last.version in dir.byVersionDown
  {
    assert forall f :: f in init + [last] <==> f in init || f == last;
  }

  lemma {:induction false} PlanOfAppended(dir: Dir, applied: seq<nat>, files: seq<File>)
    ensures var plan := dir.DownFiles(applied + Versions(files), |files|);
            if HaveDowns(dir, files) then plan == Ok(DownFiles(dir, files)) else plan.Err?
    decreases |files|
  {
    if files != [] {
      var init, last := files[..|files| - 1], files[|files| - 1];
      var all := applied + Versions(files);
      assert all[..|all| - 1] == applied + Versions(init);
      assert all[|all| - 1] == last.version;
      PlanOfAppended(dir, applied, init);
      HaveDownsSplit(dir, init, last);
      assert files == init + [last];
    }
  }

  /** Undoing the last file of a run, from any rows with the right applied set. */
  lemma BackwardOne(env: Env, dir: Dir, now: Db, f: File, applied: seq<nat>)
    requires AppliedVersions(now.rows) == applied + [f.version]
    ensures var after := Migrate(env, dir, Backward, now, f);
            AppliedVersions(after.rows) == applied
  {
    var after := Migrate(env, dir, Backward, now, f);
    PutApplying(now.rows, SetStatus(f.version, Applying));
    PutApplying(Marked(now, f), RecordOf(env, dir, Backward, f));
    assert AppliedSet(after.rows) == AppliedSet(now.rows) - {f.version};
    LastOff(AppliedSet(now.rows), applied, f.version);
  }

  lemma LastOff(s: set<nat>, init: seq<nat>, v: nat)
    requires Sorted(s) == init + [v]
    ensures Sorted(s - {v}) == init
  {
    Below(Sorted(s), init, v);
    SortedPop(s, v);
    assert Sorted(s)[..|Sorted(s)| - 1] == init;
  }

  lemma Below(all: seq<nat>, init: seq<nat>, v: nat)
    requires Ascending(all) && all == init + [v]
    ensures v in all && forall x :: x in all && x != v ==> x < v
  {
    assert all[|init|] == v;
  }

  lemma UndoneInit(env: Env, dir: Dir, db: Db, init: seq<File>, last: File)
    requires UndoneInTurn(env, dir, db, init + [last])
    ensures UndoneInTurn(env, dir, db, init)
    ensures last.version in dir.byVersionDown ==>
              env.exec(dir.byVersionDown[last.version].sql, MigrateAll(env, dir, Forward, db, init + [last]).schema)
              == MigrateAll(env, dir, Forward, db, init).schema
  {
    var files := init + [last];
    forall i | 0 <= i < |init| && init[i].version in dir.byVersionDown
      ensures env.exec(dir.byVersionDown[init[i].version].sql, MigrateAll(env, dir, Forward, db, init[..i + 1]).schema)
              == MigrateAll(env, dir, Forward, db, init[..i]).schema
    {
      assert init[..i + 1] == files[..i + 1] && init[..i] == files[..i] && init[i] == files[i];
    }
    assert files[..|init| + 1] == files && files[..|init|] == init && files[|init|] == last;
  }

  lemma MigrateOneFirst(env: Env, dir: Dir, dirn: Direction, db: Db, f: File, rest: seq<File>)
    ensures MigrateAll(env, dir, dirn, db, [f] + rest) ==
            MigrateAll(env, dir, dirn, Migrate(env, dir, dirn, db, f), rest)
  {
    MigrateAllAppends(env, dir, dirn, db, [f], rest);
    assert [f][..0] == [];
  }

  lemma VersionsNext(applied: seq<nat>, init: seq<File>, last: File)
    ensures applied + Versions(init + [last]) == applied + Versions(init) + [last.version]
  {
  }

  /** Running the down files of `files` from wherever the run left the database. */
  lemma {:induction false} BackwardAll(env: Env, dir: Dir, db: Db, files: seq<File>, now: Db)
    requires dir.DownIndexed() && HaveDowns(dir, files) && UndoneInTurn(env, dir, db, files)
    requires now.schema == MigrateAll(env, dir, Forward, db, files).schema
    requires AppliedVersions(now.rows) == AppliedVersions(db.rows) + Versions(files)
    ensures var after := MigrateAll(env, dir, Backward, now, DownFiles(dir, files));
            after.schema == db.schema && AppliedVersions(after.rows) == AppliedVersions(db.rows)
    decreases |files|
  {
    var applied := AppliedVersions(db.rows);
    if files == [] {
      assert applied + Versions(files) == applied;
    } else {
      var init, last := files[..|files| - 1], files[|files| - 1];
      assert files == init + [last];
      UndoneInit(env, dir, db, init, last);
      HaveDownsSplit(dir, init, last);
      var down := dir.byVersionDown[last.version];
      VersionsNext(applied, init, last);
      BackwardOne(env, dir, now, down, applied + Versions(init));
      BackwardAll(env, dir, db, init, Migrate(env, dir, Backward, now, down));
      MigrateOneFirst(env, dir, Backward, now, down, DownFiles(dir, init));
    }
  }

  /** After an `up` or `step` that ran k > 0 files, `down k` plans exactly their down
      files and restores the applied versions and the schema; it plans nothing at all
      when one of the k down files is missing. */
  lemma UpThenDown(env: Env, dir: Dir, db: Db, limit: int)
    requires AscendingFiles(dir.upFiles) && dir.DownIndexed() && Clean(db)
    requires UpPlan(dir, db, limit) != [] && UndoneInTurn(env, dir, db, UpPlan(dir, db, limit))
    ensures var ran := UpPlan(dir, db, limit);
            var up := MigrateAll(env, dir, Forward, db, ran);
            var plan := dir.DownPlan(AppliedVersions(up.rows), |ran|);
            && (plan.Ok? <==> HaveDowns(dir, ran))
            && (plan.Ok? ==>
                  var down := MigrateAll(env, dir, Backward, up, plan.value);
                  down.schema == db.schema && AppliedVersions(down.rows) == AppliedVersions(db.rows))
  {
    var ran, p := UpPlan(dir, db, limit), Pending(dir, db);
    assert p == ran + p[|ran|..];
    ForwardPrefix(env, dir, db, ran, p[|ran|..]);
    var up := MigrateAll(env, dir, Forward, db, ran);
    PlanOfAppended(dir, AppliedVersions(db.rows), ran);
    if HaveDowns(dir, ran) {
      BackwardAll(env, dir, db, ran, up);
    }
  }

  lemma {:induction false} BackwardPops(env: Env, dir: Dir, db: Db, applied: seq<nat>, count: nat, plan: seq<File>,
                                        after: Db)
    requires dir.DownIndexed() && AppliedVersions(db.rows) == applied && count <= |applied|
    requires dir.DownFiles(applied, count) == Ok(plan) && after == MigrateAll(env, dir, Backward, db, plan)
    ensures AppliedVersions(after.rows) == applied[..|applied| - count]
    decreases count
  {
    if count == 0 {
      assert applied[..|applied|] == applied;
    } else {
      var init := applied[..|applied| - 1];
      var next, rest := OneBack(env, dir, db, applied, count, plan, after);
      BackwardPops(env, dir, next, init, count - 1, rest, after);
      TakeOfInit(applied, count);
    }
  }

  /** The first down file of a plan takes the last version off. */
  lemma OneBack(env: Env, dir: Dir, db: Db, applied: seq<nat>, count: nat, plan: seq<File>, after: Db)
    returns (next: Db, rest: seq<File>)
    requires dir.DownIndexed() && AppliedVersions(db.rows) == applied && 0 < count <= |applied|
    requires dir.DownFiles(applied, count) == Ok(plan) && after == MigrateAll(env, dir, Backward, db, plan)
    ensures AppliedVersions(next.rows) == applied[..|applied| - 1]
    ensures dir.DownFiles(applied[..|applied| - 1], count - 1) == Ok(rest)
    ensures after == MigrateAll(env, dir, Backward, next, rest)
  {
    rest := DownFilesHead(dir, applied, count, plan);
    var down := dir.byVersionDown[applied[|applied| - 1]];
    next := Migrate(env, dir, Backward, db, down);
    AppliedAfterOne(env, dir, db, down, applied[..|applied| - 1], next);
    AfterFirst(env, dir, db, down, rest, next, after);
  }

  lemma AppliedAfterOne(env: Env, dir: Dir, db: Db, down: File, init: seq<nat>, next: Db)
    requires next == Migrate(env, dir, Backward, db, down)
    requires |AppliedVersions(db.rows)| > 0 && init == AppliedVersions(db.rows)[..|AppliedVersions(db.rows)| - 1]
    requires down.version == AppliedVersions(db.rows)[|AppliedVersions(db.rows)| - 1]
    ensures AppliedVersions(next.rows) == init
  {
    assert AppliedVersions(db.rows) == init + [down.version];
    BackwardOne(env, dir, db, down, init);
  }

  lemma AfterFirst(env: Env, dir: Dir, db: Db, down: File, rest: seq<File>, next: Db, after: Db)
    requires next == Migrate(env, dir, Backward, db, down)
    requires after == MigrateAll(env, dir, Backward, db, [down] + rest)
    ensures after == MigrateAll(env, dir, Backward, next, rest)
  {
    MigrateOneFirst(env, dir, Backward, db, down, rest);
  }

  lemma DownFilesHead(dir: Dir, applied: seq<nat>, count: nat, plan: seq<File>) returns (rest: seq<File>)
    requires 0 < count <= |applied| && dir.DownFiles(applied, count) == Ok(plan)
    ensures applied[|applied| - 1] in dir.byVersionDown
    ensures plan == [dir.byVersionDown[applied[|applied| - 1]]] + rest
    ensures dir.DownFiles(applied[..|applied| - 1], count - 1) == Ok(rest)
  {
    rest := dir.DownFiles(applied[..|applied| - 1], count - 1).value;
  }

  lemma TakeOfInit(s: seq<nat>, count: nat)
    requires 0 < count <= |s|
    ensures s[..|s| - 1][..|s| - 1 - (count - 1)] == s[..|s| - count]
  {
  }

  /** A `down` took the last `steps` versions off, or all of them when `steps` asks for
      none or for more, and reported them newest first. */
  ghost predicate TakesOff(applied: seq<nat>, steps: int, left: seq<nat>, reverted: seq<nat>) {
    var count := if 1 <= steps <= |applied| then steps else |applied|;
    && left == applied[..|applied| - count]
    && |reverted| == count && forall i :: 0 <= i < count ==> reverted[i] == applied[|applied| - 1 - i]
  }

  lemma PlannedVersions(dir: Dir, applied: seq<nat>, steps: int)
    requires dir.DownIndexed() && dir.DownPlan(applied, steps).Ok?
    ensures var vs := Versions(dir.DownPlan(applied, steps).value);
            && |vs| == (if 1 <= steps <= |applied| then steps else |applied|)
            && forall i :: 0 <= i < |vs| ==> vs[i] == applied[|applied| - 1 - i]
  {
    var plan := dir.DownPlan(applied, steps).value;
    DownPlanMeans(dir, applied, steps);
    forall i | 0 <= i < |plan|
      ensures plan[i].version == applied[|applied| - 1 - i]
    {
      assert plan[i] == dir.byVersionDown[applied[|applied| - 1 - i]];
    }
  }

  lemma DownTakesOff(env: Env, dir: Dir, db: Db, applied: seq<nat>, steps: int, plan: seq<File>, after: Db)
    requires dir.DownIndexed() && AppliedVersions(db.rows) == applied && dir.DownPlan(applied, steps) == Ok(plan)
    requires after == MigrateAll(env, dir, Backward, db, plan)
    ensures TakesOff(applied, steps, AppliedVersions(after.rows), Versions(plan))
  {
    PlannedVersions(dir, applied, steps);
    PlanPops(env, dir, db, applied, steps, plan);
  }

  lemma PlanPops(env: Env, dir: Dir, db: Db, applied: seq<nat>, steps: int, plan: seq<File>)
    requires dir.DownIndexed() && AppliedVersions(db.rows) == applied && dir.DownPlan(applied, steps) == Ok(plan)
    ensures AppliedVersions(MigrateAll(env, dir, Backward, db, plan).rows) ==
            applied[..|applied| - if 1 <= steps <= |applied| then steps else |applied|]
  {
    BackwardPops(env, dir, db, applied, DownCount(|applied|, steps), plan, MigrateAll(env, dir, Backward, db, plan));
  }

  // ----- What a run records -----

  /** The row of an applied file: its status, and the hash of the file its version names. */
  ghost predicate Recorded(env: Env, index: map<nat, File>, status: Status, rows: Rows, v: nat) {
    v in index && v in rows && rows[v] == Row(status, env.digest(index[v].sql), "")
  }

  /** A run records every file it ran and touches no other row. */
  lemma {:induction false} MigrateAllRecords(env: Env, dir: Dir, dirn: Direction, db: Db, files: seq<File>)
    requires var index := if dirn.Forward? then dir.byVersion else dir.byVersionDown;
             forall f :: f in files ==> f.version in index
    ensures var after := MigrateAll(env, dir, dirn, db, files).rows;
            var index := if dirn.Forward? then dir.byVersion else dir.byVersionDown;
            && (forall f :: f in files ==>
                  Recorded(env, index, if dirn.Forward? then Applied else Reverted, after, f.version))
            && (forall v :: (forall f :: f in files ==> f.version != v) ==>
                  (v in after <==> v in db.rows) && (v in db.rows ==> after[v] == db.rows[v]))
    decreases |files|
  {
    if files != [] {
      var init, last := files[..|files| - 1], files[|files| - 1];
      assert last in files;
      assert forall f :: f in files <==> f in init || f == last;
      MigrateAllRecords(env, dir, dirn, db, init);
    }
  }

  /** The files are those their versions name. */
  ghost predicate Indexed(dir: Dir, files: seq<File>) {
    forall f :: f in files ==> f.version in dir.byVersion
  }

  lemma OneMoreIndexed(dir: Dir, files: seq<File>, i: nat)
    requires i < |files| && Indexed(dir, files[..i]) && files[i].version in dir.byVersion
    ensures Indexed(dir, files[..i + 1])
  {
    assert files[..i + 1] == files[..i] + [files[i]];
  }

  /** What is recorded of a run that stopped after `n` files of its plan, or ran them all. */
  lemma StoppedRunRecords(env: Env, dir: Dir, db: Db, plan: seq<File>, n: nat, after: Db)
    requires AscendingFiles(plan) && n <= |plan| && Indexed(dir, plan[..n])
    requires n == |plan| ==> after == MigrateAll(env, dir, Forward, db, plan)
    requires n < |plan| ==> StoppedAt(MigrateAll(env, dir, Forward, db, plan[..n]), plan[n], after)
    ensures forall i :: 0 <= i < n ==> Recorded(env, dir.byVersion, Applied, after.rows, plan[i].version)
  {
    assert plan[..|plan|] == plan;
    MigrateAllRecords(env, dir, Forward, db, plan[..n]);
    forall i | 0 <= i < n
      ensures Recorded(env, dir.byVersion, Applied, after.rows, plan[i].version)
    {
      assert plan[i] in plan[..n];
    }
  }

  lemma PlanAscends(dir: Dir, st: State, limit: int)
    requires AscendingFiles(dir.upFiles)
    ensures AscendingFiles(dir.UpPlan(st, limit))
    ensures forall f :: f in dir.UpPlan(st, limit) ==> f in dir.upFiles
  {
    var k := AfterIsSuffix(dir.upFiles, st.version, st.hasVersion);
  }

  function Fresh(env: Env): Db {
    Db(map[], env.empty)
  }

  /** A run of files of the directory on an untouched database leaves their replay. */
  lemma {:induction false} FreshRunIsReplay(env: Env, dir: Dir, files: seq<File>)
    requires forall f :: f in files ==> f.version in dir.byVersion && dir.byVersion[f.version] == f
    ensures MigrateAll(env, dir, Forward, Fresh(env), files).schema
            == Replay.Replayed(env, dir.byVersion, Versions(files))
    decreases |files|
  {
    if files != [] {
      var init, last := files[..|files| - 1], files[|files| - 1];
      FreshRunIsReplay(env, dir, init);
      assert Versions(files)[..|files| - 1] == Versions(init);
      assert last in files;
    }
  }

  /** On an untouched database everything is pending. */
  lemma FreshPending(env: Env, dir: Dir)
    requires AscendingFiles(dir.upFiles)
    ensures Clean(Fresh(env)) && UpPlan(dir, Fresh(env), 0) == dir.upFiles
  {
    var st := QueryState(Fresh(env).rows);
    var j := AfterIsSuffix(dir.upFiles, st.version, st.hasVersion);
    assert dir.upFiles[0..] == dir.upFiles;
  }
}
