/** Ledger, runner and drift report together: what the report says of a database that was
    only ever migrated. Sources: internal/migrator/runner.go, internal/verify/collect.go,
    internal/ddlcheck/ddlcheck.go. */
module NoDrift {
  import opened Wrappers
  import opened Ordered
  import opened Ledger
  import opened Migrations
  import opened Protocol
  import opened DdlCheck
  import Commands
  import Hashes
  import Replay
  import Runner
  import Runs
  import Verify

  /** Which objects exist in a schema. */
  type View = Schema -> set<ObjectRef>

  type Extract = string -> seq<Operation>

  /** SQL does to the objects that exist what its operations say, and nothing else. */
  ghost predicate Shows(env: Env, extract: Extract, view: View) {
    && view(env.empty) == {}
    && forall sql: string, s: Schema :: view(env.exec(sql, s)) == RunOps(view(s), StableSort(extract(sql)))
  }

  /** What the drift checker reads of a world. */
  function SourcesOf(env: Env, dir: Dir, schema: Schema, extract: Extract, view: View): Verify.Sources {
    Verify.Sources(dir, extract, env.digest, view(schema))
  }

  /** The files of some versions, as files to replay. */
  function FilesOf(src: Verify.Sources, vs: seq<nat>): seq<Verify.Migration> {
    if vs == [] then []
    else
      var init, v := FilesOf(src, vs[..|vs| - 1]), vs[|vs| - 1];
      if v in src.dir.byVersion then init + [src.MigrationOf(src.dir.byVersion[v])] else init
  }

  lemma FilesOfNext(src: Verify.Sources, vs: seq<nat>, v: nat)
    ensures FilesOf(src, vs + [v]) ==
            if v in src.dir.byVersion then FilesOf(src, vs) + [src.MigrationOf(src.dir.byVersion[v])]
            else FilesOf(src, vs)
  {
    assert (vs + [v])[..|vs|] == vs;
  }

  lemma NamesNext(ms: seq<Verify.Migration>, m: Verify.Migration)
    ensures Verify.Names(ms + [m]) == RunOps(Verify.Names(ms), m.ops)
  {
    assert (ms + [m])[..|ms|] == ms;
  }

  /** The objects of a replay are the names its files end with. */
  lemma {:induction false} ReplayShowsNames(env: Env, src: Verify.Sources, view: View, vs: seq<nat>)
    requires Shows(env, src.extract, view)
    ensures view(Replay.Replayed(env, src.dir.byVersion, vs)) == Verify.Names(FilesOf(src, vs))
    decreases |vs|
  {
    if vs != [] {
      var init, v := vs[..|vs| - 1], vs[|vs| - 1];
      assert vs == init + [v];
      ReplayShowsNames(env, src, view, init);
      Replay.ReplayedNext(env, src.dir.byVersion, init, v);
      FilesOfNext(src, init, v);
      if v in src.dir.byVersion {
        NamesNext(FilesOf(src, init), src.MigrationOf(src.dir.byVersion[v]));
      }
    }
  }

  /** The files of the applied rows are those of the applied versions. */
  lemma {:induction false} RowsAreVersions(src: Verify.Sources, entries: seq<Entry>, n: nat)
    requires n <= |entries|
    requires forall i, j :: 0 <= i < j < |entries| ==> entries[i].version < entries[j].version
    ensures src.AppliedFiles(entries[..n]) == FilesOf(src, Sorted(AppliedAmong(entries, n)))
  {
    if n == 0 {
      assert AppliedAmong(entries, 0) == {};
    } else {
      RowsAreVersions(src, entries, n - 1);
      assert entries[..n][..n - 1] == entries[..n - 1];
      AppliedStep(entries, n - 1);
      FilesOfNext(src, Sorted(AppliedAmong(entries, n - 1)), entries[n - 1].version);
    }
  }

  lemma AppliedRowsAreVersions(src: Verify.Sources, rows: Rows)
    ensures src.AppliedFiles(List(rows)) == FilesOf(src, AppliedVersions(rows))
  {
    var entries := List(rows);
    RowsAreVersions(src, entries, |entries|);
    assert entries[..|entries|] == entries;
    AllListed(rows);
  }

  /** A run of ups, steps and downs never leaves a squash half done. */
  lemma OrderlyRun(env: Env, ws: seq<World>, es: seq<Event>, n: nat)
    requires Run(env, ws, es) && n < |es|
    requires Replay.ReplayInv(env, ws[0]) && forall e :: e in es ==> Replay.UpOrDown(e)
    ensures Hashes.Orderly(ws[n], es[n])
  {
    Replay.ReplayRun(env, ws, es, n);
    assert es[n] in es;
    NeverWriting(env, ws[n], es[n].p);
  }

  lemma NeverWriting(env: Env, w: World, p: nat)
    requires Replay.ReplayInv(env, w)
    ensures !Pc(w, p).Writing?
  {
    assert !Pc(w, p).Idle? ==> Holds(w.lock, p) && Replay.Consistent(env, w, Pc(w, p));
  }

  lemma NoneFlaggedAfter(env: Env, ws: seq<World>, es: seq<Event>, n: nat)
    requires Run(env, ws, es) && n < |ws|
    requires Replay.Untouched(env, ws[0]) && ws[0].dir.Valid() && Replay.DownsUndoUps(env, ws[0].dir)
    requires forall e :: e in es ==> Replay.UpOrDown(e)
    requires forall p: nat :: Pc(ws[n], p).Idle?
    ensures Hashes.NoneFlagged(env, ws[n].dir, ws[n].rows)
  {
    assert AppliedVersions(ws[0].rows) == [];
    forall i | 0 <= i < n
      ensures Hashes.Orderly(ws[i], es[i])
    {
      OrderlyRun(env, ws, es, i);
    }
    Hashes.UneditedFilesAreNotFlagged(env, ws, es, n);
  }

  /** The file of a reverted row leaves a name that the applied files end with too. */
  ghost predicate LeavesLiveName(src: Verify.Sources, ms: seq<Verify.Migration>, e: Entry) {
    && e.row.status == Reverted && e.version in src.dir.byVersion
    && exists ref :: ref in Verify.Names(ms) && LeavesName(src, e.version, ref)
  }

  ghost predicate LeavesName(src: Verify.Sources, v: nat, ref: ObjectRef)
    requires v in src.dir.byVersion
  {
    MustExist(LifecycleOf(src.MigrationOf(src.dir.byVersion[v]).ops), ref)
  }

  /** All that the drift report finds. */
  ghost predicate OnlyLiveNames(src: Verify.Sources, entries: seq<Entry>) {
    var ms := src.AppliedFiles(entries);
    forall e :: e in entries ==> (Verify.Drifts(src, ms, e) <==> LeavesLiveName(src, ms, e))
  }

  /** When the schema of a database is the replay of its ledger, no row is flagged and none
      is applying, no applied row is drift, and a reverted one is drift if and only if its
      file leaves a name that the applied files end with. */
  lemma ReplayedReport(env: Env, dir: Dir, rows: Rows, schema: Schema, extract: Extract, view: View)
    requires dir.Valid() && Shows(env, extract, view) && AppliedVersions(rows) <= Versions(dir.upFiles)
    requires schema == Replay.Replayed(env, dir.byVersion, AppliedVersions(rows))
    requires Hashes.NoneFlagged(env, dir, rows) && ApplyingSet(rows) == {}
    ensures OnlyLiveNames(SourcesOf(env, dir, schema, extract, view), List(rows))
  {
    var src, entries := SourcesOf(env, dir, schema, extract, view), List(rows);
    var ms := src.AppliedFiles(entries);
    ReplayedHasNoDrift(env, dir, rows, schema, extract, view);
    AppliedRowsAreVersions(src, rows);
    ReplayShowsNames(env, src, view, AppliedVersions(rows));
    assert src.live == Verify.Names(ms);
    forall e | e in entries
      ensures Verify.Drifts(src, ms, e) <==> LeavesLiveName(src, ms, e)
    {
      assert e.row.status != Applying by {
        assert e.row.status == Applying ==> e.version in ApplyingSet(rows);
      }
      RevertedDrifts(src, ms, e);
    }
  }

  lemma RevertedDrifts(src: Verify.Sources, ms: seq<Verify.Migration>, e: Entry)
    requires src.live == Verify.Names(ms)
    ensures e.row.status == Reverted ==> (Verify.Drifts(src, ms, e) <==> LeavesLiveName(src, ms, e))
  {
    if e.row.status == Reverted && e.version in src.dir.byVersion {
      forall ref
        ensures LeavesName(src, e.version, ref) ==
                MustExist(LifecycleOf(src.MigrationOf(src.dir.byVersion[e.version]).ops), ref)
      {
      }
    }
  }

  /** The part about applied rows. */
  lemma ReplayedHasNoDrift(env: Env, dir: Dir, rows: Rows, schema: Schema, extract: Extract, view: View)
    requires dir.Valid() && Shows(env, extract, view) && AppliedVersions(rows) <= Versions(dir.upFiles)
    requires schema == Replay.Replayed(env, dir.byVersion, AppliedVersions(rows))
    requires Hashes.NoneFlagged(env, dir, rows)
    ensures var src := SourcesOf(env, dir, schema, extract, view);
            forall e :: e in List(rows) && e.row.status == Applied ==>
                  !Verify.Drifts(src, src.AppliedFiles(List(rows)), e)
  {
    var src := SourcesOf(env, dir, schema, extract, view);
    AppliedRowsAreVersions(src, rows);
    ReplayShowsNames(env, src, view, AppliedVersions(rows));
    forall e | e in List(rows) && e.row.status == Applied
      ensures e.version in dir.byVersion && !Hashes.Mismatch(env.digest, dir, e.version, e.row)
    {
      assert e.version in AppliedSet(rows) && e.version in AppliedVersions(rows);
      InDirectory(dir, AppliedVersions(rows), e.version);
    }
    Verify.NoDriftMeansReplayExists(src, List(rows));
  }

  lemma InDirectory(dir: Dir, vs: seq<nat>, v: nat)
    requires dir.UpIndexed() && vs <= Versions(dir.upFiles) && v in vs
    ensures v in dir.byVersion
  {
    var i :| 0 <= i < |vs| && vs[i] == v;
    assert dir.upFiles[i] in dir.upFiles && dir.upFiles[i].version == v;
  }

  /** In every state any interleaving of ups, steps and downs reaches from an untouched
      database, with failures and deaths anywhere: if no command is under way and no row
      is applying, the drift report names the reverted rows whose files leave a name that
      is still there, and no other row. */
  lemma MigratedReport(env: Env, ws: seq<World>, es: seq<Event>, n: nat, extract: Extract, view: View)
    requires Run(env, ws, es) && n < |ws|
    requires Replay.Untouched(env, ws[0]) && ws[0].dir.Valid() && Replay.DownsUndoUps(env, ws[0].dir)
    requires forall e :: e in es ==> Replay.UpOrDown(e)
    requires Shows(env, extract, view)
    requires (forall p: nat :: Pc(ws[n], p).Idle?) && ApplyingSet(ws[n].rows) == {}
    ensures OnlyLiveNames(SourcesOf(env, ws[n].dir, ws[n].schema, extract, view), List(ws[n].rows))
  {
    assert AppliedVersions(ws[0].rows) == [];
    Replay.ReplayRun(env, ws, es, n);
    Replay.SchemaIsReplayOfLedger(env, ws, es, n);
    NoneFlaggedAfter(env, ws, es, n);
    ReplayedReport(env, ws[n].dir, ws[n].rows, ws[n].schema, extract, view);
  }

  /** The runner has only migrated an untouched database so far. */
  ghost predicate OnlyMigrated(r: Runner.Runner)
    reads r
  {
    && r.Ready() && Replay.Untouched(r.env, r.trail[0]) && r.trail[0].dir.Valid()
    && Replay.DownsUndoUps(r.env, r.trail[0].dir)
    && forall e :: e in r.log ==> Replay.UpOrDown(e)
  }

  lemma RunnerReport(r: Runner.Runner, extract: Extract, view: View)
    requires OnlyMigrated(r) && Shows(r.env, extract, view) && ApplyingSet(r.rows) == {}
    ensures OnlyLiveNames(SourcesOf(r.env, r.dir, r.schema, extract, view), List(r.rows))
  {
    assert forall p: nat :: Pc(r.Now(), p).Idle?;
    MigratedReport(r.env, r.trail, r.log, |r.log|, extract, view);
  }

  /** The report finds what it should and nothing else. */
  ghost predicate Reported(src: Verify.Sources, entries: seq<Entry>, report: seq<Verify.Finding>) {
    && |report| == |entries|
    && forall i :: 0 <= i < |report| ==> Found(src, entries, report, i)
  }

  ghost predicate Found(src: Verify.Sources, entries: seq<Entry>, report: seq<Verify.Finding>, i: nat)
    requires i < |report| == |entries|
  {
    && report[i].version == entries[i].version
    && (report[i].drift <==> LeavesLiveName(src, src.AppliedFiles(entries), entries[i]))
  }

  /** The drift report on what the runner left. */
  method Report(r: Runner.Runner, extract: Extract, view: View) returns (report: seq<Verify.Finding>)
    requires OnlyMigrated(r) && r.dir.Valid() && Shows(r.env, extract, view)
    ensures |report| == |List(r.rows)|
    ensures ApplyingSet(r.rows) == {} ==>
              Reported(SourcesOf(r.env, r.dir, r.schema, extract, view), List(r.rows), report)
  {
    var entries := List(r.rows);
    var src := SourcesOf(r.env, r.dir, r.schema, extract, view);
    report := Verify.Collect(src, entries);
    if ApplyingSet(r.rows) == {} {
      RunnerReport(r, extract, view);
      AllReported(src, entries, report);
    }
  }

  lemma AllReported(src: Verify.Sources, entries: seq<Entry>, report: seq<Verify.Finding>)
    requires |report| == |entries| && OnlyLiveNames(src, entries)
    requires forall i :: 0 <= i < |entries| ==>
               && Verify.Explains(src, src.AppliedFiles(entries), entries[i], report[i])
               && (report[i].drift <==> Verify.Drifts(src, src.AppliedFiles(entries), entries[i]))
    ensures Reported(src, entries, report)
  {
    forall i | 0 <= i < |report|
      ensures Found(src, entries, report, i)
    {
      assert entries[i] in entries;
      assert Verify.Explains(src, src.AppliedFiles(entries), entries[i], report[i]);
    }
  }

  /** A session of ups, steps and downs and then the drift report. */
  method SessionAndReport(r: Runner.Runner, cmds: seq<Cmd>, extract: Extract, view: View)
    returns (report: seq<Verify.Finding>)
    requires r.Ready() && r.lock == None && r.log == [] && r.rows == map[] && r.schema == r.env.empty
    requires r.dir.Valid() && Replay.DownsUndoUps(r.env, r.dir)
    requires forall c :: c in cmds ==> Commands.Migrating(c)
    requires Shows(r.env, extract, view)
    modifies r
    ensures |report| == |List(r.rows)|
    ensures ApplyingSet(r.rows) == {} ==>
              Reported(SourcesOf(r.env, r.dir, r.schema, extract, view), List(r.rows), report)
  {
    ghost var start := r.trail[0];
    assert Replay.Untouched(r.env, start);
    Commands.Session(r, cmds);
    assert r.trail[0] == start;
    report := Report(r, extract, view);
  }

  // ----- A reverted row that is drift -----

  /** Two files, each with its own version, and the second one's down file. */
  function TwoFiles(first: File, second: File, down: File): Dir {
    Dir([first, second], map[first.version := first, second.version := second], map[second.version := down])
  }

  /** `up` and then `down 1`. */
  function UpDownOne(env: Env, dir: Dir): Runs.Db {
    var up := Runs.MigrateAll(env, dir, Forward, Runs.Fresh(env), Runs.UpPlan(dir, Runs.Fresh(env), 0));
    var plan := dir.DownPlan(AppliedVersions(up.rows), 1);
    if plan.Ok? then Runs.MigrateAll(env, dir, Backward, up, plan.value) else up
  }

  lemma TwoFilesUp(env: Env, first: File, second: File, dir: Dir)
    requires dir.upFiles == [first, second] && first.version < second.version
    ensures var up := Runs.MigrateAll(env, dir, Forward, Runs.Fresh(env), Runs.UpPlan(dir, Runs.Fresh(env), 0));
            && up.schema == env.exec(second.sql, env.exec(first.sql, env.empty))
            && AppliedVersions(up.rows) == [first.version, second.version]
  {
    var p, db := dir.upFiles, Runs.Fresh(env);
    Runs.FreshPending(env, dir);
    assert p == p + [];
    Runs.ForwardPrefix(env, dir, db, p, []);
    assert AppliedVersions(db.rows) == [];
    assert [] + Versions(p) == [first.version, second.version];
    Runs.MigrateNext(env, dir, Forward, db, p, 0);
    Runs.MigrateNext(env, dir, Forward, db, p, 1);
    assert p[..0] == [] && p[..2] == p;
  }

  lemma LastDown(dir: Dir, init: seq<nat>, v: nat)
    requires v in dir.byVersionDown
    ensures dir.DownPlan(init + [v], 1) == Ok([dir.byVersionDown[v]])
  {
    var applied := init + [v];
    assert applied[..|applied| - 1] == init;
    assert dir.DownFiles(init, 0) == Ok([]);
    assert DownCount(|applied|, 1) == 1;
    assert [dir.byVersionDown[v]] + [] == [dir.byVersionDown[v]];
  }

  /** What that run leaves: the second row reverted and the first file's schema. */
  lemma UpDownOneMeans(env: Env, first: File, second: File, down: File)
    requires first.version < second.version == down.version
    requires env.exec(down.sql, env.exec(second.sql, env.exec(first.sql, env.empty))) == env.exec(first.sql, env.empty)
    ensures var after := UpDownOne(env, TwoFiles(first, second, down));
            && after.schema == env.exec(first.sql, env.empty)
            && second.version in after.rows && after.rows[second.version].status == Reverted
  {
    var dir := TwoFiles(first, second, down);
    var up := Runs.MigrateAll(env, dir, Forward, Runs.Fresh(env), Runs.UpPlan(dir, Runs.Fresh(env), 0));
    TwoFilesUp(env, first, second, dir);
    LastDown(dir, [first.version], second.version);
    assert [first.version] + [second.version] == [first.version, second.version];
    Runs.MigrateNext(env, dir, Backward, up, [down], 0);
    assert [down][..0] == [] && [down][..1] == [down];
  }

  /** Version 1 creates a view and version 2 replaces it: after `up` and `down 1` the view
      is there, as it should be, and version 2 is reported as drift. */
  lemma ReplacedNameIsDrift(env: Env, first: File, second: File, down: File, extract: Extract, view: View,
                            ref: ObjectRef)
    requires first.version < second.version == down.version && Shows(env, extract, view)
    requires env.exec(down.sql, env.exec(second.sql, env.exec(first.sql, env.empty))) == env.exec(first.sql, env.empty)
    requires MustExist(LifecycleOf(StableSort(extract(first.sql))), ref)
    requires MustExist(LifecycleOf(StableSort(extract(second.sql))), ref)
    ensures var dir := TwoFiles(first, second, down);
            var after := UpDownOne(env, dir);
            var src, entries := SourcesOf(env, dir, after.schema, extract, view), List(after.rows);
            exists e :: e in entries && e.version == second.version && e.row.status == Reverted
                        && Verify.Drifts(src, src.AppliedFiles(entries), e)
  {
    var dir := TwoFiles(first, second, down);
    var after := UpDownOne(env, dir);
    UpDownOneMeans(env, first, second, down);
    var src, entries := SourcesOf(env, dir, after.schema, extract, view), List(after.rows);
    var ops := StableSort(extract(first.sql));
    LifecycleMeans(ops, ref);
    RunOpsMeans({}, ops, ref);
    assert ref in src.live;
    var e := Entry(second.version, after.rows[second.version]);
    assert e in entries && Verify.Drifts(src, src.AppliedFiles(entries), e);
  }
}
