/** Safety of the ledger as the only record: whenever nothing is under way and no row is
    applying, the schema is the replay of the applied versions. */
module Replay {
  import opened Wrappers
  import opened Ordered
  import opened Ledger
  import opened Migrations
  import opened Protocol
  import Watermark

  /** Running the up files of `vs` in order on an untouched database. */
  function Replayed(env: Env, index: map<nat, File>, vs: seq<nat>): Schema {
    if vs == [] then env.empty
    else
      var before := Replayed(env, index, vs[..|vs| - 1]);
      var v := vs[|vs| - 1];
      if v in index then env.exec(index[v].sql, before) else before
  }

  /** The down file of `v`, if there is one, undoes its up file on top of the replay of `vs`. */
  ghost predicate Undoes(env: Env, dir: Dir, vs: seq<nat>, v: nat) {
    v in dir.byVersion && v in dir.byVersionDown ==>
      env.exec(dir.byVersionDown[v].sql, Replayed(env, dir.byVersion, vs + [v])) == Replayed(env, dir.byVersion, vs)
  }

  /** Each down file undoes its up file at that file's own place in the history: on top of
      the replay of the files before it. */
  ghost predicate DownsUndoUps(env: Env, dir: Dir) {
    forall k :: 0 <= k < |dir.upFiles| ==> Undoes(env, dir, Versions(dir.upFiles)[..k], dir.upFiles[k].version)
  }

  /** For one up file and its down file that is one equation; nothing is asked of running
      the up file twice. */
  lemma OneFileNeedsOneUndo(env: Env, up: File, down: File)
    requires up.version == down.version
    ensures DownsUndoUps(env, Dir([up], map[up.version := up], map[up.version := down]))
            <==> env.exec(down.sql, env.exec(up.sql, env.empty)) == env.empty
  {
    var dir := Dir([up], map[up.version := up], map[up.version := down]);
    ReplayedNext(env, dir.byVersion, [], up.version);
    assert Versions(dir.upFiles)[..0] == [] && [] + [up.version] == [up.version];
    assert DownsUndoUps(env, dir) <==> Undoes(env, dir, Versions(dir.upFiles)[..0], dir.upFiles[0].version);
  }

  ghost predicate Matches(env: Env, w: World, vs: seq<nat>) {
    w.schema == Replayed(env, w.dir.byVersion, vs)
  }

  /** What the lock holder's position says about the schema: going forward it pushes
      above the highest applied version, going backward it pops that version. */
  ghost predicate Consistent(env: Env, w: World, pc: Proc) {
    var applied := AppliedVersions(w.rows);
    match pc
    case Idle => ApplyingSet(w.rows) == {} ==> Matches(env, w, applied)
    case Leaving => ApplyingSet(w.rows) == {} ==> Matches(env, w, applied)
    case Holding(cmd) =>
      (cmd.Apply? || cmd.Revert?) && (ApplyingSet(w.rows) == {} ==> Matches(env, w, applied))
    case Checked(cmd, _) => (cmd.Apply? || cmd.Revert?) && Matches(env, w, applied)
    case Running(Forward, plan) => Matches(env, w, applied) && plan <= w.dir.Pending(QueryState(w.rows))
    case Running(Backward, plan) => Matches(env, w, applied) && Tail(w.dir, applied, plan)
    case Executing(Forward, plan) => Matches(env, w, applied) && plan <= w.dir.Pending(QueryState(w.rows))
    case Executing(Backward, plan) =>
      && plan != [] && Popped(w, plan[0].version) && plan[0].version in w.dir.byVersionDown
      && plan[0] == w.dir.byVersionDown[plan[0].version]
      && Tail(w.dir, applied, plan[1..])
      && applied + [plan[0].version] <= Versions(w.dir.upFiles)
      && Matches(env, w, applied + [plan[0].version])
    case Executed(Forward, plan) =>
      && plan != [] && plan <= w.dir.Pending(QueryState(w.rows))
      && Matches(env, w, applied + [plan[0].version])
    case Executed(Backward, plan) =>
      && plan != [] && Popped(w, plan[0].version) && Tail(w.dir, applied, plan[1..])
      && Matches(env, w, applied)
    case Writing(_, _) => false
  }

  /** `plan` is what a revert of the last `|plan|` of the applied versions runs. */
  ghost predicate Tail(dir: Dir, applied: seq<nat>, plan: seq<File>) {
    |plan| <= |applied| && dir.DownFiles(applied, |plan|) == Ok(plan)
  }

  /** `v` was the highest applied version before it was marked. */
  ghost predicate Popped(w: World, v: nat) {
    v in w.dir.byVersion && forall u :: u in AppliedSet(w.rows) ==> u < v
  }

  ghost predicate ReplayInv(env: Env, w: World) {
    && Inv(w)
    && w.dir.Valid()
    && DownsUndoUps(env, w.dir)
    && AppliedVersions(w.rows) <= Versions(w.dir.upFiles)
    && (w.lock == None && ApplyingSet(w.rows) == {} ==> Matches(env, w, AppliedVersions(w.rows)))
    && (w.lock.Some? ==> Consistent(env, w, Pc(w, w.lock.value.holder)))
  }

  ghost predicate UpOrDown(e: Event) {
    e.Acquire? ==> e.cmd.Apply? || e.cmd.Revert?
  }

  lemma DownFilesLength(dir: Dir, applied: seq<nat>, count: nat)
    requires count <= |applied|
    ensures var r := dir.DownFiles(applied, count); r.Ok? ==> |r.value| == count
    decreases count
  {
  }

  /** A planned revert starts with the newest applied version. */
  lemma TailHead(dir: Dir, rows: Rows, plan: seq<File>)
    requires dir.Valid() && plan != [] && Tail(dir, AppliedVersions(rows), plan)
    ensures var applied := AppliedVersions(rows);
            && plan[0].version == applied[|applied| - 1]
            && plan[0].version in dir.byVersionDown && plan[0] == dir.byVersionDown[plan[0].version]
            && Tail(dir, applied[..|applied| - 1], plan[1..])
            && (forall u :: u in AppliedSet(rows) && u != plan[0].version ==> u < plan[0].version)
            && plan[0].version in AppliedSet(rows)
  {
    var applied := AppliedVersions(rows);
    assert applied[|applied| - 1] in applied;
    forall u | u in AppliedSet(rows) && u != plan[0].version
      ensures u < plan[0].version
    {
      assert u in applied;
    }
  }

  /** Taking the newest version off the applied set takes the last off the list. */
  lemma PopApplied(rows: Rows, rows': Rows, v: nat)
    requires v in AppliedSet(rows) && forall u :: u in AppliedSet(rows) && u != v ==> u < v
    requires AppliedSet(rows') == AppliedSet(rows) - {v}
    ensures AppliedVersions(rows) == AppliedVersions(rows') + [v]
  {
    SortedPop(AppliedSet(rows), v);
  }

  /** Applying the first planned file pushes its version and leaves the rest planned. */
  lemma PushApplied(dir: Dir, rows: Rows, rows': Rows, plan: seq<File>)
    requires AscendingFiles(dir.upFiles) && plan != [] && plan <= dir.Pending(QueryState(rows))
    requires AppliedSet(rows') == AppliedSet(rows) + {plan[0].version}
    ensures AppliedVersions(rows') == AppliedVersions(rows) + [plan[0].version]
    ensures plan[1..] <= dir.Pending(QueryState(rows'))
  {
    AbovePending(dir, rows, plan);
    Watermark.ApplyFirstPending(dir, rows, rows', plan[0]);
    SortedPush(AppliedSet(rows), plan[0].version);
  }

  /** A pending file is a file of the directory above every applied version. */
  lemma AbovePending(dir: Dir, rows: Rows, plan: seq<File>)
    requires plan != [] && plan <= dir.Pending(QueryState(rows))
    ensures plan[0] in dir.upFiles && forall u :: u in AppliedSet(rows) ==> u < plan[0].version
  {
    var st := QueryState(rows);
    AfterMeans(dir.upFiles, st.version, st.hasVersion);
    assert plan[0] in dir.Pending(st);
  }

  lemma PendingHead(dir: Dir, rows: Rows, plan: seq<File>)
    requires dir.UpIndexed() && plan != [] && plan <= dir.Pending(QueryState(rows))
    ensures plan[0].version in dir.byVersion && dir.byVersion[plan[0].version] == plan[0]
    ensures forall u :: u in AppliedSet(rows) ==> u < plan[0].version
  {
    AbovePending(dir, rows, plan);
  }

  // ----- The applied versions are the first ones of the directory -----

  /** While that is so, what is pending is the rest of the directory. */
  lemma PendingIsNext(dir: Dir, rows: Rows)
    requires AscendingFiles(dir.upFiles) && AppliedVersions(rows) <= Versions(dir.upFiles)
    ensures dir.Pending(QueryState(rows)) == dir.upFiles[|AppliedVersions(rows)|..]
  {
    var applied, st := AppliedVersions(rows), QueryState(rows);
    var k := |applied|;
    var j := AfterIsSuffix(dir.upFiles, st.version, st.hasVersion);
    if k > 0 {
      assert applied[0] in applied;
      MaxIsLast(AppliedSet(rows));
      assert st.hasVersion && st.version == dir.upFiles[k - 1].version;
      assert !(j <= k - 1);
      assert k < |dir.upFiles| ==> dir.upFiles[k - 1].version < dir.upFiles[k].version;
      assert !(k < j);
    } else {
      NothingListed(AppliedSet(rows));
    }
  }

  lemma NothingListed(s: set<nat>)
    requires Sorted(s) == []
    ensures s == {}
  {
    if s != {} {
      MaxIsLast(s);
    }
  }

  lemma NextVersion(files: seq<File>, applied: seq<nat>, v: nat)
    requires applied <= Versions(files) && |applied| < |files| && v == files[|applied|].version
    ensures applied + [v] <= Versions(files)
  {
  }

  /** A down file run in its turn undoes its up file. */
  lemma UndoneInPlace(env: Env, dir: Dir, applied: seq<nat>, v: nat)
    requires DownsUndoUps(env, dir) && applied + [v] <= Versions(dir.upFiles)
    ensures Undoes(env, dir, applied, v)
  {
    var k := |applied|;
    assert (applied + [v])[k] == v && (applied + [v])[..k] == applied;
    assert applied == Versions(dir.upFiles)[..k];
    assert dir.upFiles[k].version == v;
  }

  lemma ReplayedNext(env: Env, index: map<nat, File>, vs: seq<nat>, v: nat)
    ensures Replayed(env, index, vs + [v]) ==
            if v in index then env.exec(index[v].sql, Replayed(env, index, vs)) else Replayed(env, index, vs)
  {
    assert (vs + [v])[..|vs|] == vs;
  }

  // ----- One lemma a step that changes rows or schema -----

  /** Marking a version that is not applied changes nothing that is derived from the
      applied ones. */
  lemma MarkKeepsApplied(dir: Dir, rows: Rows, v: nat)
    requires v !in AppliedSet(rows)
    ensures var rows' := Put(rows, SetStatus(v, Applying));
            && AppliedVersions(rows') == AppliedVersions(rows)
            && dir.Pending(QueryState(rows')) == dir.Pending(QueryState(rows))
  {
    PutApplying(rows, SetStatus(v, Applying));
    assert AppliedSet(rows) - {v} == AppliedSet(rows);
    Watermark.SameApplied(rows, Put(rows, SetStatus(v, Applying)));
  }

  lemma MarkForward(env: Env, w: World, e: Event)
    requires ReplayInv(env, w) && Enabled(w, e) && e.Mark? && Pc(w, e.p).dirn.Forward?
    ensures var w' := Next(env, w, e);
            Consistent(env, w', Pc(w', e.p)) && AppliedVersions(w'.rows) == AppliedVersions(w.rows)
  {
    var pc := Pc(w, e.p);
    assert Consistent(env, w, pc);
    PendingHead(w.dir, w.rows, pc.plan);
    MarkKeepsApplied(w.dir, w.rows, pc.plan[0].version);
  }

  lemma MarkBackward(env: Env, w: World, e: Event)
    requires ReplayInv(env, w) && Enabled(w, e) && e.Mark? && Pc(w, e.p).dirn.Backward?
    ensures var w' := Next(env, w, e);
            Consistent(env, w', Pc(w', e.p)) && AppliedVersions(w'.rows) <= AppliedVersions(w.rows)
  {
    var w' := Next(env, w, e);
    var pc := Pc(w, e.p);
    var v := pc.plan[0].version;
    assert Consistent(env, w, pc);
    PutApplying(w.rows, SetStatus(v, Applying));
    TailHead(w.dir, w.rows, pc.plan);
    PopApplied(w.rows, w'.rows, v);
    var applied := AppliedVersions(w.rows);
    assert applied[..|applied| - 1] == AppliedVersions(w'.rows);
  }

  lemma MarkStep(env: Env, w: World, e: Event)
    requires ReplayInv(env, w) && Enabled(w, e) && e.Mark?
    ensures ReplayInv(env, Next(env, w, e))
  {
    InvStep(env, w, e);
    if Pc(w, e.p).dirn.Forward? {
      MarkForward(env, w, e);
    } else {
      MarkBackward(env, w, e);
    }
  }

  lemma ExecForward(env: Env, w: World, e: Event)
    requires ReplayInv(env, w) && Enabled(w, e) && e.ExecOk? && Pc(w, e.p).dirn.Forward?
    ensures var w' := Next(env, w, e); Consistent(env, w', Pc(w', e.p))
  {
    var pc := Pc(w, e.p);
    assert Consistent(env, w, pc);
    PendingHead(w.dir, w.rows, pc.plan);
    ReplayedNext(env, w.dir.byVersion, AppliedVersions(w.rows), pc.plan[0].version);
  }

  lemma ExecStep(env: Env, w: World, e: Event)
    requires ReplayInv(env, w) && Enabled(w, e) && e.ExecOk?
    ensures ReplayInv(env, Next(env, w, e))
  {
    InvStep(env, w, e);
    if Pc(w, e.p).dirn.Forward? {
      ExecForward(env, w, e);
    } else {
      var pc := Pc(w, e.p);
      assert Consistent(env, w, pc);
      UndoneInPlace(env, w.dir, AppliedVersions(w.rows), pc.plan[0].version);
    }
  }

  lemma RecordForward(env: Env, w: World, e: Event)
    requires ReplayInv(env, w) && Enabled(w, e) && e.Record? && Pc(w, e.p).dirn.Forward?
    ensures var w' := Next(env, w, e);
            Consistent(env, w', Pc(w', e.p)) && AppliedVersions(w'.rows) <= Versions(w.dir.upFiles)
  {
    var w' := Next(env, w, e);
    var pc := Pc(w, e.p);
    var f := pc.plan[0];
    assert Consistent(env, w, pc);
    PutApplying(w.rows, RecordOf(env, w.dir, pc.dirn, f));
    PendingIsNext(w.dir, w.rows);
    NextVersion(w.dir.upFiles, AppliedVersions(w.rows), f.version);
    PushApplied(w.dir, w.rows, w'.rows, pc.plan);
  }

  lemma RecordBackward(env: Env, w: World, e: Event)
    requires ReplayInv(env, w) && Enabled(w, e) && e.Record? && Pc(w, e.p).dirn.Backward?
    ensures var w' := Next(env, w, e);
            Consistent(env, w', Pc(w', e.p)) && AppliedVersions(w'.rows) == AppliedVersions(w.rows)
  {
    var w' := Next(env, w, e);
    var pc := Pc(w, e.p);
    assert Consistent(env, w, pc);
    PutApplying(w.rows, RecordOf(env, w.dir, pc.dirn, pc.plan[0]));
    assert AppliedSet(w'.rows) == AppliedSet(w.rows);
  }

  lemma RecordStep(env: Env, w: World, e: Event)
    requires ReplayInv(env, w) && Enabled(w, e) && e.Record?
    ensures ReplayInv(env, Next(env, w, e))
  {
    InvStep(env, w, e);
    if Pc(w, e.p).dirn.Forward? {
      RecordForward(env, w, e);
    } else {
      RecordBackward(env, w, e);
    }
  }

  lemma PrepareStep(env: Env, w: World, e: Event)
    requires ReplayInv(env, w) && Enabled(w, e) && e.Prepare?
    ensures ReplayInv(env, Next(env, w, e))
  {
    var pc := Pc(w, e.p);
    InvStep(env, w, e);
    assert Consistent(env, w, pc);
    if pc.cmd.Apply? {
      Watermark.UpPlanIsPrefix(w.dir, pc.st, pc.cmd.limit);
    } else {
      var applied := AppliedVersions(w.rows);
      DownFilesLength(w.dir, applied, DownCount(|applied|, pc.cmd.steps));
    }
  }

  lemma ReplayStep(env: Env, w: World, e: Event)
    requires ReplayInv(env, w) && Enabled(w, e) && UpOrDown(e)
    ensures ReplayInv(env, Next(env, w, e))
  {
    match e
    case Mark(_) => MarkStep(env, w, e);
    case ExecOk(_) => ExecStep(env, w, e);
    case Record(_) => RecordStep(env, w, e);
    case Prepare(_) => PrepareStep(env, w, e);
    case _ =>
      InvStep(env, w, e);
  }

  lemma {:induction false} ReplayRun(env: Env, ws: seq<World>, es: seq<Event>, n: nat)
    requires Run(env, ws, es) && n < |ws|
    requires ReplayInv(env, ws[0]) && forall e :: e in es ==> UpOrDown(e)
    ensures ReplayInv(env, ws[n])
  {
    if n > 0 {
      ReplayRun(env, ws, es, n - 1);
      ReplayStep(env, ws[n - 1], es[n - 1]);
    }
  }

  /** A database no migration has touched, with no command under way. */
  ghost predicate Untouched(env: Env, w: World) {
    Quiet(w) && w.rows == map[] && w.schema == env.empty
  }

  /** In every state any interleaving of ups, steps and downs reaches, each process free
      to fail or die at any step and a failure free to leave any schema behind: if no
      command is under way and no row is applying, the schema is the replay of the up
      files of the applied versions in ascending order, and those are the first files of
      the directory. Of the down files it is asked only that each undoes its up file
      where that file stands in the directory. */
  lemma SchemaIsReplayOfLedger(env: Env, ws: seq<World>, es: seq<Event>, n: nat)
    requires Run(env, ws, es) && n < |ws|
    requires Untouched(env, ws[0]) && ws[0].dir.Valid() && DownsUndoUps(env, ws[0].dir)
    requires forall e :: e in es ==> UpOrDown(e)
    ensures (forall p: nat :: Pc(ws[n], p).Idle?) && ApplyingSet(ws[n].rows) == {} ==>
              ws[n].schema == Replayed(env, ws[n].dir.byVersion, AppliedVersions(ws[n].rows))
    ensures AppliedVersions(ws[n].rows) <= Versions(ws[n].dir.upFiles)
  {
    assert AppliedVersions(ws[0].rows) == [];
    ReplayRun(env, ws, es, n);
  }
}
