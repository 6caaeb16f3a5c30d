/** Applying never moves the watermark down and never strands a file. */
module Watermark {
  import opened Wrappers
  import opened Ordered
  import opened Ledger
  import opened Migrations
  import opened Protocol

  /** The process, if it does anything, is an `up` or a `step`, and what it still has
      to run is a prefix of what is pending. */
  ghost predicate Applying(dir: Dir, rows: Rows, pc: Proc) {
    match pc
    case Idle => true
    case Leaving => true
    case Holding(cmd) => cmd.Apply?
    case Checked(cmd, _) => cmd.Apply?
    case Running(dirn, plan) => dirn.Forward? && plan <= dir.Pending(QueryState(rows))
    case Executing(dirn, plan) => dirn.Forward? && plan <= dir.Pending(QueryState(rows))
    case Executed(dirn, plan) => dirn.Forward? && plan <= dir.Pending(QueryState(rows))
    case Writing(_, _) => false
  }

  ghost predicate UpInv(w: World) {
    && Inv(w)
    && AscendingFiles(w.dir.upFiles)
    && forall p: nat :: Applying(w.dir, w.rows, Pc(w, p))
  }

  ghost predicate OnlyApplies(e: Event) {
    e.Acquire? ==> e.cmd.Apply?
  }

  ghost predicate NeverFalls(st: State, st': State) {
    st.hasVersion ==> st'.hasVersion && st.version <= st'.version
  }

  /** Files the watermark moves past in one step are the applied one only. */
  lemma {:induction false} BelowAgrees(files: seq<File>, w: nat, w': nat, applied: set<nat>, applied': set<nat>)
    requires forall f :: f in files ==>
               ((f.version < w && f.version !in applied) <==> (f.version < w' && f.version !in applied'))
    ensures Below(files, w, applied) == Below(files, w', applied')
  {
    if files != [] {
      BelowAgrees(files[1..], w, w', applied, applied');
    }
  }

  lemma {:induction false} BelowNothing(files: seq<File>, w: nat, applied: set<nat>)
    requires forall f :: f in files ==> !(f.version < w && f.version !in applied)
    ensures Below(files, w, applied) == []
  {
    if files != [] {
      BelowNothing(files[1..], w, applied);
    }
  }

  /** Rows that agree on what is applied give the same watermark. */
  lemma SameApplied(rows: Rows, rows': Rows)
    requires AppliedSet(rows) == AppliedSet(rows')
    ensures QueryState(rows).hasVersion == QueryState(rows').hasVersion
    ensures QueryState(rows).version == QueryState(rows').version
  {
  }

  /** Recording the first pending file as applied makes it the watermark, makes the
      others pending and leaves the ignored files alone. */
  lemma ApplyFirstPending(dir: Dir, rows: Rows, rows': Rows, f: File)
    requires AscendingFiles(dir.upFiles)
    requires dir.Pending(QueryState(rows)) != [] && dir.Pending(QueryState(rows))[0] == f
    requires AppliedSet(rows') == AppliedSet(rows) + {f.version}
    ensures var st, st' := QueryState(rows), QueryState(rows');
            && st'.hasVersion && st'.version == f.version && f.version !in AppliedSet(rows)
            && NeverFalls(st, st')
            && dir.Pending(st') == dir.Pending(st)[1..]
            && dir.Ignored(st', AppliedSet(rows')) == dir.Ignored(st, AppliedSet(rows))
  {
    var st, st' := QueryState(rows), QueryState(rows');
    PendingAdvances(dir.upFiles, st.version, st.hasVersion);
    assert forall v :: v in AppliedSet(rows) ==> v < f.version;
    assert st'.version == f.version;
    var k := AfterIsSuffix(dir.upFiles, st.version, st.hasVersion);
    assert f == dir.upFiles[k];
    if st.hasVersion {
      forall g | g in dir.upFiles
        ensures (g.version < st.version && g.version !in AppliedSet(rows)) <==>
                (g.version < f.version && g.version !in AppliedSet(rows'))
      {
        var i :| 0 <= i < |dir.upFiles| && dir.upFiles[i] == g;
        if i < k {
          assert g.version <= st.version;
        }
      }
      BelowAgrees(dir.upFiles, st.version, f.version, AppliedSet(rows), AppliedSet(rows'));
    } else {
      BelowNothing(dir.upFiles, f.version, AppliedSet(rows'));
    }
  }

  lemma UpPlanIsPrefix(dir: Dir, st: State, limit: int)
    ensures dir.UpPlan(st, limit) <= dir.Pending(st)
  {
  }

  lemma UpRowsStep(env: Env, w: World, e: Event)
    requires UpInv(w) && Enabled(w, e) && OnlyApplies(e)
    ensures var w' := Next(env, w, e);
            var st, st' := QueryState(w.rows), QueryState(w'.rows);
            && w'.dir == w.dir
            && Applying(w'.dir, w'.rows, Pc(w', e.p))
            && NeverFalls(st, st')
            && w'.dir.Ignored(st', AppliedSet(w'.rows)) == w.dir.Ignored(st, AppliedSet(w.rows))
  {
    var w' := Next(env, w, e);
    var pc := Pc(w, e.p);
    assert Applying(w.dir, w.rows, pc);
    match e
    case Prepare(_) =>
      UpPlanIsPrefix(w.dir, pc.st, pc.cmd.limit);
    case Mark(_) =>
      var v := pc.plan[0].version;
      AfterMeans(w.dir.upFiles, QueryState(w.rows).version, QueryState(w.rows).hasVersion);
      assert pc.plan[0] in w.dir.Pending(QueryState(w.rows));
      assert v !in AppliedSet(w.rows);
      PutApplying(w.rows, SetStatus(v, Ledger.Applying));
      assert AppliedSet(w'.rows) == AppliedSet(w.rows);
      SameApplied(w.rows, w'.rows);
    case Record(_) =>
      PutApplying(w.rows, RecordOf(env, w.dir, pc.dirn, pc.plan[0]));
      ApplyFirstPending(w.dir, w.rows, w'.rows, pc.plan[0]);
    case _ =>
  }

  lemma UpStep(env: Env, w: World, e: Event)
    requires UpInv(w) && Enabled(w, e) && OnlyApplies(e)
    ensures var w' := Next(env, w, e);
            var st, st' := QueryState(w.rows), QueryState(w'.rows);
            && UpInv(w')
            && w'.dir == w.dir
            && NeverFalls(st, st')
            && w'.dir.Ignored(st', AppliedSet(w'.rows)) == w.dir.Ignored(st, AppliedSet(w.rows))
  {
    var w' := Next(env, w, e);
    UpRowsStep(env, w, e);
    InvStep(env, w, e);
    forall p: nat
      ensures Applying(w'.dir, w'.rows, Pc(w', p))
    {
      if p != e.p {
        assert Pc(w', p) == Pc(w, p);
        assert Pc(w, p).Idle?;
      }
    }
  }

  /** Over any run of ups and steps, complete or partial, by any number of processes,
      the watermark never falls and the ignored files never change. */
  lemma {:induction false} ApplyingStrandsNothing(env: Env, ws: seq<World>, es: seq<Event>, n: nat)
    requires Run(env, ws, es) && n < |ws|
    requires Quiet(ws[0]) && AscendingFiles(ws[0].dir.upFiles)
    requires forall e :: e in es ==> OnlyApplies(e)
    ensures var st, st' := QueryState(ws[0].rows), QueryState(ws[n].rows);
            && NeverFalls(st, st')
            && ws[n].dir.Ignored(st', AppliedSet(ws[n].rows)) == ws[0].dir.Ignored(st, AppliedSet(ws[0].rows))
    ensures UpInv(ws[n])
  {
    if n > 0 {
      ApplyingStrandsNothing(env, ws, es, n - 1);
      UpStep(env, ws[n - 1], es[n - 1]);
    }
  }
}
