/** The content-hash check finds every edited file: what up, step and down record, what an
    import records, and what the report says of a file that was changed afterwards.
    Sources: internal/migrator/runner.go, internal/verify/collect.go. */
module Edits {
  import opened Wrappers
  import opened Ledger
  import opened Migrations
  import opened Protocol
  import opened Runs
  import Hashes
  import Runner
  import Verify

  /** An applied row has the hash of the file its version names, unless it was imported. */
  ghost predicate HashesKept(env: Env, dir: Dir, rows: Rows) {
    forall v :: v in AppliedSet(rows) ==> rows[v].source == ADOPTED || Recorded(env, dir.byVersion, Applied, rows, v)
  }

  /** The commands that record what they ran, what they reverted or what they imported. */
  predicate Recording(cmd: Cmd) {
    cmd.Apply? || cmd.Revert? || cmd.Rollback? || cmd.Adopt?
  }

  ghost predicate OnlyRecording(es: seq<Event>) {
    forall e :: e in es && e.Acquire? ==> Recording(e.cmd)
  }

  ghost predicate FromDir(dir: Dir, plan: seq<File>) {
    forall f :: f in plan ==> f in dir.upFiles
  }

  /** What the lock holder is about to write. */
  ghost predicate HolderRecords(dir: Dir, pc: Proc) {
    match pc
    case Holding(cmd) => Recording(cmd)
    case Checked(cmd, _) => Recording(cmd)
    case Running(Forward, plan) => FromDir(dir, plan)
    case Executing(Forward, plan) => FromDir(dir, plan)
    case Executed(Forward, plan) => FromDir(dir, plan)
    case Writing(_, todo) => forall t :: t in todo ==> Hashes.Harmless(t)
    case _ => true
  }

  ghost predicate KeptInv(env: Env, w: World) {
    && w.dir.Valid() && HashesKept(env, w.dir, w.rows)
    && (forall p: nat :: HolderRecords(w.dir, Pc(w, p)))
  }

  lemma HarmlessKeeps(env: Env, dir: Dir, rows: Rows, t: Write)
    requires HashesKept(env, dir, rows) && Hashes.Harmless(t)
    ensures HashesKept(env, dir, Put(rows, t))
  {
    forall v | v in AppliedSet(Put(rows, t)) && v != t.version
      ensures v in AppliedSet(rows) && Put(rows, t)[v] == rows[v]
    {
    }
  }

  lemma {:induction false} HarmlessAllKeep(env: Env, dir: Dir, rows: Rows, todo: seq<Write>)
    requires HashesKept(env, dir, rows) && forall t :: t in todo ==> Hashes.Harmless(t)
    ensures HashesKept(env, dir, PutAll(rows, todo))
    decreases |todo|
  {
    if todo != [] {
      HarmlessKeeps(env, dir, rows, todo[0]);
      HarmlessAllKeep(env, dir, Put(rows, todo[0]), todo[1..]);
    }
  }

  lemma RecordKeeps(env: Env, dir: Dir, rows: Rows, dirn: Direction, f: File)
    requires HashesKept(env, dir, rows) && dir.UpIndexed() && (dirn.Forward? ==> f in dir.upFiles)
    ensures HashesKept(env, dir, Put(rows, RecordOf(env, dir, dirn, f)))
  {
    var rows' := Put(rows, RecordOf(env, dir, dirn, f));
    forall v | v in AppliedSet(rows')
      ensures rows'[v].source == ADOPTED || Recorded(env, dir.byVersion, Applied, rows', v)
    {
      if v != f.version {
        assert v in AppliedSet(rows) && rows'[v] == rows[v];
      }
    }
  }

  lemma PreparedRecords(env: Env, w: World, e: Event)
    requires KeptInv(env, w) && Enabled(w, e) && e.Prepare?
    ensures var w' := Next(env, w, e);
            w'.dir == w.dir && w'.rows == w.rows && HolderRecords(w.dir, Pc(w', e.p))
  {
    var pc := Pc(w, e.p);
    assert HolderRecords(w.dir, pc);
    if pc.Checked? && pc.cmd.Apply? {
      PlanAscends(w.dir, pc.st, pc.cmd.limit);
    }
  }

  lemma RowsKept(env: Env, w: World, e: Event)
    requires KeptInv(env, w) && Enabled(w, e)
    ensures var w' := Next(env, w, e);
            w'.dir == w.dir && HashesKept(env, w'.dir, w'.rows)
  {
    var pc := Pc(w, e.p);
    assert HolderRecords(w.dir, pc);
    match e
    case Prepare(_) => PreparedRecords(env, w, e);
    case Mark(_) => HarmlessKeeps(env, w.dir, w.rows, SetStatus(pc.plan[0].version, Applying));
    case Record(_) => RecordKeeps(env, w.dir, w.rows, pc.dirn, pc.plan[0]);
    case WriteRow(_) => HarmlessKeeps(env, w.dir, w.rows, pc.todo[0]);
    case WriteAll(_) => HarmlessAllKeep(env, w.dir, w.rows, pc.todo);
    case _ =>
  }

  lemma KeptStep(env: Env, w: World, e: Event)
    requires KeptInv(env, w) && Enabled(w, e) && (e.Acquire? ==> Recording(e.cmd))
    ensures KeptInv(env, Next(env, w, e))
  {
    RowsKept(env, w, e);
    var w' := Next(env, w, e);
    assert HolderRecords(w.dir, Pc(w, e.p));
    if e.Prepare? {
      PreparedRecords(env, w, e);
    }
    assert HolderRecords(w'.dir, Pc(w', e.p));
    assert forall p: nat :: p != e.p ==> Pc(w', p) == Pc(w, p);
  }

  lemma {:induction false} KeptRun(env: Env, ws: seq<World>, es: seq<Event>, n: nat)
    requires Run(env, ws, es) && n < |ws| && KeptInv(env, ws[0]) && OnlyRecording(es)
    ensures KeptInv(env, ws[n]) && ws[n].dir == ws[0].dir
  {
    if n > 0 {
      KeptRun(env, ws, es, n - 1);
      assert es[n - 1] in es;
      KeptStep(env, ws[n - 1], es[n - 1]);
      RowsKept(env, ws[n - 1], es[n - 1]);
    }
  }

  /** The file of an applied version is another one now than when the version was applied,
      as far as hashes tell. */
  predicate Edited(env: Env, before: Dir, after: Dir, v: nat) {
    && v in before.byVersion && v in after.byVersion
    && env.digest(before.byVersion[v].sql) != ""
    && env.digest(after.byVersion[v].sql) != env.digest(before.byVersion[v].sql)
  }

  lemma RecordedIsChecked(env: Env, dir: Dir, rows: Rows, v: nat, edited: Dir)
    requires Recorded(env, dir.byVersion, Applied, rows, v)
    ensures Hashes.Mismatch(env.digest, edited, v, rows[v]) <==> Edited(env, dir, edited, v)
  {
  }

  /** In every state reached from a ledger with nothing applied by ups, steps, downs,
      rollbacks and imports, with failures and deaths anywhere: whatever becomes of the
      directory, the hash check flags exactly the applied versions whose files were edited,
      except those that were imported. */
  lemma EditsAreFlagged(env: Env, ws: seq<World>, es: seq<Event>, n: nat, edited: Dir, v: nat)
    requires Run(env, ws, es) && n < |ws| && OnlyRecording(es)
    requires Quiet(ws[0]) && ws[0].dir.Valid() && AppliedSet(ws[0].rows) == {}
    requires v in AppliedSet(ws[n].rows)
    ensures Hashes.Mismatch(env.digest, edited, v, ws[n].rows[v]) <==>
            ws[n].rows[v].source != ADOPTED && Edited(env, ws[0].dir, edited, v)
  {
    KeptRun(env, ws, es, n);
    if ws[n].rows[v].source != ADOPTED {
      RecordedIsChecked(env, ws[n].dir, ws[n].rows, v, edited);
    }
  }

  /** An imported version is never flagged, whatever becomes of its file. */
  lemma ImportedIsNeverFlagged(env: Env, dir: Dir, rows: Rows, v: nat, hash: string, edited: Dir)
    ensures !Hashes.Mismatch(env.digest, edited, v, Put(rows, SetStatusAdopted(v, hash))[v])
  {
  }

  // ----- The report -----

  /** Applies pending files and then reports on a directory in which some of them may have
      been edited: of each file applied the report says so exactly when it was. */
  method UpAndReport(r: Runner.Runner, limit: int, src: Verify.Sources)
    returns (applied: nat, report: seq<Verify.Finding>)
    requires r.Ready() && AscendingFiles(r.dir.upFiles) && !QueryState(r.rows).dirty
    requires src.digest == r.env.digest && src.dir.UpIndexed()
    modifies r
    ensures |report| == |List(r.rows)| && applied <= |UpPlan(r.dir, old(r.Data()), limit)|
    ensures forall i, k ::
              (0 <= i < |report| && 0 <= k < applied
               && List(r.rows)[i].version == UpPlan(r.dir, old(r.Data()), limit)[k].version) ==>
                (Verify.FileEdited in report[i].details <==> Edited(r.env, r.dir, src.dir, report[i].version))
  {
    ghost var plan := UpPlan(r.dir, r.Data(), limit);
    var err;
    applied, err := r.Apply(limit);
    var entries := List(r.rows);
    report := Verify.Collect(src, entries);
    forall i, k | 0 <= i < |report| && 0 <= k < applied && entries[i].version == plan[k].version
      ensures Verify.FileEdited in report[i].details <==> Edited(r.env, r.dir, src.dir, report[i].version)
    {
      var v := plan[k].version;
      assert Verify.Explains(src, src.AppliedFiles(entries), entries[i], report[i]);
      assert entries[i] in entries && entries[i].row == r.rows[v];
      RecordedIsChecked(r.env, r.dir, r.rows, v, src.dir);
    }
  }
}
