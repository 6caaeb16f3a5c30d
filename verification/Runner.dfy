/** The runner: its methods with their loops, proved to compute the runs of module Runs
    and to take only the steps of module Protocol. Source: internal/migrator/runner.go. */
module Runner {
  import opened Wrappers
  import opened Ordered
  import opened Ledger
  import opened Migrations
  import opened Protocol
  import opened Runs

  datatype Error = Dirty(version: nat) | NoDownFile(version: nat) | Failed

  /** The processes of a world in which only one does anything. */
  function Alone(pid: nat, pc: Proc): (procs: map<nat, Proc>)
    ensures procs == map[pid := pc]
  {
    var none: map<nat, Proc> := map[];
    none[pid := pc]
  }

  class Runner {
    const env: Env
    const dir: Dir
    const pid: nat
    var rows: Rows
    var schema: Schema
    var lock: Option<Hold>

    /** Where this process is in the protocol, and the run it has taken so far. */
    ghost var pc: Proc
    ghost var trail: seq<World>
    ghost var log: seq<Event>

    ghost function Now(): World
      reads this
    {
      World(dir, rows, schema, lock, Alone(pid, pc))
    }

    ghost predicate Valid()
      reads this
    {
      Run(env, trail, log) && trail[|log|] == Now()
    }

    /** The run continues the one recorded before, under the lock taken there. */
    ghost predicate Grew(before: seq<World>, events: seq<Event>)
      reads this
    {
      before <= trail && events <= log && forall i :: |events| <= i < |log| ==> !log[i].Acquire?
    }

    /** The run continues the one recorded before with locks taken for `cmd` only. */
    ghost predicate Did(cmd: Cmd, before: seq<World>, events: seq<Event>)
      reads this
    {
      before <= trail && events <= log && forall i :: |events| <= i < |log| && log[i].Acquire? ==> log[i].cmd == cmd
    }

    /** Between commands: nobody else holds the lock, and this process may still hold it
        on a pooled session whose unlock failed. */
    ghost predicate Ready()
      reads this
    {
      Valid() && pc == Idle && (lock == None || Holds(lock, pid))
    }

    function Data(): Db
      reads this
    {
      Db(rows, schema)
    }

    constructor (env: Env, dir: Dir, pid: nat, rows: Rows, schema: Schema)
      ensures Ready() && lock == None
      ensures this.env == env && this.dir == dir && this.pid == pid && Data() == Db(rows, schema)
      ensures log == [] && trail == [Now()]
    {
      this.env, this.dir, this.pid, this.rows, this.schema := env, dir, pid, rows, schema;
      this.lock, this.pc := None, Idle;
      this.log := [];
      this.trail := [World(dir, rows, schema, None, map[pid := Idle])];
    }

    /** Accounts for what was just done as one event of the protocol. */
    ghost method Took(e: Event)
      requires Run(env, trail, log)
      requires Enabled(trail[|log|], e) && Next(env, trail[|log|], e) == Now()
      modifies this`trail, this`log
      ensures Valid() && log == old(log) + [e] && trail == old(trail) + [Now()]
    {
      trail := trail + [Now()];
      log := log + [e];
    }

    /** The process gives up or is done, and goes to release the lock. */
    ghost method Stop()
      requires Valid() && Enabled(Now(), Quit(pid))
      modifies this`pc, this`trail, this`log
      ensures Valid() && pc == Leaving && Grew(old(trail), old(log))
    {
      pc := Leaving;
      assert map[pid := old(pc)][pid := Leaving] == map[pid := Leaving];
      Took(Quit(pid));
    }

    /** Blocks until the lock is free; fails when the connection does. */
    method Acquire(cmd: Cmd) returns (ok: bool)
      requires Ready()
      modifies this
      ensures Valid() && Data() == old(Data()) && Did(cmd, old(trail), old(log))
      ensures if ok then pc == Holding(cmd) && lock == Relocked(old(lock), pid) else pc == Idle && lock == old(lock)
    {
      ok := *;
      if ok {
        lock := Relocked(lock, pid);
        pc := Holding(cmd);
        assert map[pid := Idle][pid := pc] == map[pid := pc];
        Took(Event.Acquire(pid, cmd));
      }
    }

    /** Hands the lock back. When the unlock fails the session that holds the lock returns
        to the connection pool, and the lock stays with this process, unless the pool
        drops the session. */
    method Release() returns (ok: bool)
      requires Valid() && pc == Leaving && Holds(lock, pid)
      modifies this
      ensures Ready() && Data() == old(Data()) && Grew(old(trail), old(log))
      ensures lock in {Released(old(lock), Unlocked), old(lock), None}
      ensures ok ==> lock != old(lock)
    {
      ok := *;
      var dropped := *;
      ghost var how := if dropped then Discarded else if ok then Unlocked else Kept;
      lock := if dropped then None else if ok then Released(lock, Unlocked) else lock;
      pc := Idle;
      assert map[pid := Leaving][pid := Idle] == map[pid := Idle];
      Took(Event.Release(pid, how));
    }

    /** Reads the derived state and refuses a ledger left mid-apply. */
    method ReadState() returns (st: State, err: Option<Error>)
      requires Valid() && pc.Holding? && Guarded(pc.cmd)
      modifies this
      ensures Valid() && Data() == old(Data()) && Grew(old(trail), old(log)) && lock == old(lock)
      ensures st == QueryState(rows)
      ensures st.dirty ==> err == Some(Dirty(st.applying)) && pc == Leaving
      ensures !st.dirty ==> err == None && pc == Checked(old(pc).cmd, st)
    {
      st := QueryState(rows);
      ghost var before := pc;
      if st.dirty {
        err := Some(Dirty(st.applying));
        pc := Leaving;
      } else {
        err := None;
        pc := Checked(pc.cmd, st);
      }
      assert map[pid := before][pid := pc] == map[pid := pc];
      Took(Event.ReadState(pid));
    }

    /** Writes the applying row before any SQL runs. */
    method MarkApplying(f: File) returns (ok: bool)
      requires Valid() && pc.Running? && pc.plan != [] && pc.plan[0] == f
      modifies this
      ensures Valid() && Grew(old(trail), old(log)) && lock == old(lock) && schema == old(schema)
      ensures ok ==> rows == Marked(old(Data()), f) && pc == Executing(old(pc).dirn, old(pc).plan)
      ensures ok ==>
                rows == old(rows)[f.version :=
                          if f.version in old(rows) then old(rows)[f.version].(status := Applying)
                          else Row(Applying, "", "")]
      ensures !ok ==> rows == old(rows) && pc == Leaving
    {
      ok := *;
      if !ok || f.version > MAX_VERSION {
        Stop();
        return false;
      }
      ghost var before := pc;
      rows := Put(rows, SetStatus(f.version, Applying));
      pc := Executing(before.dirn, before.plan);
      assert map[pid := before][pid := pc] == map[pid := pc];
      Took(Mark(pid));
    }

    /** Runs the file's SQL. A failure may leave any schema behind. */
    method ExecMigration(f: File) returns (ok: bool)
      requires Valid() && pc.Executing? && pc.plan != [] && pc.plan[0] == f
      modifies this
      ensures Valid() && Grew(old(trail), old(log)) && lock == old(lock) && rows == old(rows)
      ensures ok ==> schema == env.exec(f.sql, old(schema)) && pc == Executed(old(pc).dirn, old(pc).plan)
      ensures !ok ==> pc == Leaving
    {
      ok := *;
      ghost var before := pc;
      if ok {
        schema := env.exec(f.sql, schema);
        pc := Executed(before.dirn, before.plan);
        assert map[pid := before][pid := pc] == map[pid := pc];
        Took(ExecOk(pid));
      } else {
        schema := *;
        pc := Leaving;
        assert map[pid := before][pid := pc] == map[pid := pc];
        Took(ExecFail(pid, schema));
      }
    }

    /** Replaces the applying row with the outcome and the hash of the file that ran. */
    method RecordOutcome(f: File, outcome: Write) returns (ok: bool)
      requires Valid() && pc.Executed? && pc.plan != [] && pc.plan[0] == f
      requires outcome == RecordOf(env, dir, pc.dirn, f)
      modifies this
      ensures Valid() && Grew(old(trail), old(log)) && lock == old(lock) && schema == old(schema)
      ensures ok ==> rows == Put(old(rows), outcome) && pc == Running(old(pc).dirn, old(pc).plan[1..])
      ensures !ok ==> rows == old(rows) && pc == Leaving
    {
      ok := *;
      if !ok {
        Stop();
        return;
      }
      ghost var before := pc;
      rows := Put(rows, outcome);
      pc := Running(before.dirn, before.plan[1..]);
      assert map[pid := before][pid := pc] == map[pid := pc];
      Took(Record(pid));
    }

    /** `dir.ContentHash` and `dir.DownContentHash`: the hash of an indexed file. */
    function FileHash(index: map<nat, File>, v: nat): Result<string, Error> {
      if v in index then Ok(env.digest(index[v].sql)) else Err(Failed)
    }

    /** One row write of a command that writes its rows one by one. */
    method WriteRow(t: Write) returns (ok: bool)
      requires Valid() && pc.Writing? && !Transactional(pc.cmd) && pc.todo != [] && pc.todo[0] == t
      modifies this
      ensures Valid() && Grew(old(trail), old(log)) && lock == old(lock) && schema == old(schema)
      ensures ok ==> rows == Put(old(rows), t) && pc == Writing(old(pc).cmd, old(pc).todo[1..])
      ensures !ok ==> rows == old(rows) && pc == Leaving
    {
      ok := *;
      if !ok || t.version > MAX_VERSION {
        Stop();
        return false;
      }
      ghost var before := pc;
      rows := Put(rows, t);
      pc := Writing(before.cmd, before.todo[1..]);
      assert map[pid := before][pid := pc] == map[pid := pc];
      Took(Event.WriteRow(pid));
    }

    /** All the row writes of a command that writes them in one transaction: a loop of
        upserts on the transaction's own view, kept only if it commits. */
    method WriteTransaction(todo: seq<Write>) returns (ok: bool)
      requires Valid() && pc.Writing? && Transactional(pc.cmd) && pc.todo == todo
      modifies this
      ensures Valid() && Grew(old(trail), old(log)) && lock == old(lock) && schema == old(schema) && pc == Leaving
      ensures rows == if ok then PutAll(old(rows), todo) else old(rows)
    {
      var view := rows;
      for i := 0 to |todo|
        invariant Valid() && trail == old(trail) && log == old(log) && pc == old(pc)
        invariant Data() == old(Data()) && lock == old(lock)
        invariant PutAll(view, todo[i..]) == PutAll(rows, todo)
        invariant forall t :: t in todo[..i] ==> t.version <= MAX_VERSION
      {
        ok := *;
        if !ok || todo[i].version > MAX_VERSION {
          Stop();
          return false;
        }
        assert todo[..i + 1] == todo[..i] + [todo[i]];
        assert todo[i..][1..] == todo[i + 1..];
        view := Put(view, todo[i]);
      }
      assert todo[..|todo|] == todo;
      ok := *;
      if !ok {
        Stop();
        return;
      }
      ghost var before := pc;
      rows := view;
      pc := Leaving;
      assert map[pid := before][pid := pc] == map[pid := pc];
      Took(WriteAll(pid));
    }

    /** An override's writes are settled: nothing changes but where the process is. */
    ghost method Decided(todo: seq<Write>)
      requires Valid() && pc.Holding? && Override(pc.cmd)
      requires PrepareOverride(env, Now(), pid, pc.cmd) == At(Now(), pid, Writing(pc.cmd, todo))
      modifies this`pc, this`trail, this`log
      ensures Valid() && Grew(old(trail), old(log)) && pc == Writing(old(pc).cmd, todo)
    {
      ghost var before := pc;
      pc := Writing(before.cmd, todo);
      assert map[pid := before][pid := pc] == map[pid := pc];
      Took(Prepare(pid));
    }

    /** Records `version` as applied without running its SQL, whatever the ledger says. */
    method Force(version: nat) returns (err: Option<Error>)
      requires Ready()
      modifies this
      ensures Valid() && Did(Cmd.Force(version), old(trail), old(log)) && Ready() && schema == old(schema)
      ensures err == None && old(lock) == None ==> lock == None
      ensures rows == old(rows) || rows == Put(old(rows), SetStatus(version, Applied))
      ensures err == None ==> rows == Put(old(rows), SetStatus(version, Applied))
      ensures err != None ==> err == Some(Failed)
    {
      var ok := Acquire(Cmd.Force(version));
      if !ok {
        return Some(Failed);
      }
      Decided([SetStatus(version, Applied)]);
      ok := WriteRow(SetStatus(version, Applied));
      if ok {
        Stop();
      }
      var released := Release();
      err := if ok && released then None else Some(Failed);
    }

    /** Marks one file as applying, runs it and records the outcome. */
    method ApplyOne(f: File) returns (err: Option<Error>)
      requires Valid() && pc.Running? && pc.dirn.Forward? && pc.plan != [] && pc.plan[0] == f
      modifies this
      ensures Valid() && Grew(old(trail), old(log)) && lock == old(lock)
      ensures err == None ==>
                && Data() == Migrate(env, dir, Forward, old(Data()), f)
                && pc == Running(Forward, old(pc).plan[1..])
                && f.version in dir.byVersion
                && rows == old(rows)[f.version := Row(Applied, env.digest(dir.byVersion[f.version].sql), "")]
      ensures err != None ==> err == Some(Failed) && StoppedAt(old(Data()), f, Data()) && pc == Leaving
    {
      var readable := *;
      var hash := FileHash(dir.byVersion, f.version);
      if !readable || hash.Err? {
        Stop();
        return Some(Failed);
      }
      var ok := MarkApplying(f);
      if !ok {
        return Some(Failed);
      }
      // On failure the applying row stays: it is the only evidence this file touched the schema.
      ok := ExecMigration(f);
      if !ok {
        return Some(Failed);
      }
      ok := RecordOutcome(f, SetStatusWithHash(f.version, Applied, hash.value));
      err := if ok then None else Some(Failed);
    }

    /** The loop body of `Down` for one down file. */
    method RevertOne(f: File) returns (err: Option<Error>)
      requires Valid() && pc.Running? && pc.dirn.Backward? && pc.plan != [] && pc.plan[0] == f
      modifies this
      ensures Valid() && Grew(old(trail), old(log)) && lock == old(lock)
      ensures err == None ==>
                && Data() == Migrate(env, dir, Backward, old(Data()), f)
                && pc == Running(Backward, old(pc).plan[1..])
                && f.version in dir.byVersionDown
                && rows == old(rows)[f.version := Row(Reverted, env.digest(dir.byVersionDown[f.version].sql), "")]
      ensures err != None ==> err == Some(Failed) && StoppedAt(old(Data()), f, Data()) && pc == Leaving
    {
      var readable := *;
      var hash := FileHash(dir.byVersionDown, f.version);
      if !readable || hash.Err? {
        Stop();
        return Some(Failed);
      }
      var ok := MarkApplying(f);
      if !ok {
        return Some(Failed);
      }
      ok := ExecMigration(f);
      if !ok {
        return Some(Failed);
      }
      ok := RecordOutcome(f, SetStatusWithHash(f.version, Reverted, hash.value));
      err := if ok then None else Some(Failed);
    }

    /** Applies pending files in order until one fails: `applied` counts those that
        succeeded, and the data is exactly what they and the failed one leave. */
    method ApplyAll(pending: seq<File>) returns (applied: nat, err: Option<Error>)
      requires Valid() && pc == Running(Forward, pending)
      modifies this
      ensures Valid() && Grew(old(trail), old(log)) && lock == old(lock) && pc == Leaving
      ensures applied <= |pending| && Indexed(dir, pending[..applied])
      ensures err == None ==> applied == |pending|
      ensures err == None ==> Data() == MigrateAll(env, dir, Forward, old(Data()), pending)
      ensures err != None ==>
                && err == Some(Failed) && applied < |pending|
                && StoppedAt(MigrateAll(env, dir, Forward, old(Data()), pending[..applied]), pending[applied], Data())
    {
      applied, err := 0, None;
      for i := 0 to |pending|
        invariant Valid() && Grew(old(trail), old(log)) && lock == old(lock)
        invariant applied == i && err == None && Indexed(dir, pending[..i])
        invariant pc == Running(Forward, pending[i..])
        invariant Data() == MigrateAll(env, dir, Forward, old(Data()), pending[..i])
      {
        MigrateNext(env, dir, Forward, old(Data()), pending, i);
        err := ApplyOne(pending[i]);
        if err != None {
          return;
        }
        OneMoreIndexed(dir, pending, i);
        applied := applied + 1;
      }
      assert pending[..|pending|] == pending;
      Stop();
    }

    /** `Up` is `Apply(0)`, `Step` is `Apply(limit)`. */
    method Apply(limit: int) returns (applied: nat, err: Option<Error>)
      requires Ready()
      modifies this
      ensures Valid() && Did(Cmd.Apply(limit), old(trail), old(log)) && Ready()
      ensures err == None && old(lock) == None ==> lock == None
      ensures err != None ==> err == Some(Failed) || err == Some(Dirty(QueryState(old(rows)).applying))
      ensures var plan, st := UpPlan(dir, old(Data()), limit), QueryState(old(rows));
              && (st.dirty ==> err != None && applied == 0 && Data() == old(Data()))
              && (!st.dirty ==> applied <= |plan| && (limit > 0 ==> applied <= limit))
              && (!st.dirty && AscendingFiles(dir.upFiles) ==>
                    forall i :: 0 <= i < applied ==> Recorded(env, dir.byVersion, Applied, rows, plan[i].version))
              && (!st.dirty && (err == None || applied == |plan|) ==>
                    applied == |plan| && Data() == MigrateAll(env, dir, Forward, old(Data()), plan))
              && (!st.dirty && applied < |plan| ==>
                    && err != None
                    && StoppedAt(MigrateAll(env, dir, Forward, old(Data()), plan[..applied]), plan[applied], Data()))
    {
      var ok := Acquire(Cmd.Apply(limit));
      if !ok {
        return 0, Some(Failed);
      }
      ghost var db, st := Data(), QueryState(rows);
      applied, err := ApplyLocked(limit);
      if !st.dirty && AscendingFiles(dir.upFiles) {
        PlanAscends(dir, st, limit);
        StoppedRunRecords(env, dir, db, UpPlan(dir, db, limit), applied, Data());
      }
      ok := Release();
      if !ok && err == None {
        err := Some(Failed);
      }
    }

    method ApplyLocked(limit: int) returns (applied: nat, err: Option<Error>)
      requires Valid() && pc == Holding(Cmd.Apply(limit)) && Holds(lock, pid)
      modifies this
      ensures Valid() && Grew(old(trail), old(log)) && pc == Leaving && lock == old(lock)
      ensures var plan, st := UpPlan(dir, old(Data()), limit), QueryState(old(rows));
              && (st.dirty ==> err == Some(Dirty(st.applying)) && applied == 0 && Data() == old(Data()))
              && (!st.dirty ==> applied <= |plan| && Indexed(dir, plan[..applied]))
              && (!st.dirty && err == None ==>
                    applied == |plan| && Data() == MigrateAll(env, dir, Forward, old(Data()), plan))
              && (!st.dirty && err != None ==>
                    && err == Some(Failed) && applied < |plan|
                    && StoppedAt(MigrateAll(env, dir, Forward, old(Data()), plan[..applied]), plan[applied], Data()))
    {
      var st;
      st, err := ReadState();
      if err != None {
        return 0, err;
      }
      var pending := dir.PendingAfter(st.version, st.hasVersion);
      if limit > 0 && |pending| > limit {
        pending := pending[..limit];
      }
      Planned(Running(Forward, pending));
      applied, err := RunPending(pending);
    }

    method RunPending(pending: seq<File>) returns (applied: nat, err: Option<Error>)
      requires Valid() && pc == Running(Forward, pending)
      modifies this
      ensures Valid() && Grew(old(trail), old(log)) && lock == old(lock) && pc == Leaving
      ensures applied <= |pending| && Indexed(dir, pending[..applied])
      ensures err == None ==>
                applied == |pending| && Data() == MigrateAll(env, dir, Forward, old(Data()), pending)
      ensures err != None ==>
                && err == Some(Failed) && applied < |pending|
                && StoppedAt(MigrateAll(env, dir, Forward, old(Data()), pending[..applied]), pending[applied], Data())
    {
      if |pending| == 0 {
        Stop();
        return 0, None;
      }
      var connected := *;
      if !connected {
        Stop();
        assert pending[..0] == [];
        return 0, Some(Failed);
      }
      applied, err := ApplyAll(pending);
    }

    /** The plan is made: an event that changes nothing but where the process is. */
    ghost method Planned(next: Proc)
      requires Valid() && pc.Checked? && !pc.cmd.Squash?
      requires PrepareChecked(env, Now(), pid, pc.cmd, pc.st) == At(Now(), pid, next)
      modifies this`pc, this`trail, this`log
      ensures Valid() && Grew(old(trail), old(log)) && pc == next
    {
      ghost var before := pc;
      pc := next;
      assert map[pid := before][pid := next] == map[pid := next];
      Took(Prepare(pid));
    }

    /** Reverts the last `steps` applied versions, newest first. The whole plan is made
        before anything runs: if one down file is missing nothing changes. */
    method Down(steps: int) returns (reverted: seq<nat>, err: Option<Error>)
      requires Ready()
      modifies this
      ensures Valid() && Did(Revert(steps), old(trail), old(log)) && Ready()
      ensures err == None && old(lock) == None ==> lock == None
      ensures var plan, st := dir.DownPlan(AppliedVersions(old(rows)), steps), QueryState(old(rows));
              && (st.dirty || plan.Err? ==> err != None && reverted == [] && Data() == old(Data()))
              && (!st.dirty && plan.Ok? ==> Ran(env, dir, old(Data()), plan.value, reverted, err, Data()))
      ensures dir.DownIndexed() && err == None ==>
                TakesOff(AppliedVersions(old(rows)), steps, AppliedVersions(rows), reverted)
    {
      var ok := Acquire(Revert(steps));
      if !ok {
        assert var plan := dir.DownPlan(AppliedVersions(rows), steps); plan.Ok? && plan.value != [] ==>
                 plan.value[..0] == [];
        return [], Some(Failed);
      }
      ghost var db := Data();
      reverted, err := DownLocked(steps);
      if dir.DownIndexed() && err == None {
        AllRan(env, dir, db, steps, reverted, err, Data());
      }
      ok := Release();
      if !ok && err == None {
        err := Some(Failed);
      }
    }

    method DownLocked(steps: int) returns (reverted: seq<nat>, err: Option<Error>)
      requires Valid() && pc == Holding(Revert(steps)) && Holds(lock, pid)
      modifies this
      ensures Valid() && Grew(old(trail), old(log)) && pc == Leaving && lock == old(lock)
      ensures var plan, st := dir.DownPlan(AppliedVersions(old(rows)), steps), QueryState(old(rows));
              && (st.dirty ==> err == Some(Dirty(st.applying)) && reverted == [] && Data() == old(Data()))
              && (!st.dirty && plan.Err? ==>
                    err == Some(NoDownFile(plan.error)) && reverted == [] && Data() == old(Data()))
              && (!st.dirty && plan.Ok? ==> Ran(env, dir, old(Data()), plan.value, reverted, err, Data()))
    {
      var st;
      st, err := ReadState();
      if err != None {
        return [], err;
      }
      var appliedVersions := CollectApplied(rows);
      var plan := dir.MakeDownPlan(appliedVersions, steps);
      if plan.Err? {
        Planned(Leaving);
        return [], Some(NoDownFile(plan.error));
      }
      Planned(Running(Backward, plan.value));
      reverted, err := RunPlan(plan.value);
    }

    method RunPlan(plan: seq<File>) returns (reverted: seq<nat>, err: Option<Error>)
      requires Valid() && pc == Running(Backward, plan)
      modifies this
      ensures Valid() && Grew(old(trail), old(log)) && lock == old(lock) && pc == Leaving
      ensures Ran(env, dir, old(Data()), plan, reverted, err, Data())
    {
      if |plan| == 0 {
        Stop();
        return [], None;
      }
      var connected := *;
      if !connected {
        Stop();
        assert plan[..0] == [];
        return [], Some(Failed);
      }
      reverted, err := RevertAll(plan);
    }

    method RevertAll(plan: seq<File>) returns (reverted: seq<nat>, err: Option<Error>)
      requires Valid() && pc == Running(Backward, plan)
      modifies this
      ensures Valid() && Grew(old(trail), old(log)) && lock == old(lock) && pc == Leaving
      ensures Ran(env, dir, old(Data()), plan, reverted, err, Data())
    {
      reverted, err := [], None;
      for i := 0 to |plan|
        invariant Valid() && Grew(old(trail), old(log)) && lock == old(lock)
        invariant err == None && reverted == Versions(plan[..i])
        invariant pc == Running(Backward, plan[i..])
        invariant Data() == MigrateAll(env, dir, Backward, old(Data()), plan[..i])
      {
        MigrateNext(env, dir, Backward, old(Data()), plan, i);
        err := RevertOne(plan[i]);
        if err != None {
          return;
        }
        reverted := reverted + [plan[i].version];
      }
      assert plan[..|plan|] == plan;
      Stop();
    }
  }

  /** A revert ran a prefix of its plan, reported exactly the versions of that prefix,
      and stopped at the next file unless it ran them all. */
  ghost predicate Ran(env: Env, dir: Dir, before: Db, plan: seq<File>, reverted: seq<nat>, err: Option<Error>,
                      after: Db) {
    && |reverted| <= |plan|
    && reverted == Versions(plan[..|reverted|])
    && (err == None ==> |reverted| == |plan|)
    && (|reverted| == |plan| ==> after == MigrateAll(env, dir, Backward, before, plan))
    && (|reverted| < |plan| ==>
          StoppedAt(MigrateAll(env, dir, Backward, before, plan[..|reverted|]), plan[|reverted|], after))
  }

  /** A revert that succeeded ran its whole plan. */
  lemma AllRan(env: Env, dir: Dir, before: Db, steps: int, reverted: seq<nat>, err: Option<Error>, after: Db)
    requires dir.DownIndexed() && err == None && dir.DownPlan(AppliedVersions(before.rows), steps).Ok?
    requires Ran(env, dir, before, dir.DownPlan(AppliedVersions(before.rows), steps).value, reverted, err, after)
    ensures TakesOff(AppliedVersions(before.rows), steps, AppliedVersions(after.rows), reverted)
  {
    var applied := AppliedVersions(before.rows);
    var plan := dir.DownPlan(applied, steps).value;
    assert plan[..|plan|] == plan;
    DownTakesOff(env, dir, before, applied, steps, plan, after);
  }
}
