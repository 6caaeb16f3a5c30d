/** The migration protocol as a state machine: any number of processes share one
    ledger, one schema and one advisory lock, and each may fail or die at any step.
    Sources: internal/migrator/runner.go, internal/dblock, internal/rollback,
    internal/repair, internal/squash/apply.go, cmd/adopt.go. */
module Protocol {
  import opened Wrappers
  import opened Ordered
  import opened Ledger
  import opened Migrations
  import Squash

  /** The state of the migrated database; nothing is known about it but what `exec` does. */
  type Schema(==, !new, 0)

  /** Running SQL text, hashing a file, and the schema no migration has touched. */
  datatype Env = Env(exec: (string, Schema) -> Schema, digest: string -> string, empty: Schema)

  datatype Direction = Forward | Backward

  datatype Pair = Pair(version: nat, applied: bool)

  /** The commands that take the migration lock. `Apply(0)` is `up`. */
  datatype Cmd =
    | Apply(limit: int)
    | Revert(steps: int)
    | Force(version: nat)
    | Rollback(steps: int)
    | Repair(pairs: seq<Pair>)
    | Adopt(matched: seq<nat>)
    | Squash(upto: nat, baseline: File)

  /** Where one process is. `plan` holds the files still to run, the current one first. */
  datatype Proc =
    | Idle
    | Holding(cmd: Cmd)
    | Checked(cmd: Cmd, st: State)
    | Running(dirn: Direction, plan: seq<File>)
    | Executing(dirn: Direction, plan: seq<File>)
    | Executed(dirn: Direction, plan: seq<File>)
    | Writing(cmd: Cmd, todo: seq<Write>)
    | Leaving

  /** The advisory lock, as granted: by whom, and how many unlocks short of free. */
  datatype Hold = Hold(holder: nat, count: nat)

  datatype World = World(dir: Dir, rows: Rows, schema: Schema, lock: Option<Hold>, procs: map<nat, Proc>)

  /** How a release ends: the server unlocked once; or the unlock failed and the session
      that holds the lock went back to its process's connection pool; or that session
      ended, which frees whatever it held. */
  datatype Unlock = Unlocked | Kept | Discarded

  predicate Holds(lock: Option<Hold>, p: nat) {
    lock.Some? && lock.value.holder == p
  }

  /** A process takes the lock again on the pooled session that still holds it. */
  function Relocked(lock: Option<Hold>, p: nat): Option<Hold> {
    Some(Hold(p, if lock.Some? then lock.value.count + 1 else 1))
  }

  function Released(lock: Option<Hold>, how: Unlock): Option<Hold> {
    match how
    case Unlocked =>
      if lock.Some? && lock.value.count > 1 then Some(Hold(lock.value.holder, lock.value.count - 1)) else None
    case Kept => lock
    case Discarded => None
  }

  function Pc(w: World, p: nat): Proc {
    if p in w.procs then w.procs[p] else Idle
  }

  function At(w: World, p: nat, pc: Proc): World {
    w.(procs := w.procs[p := pc])
  }

  /** `Die` also stands for a process that closes its database or exits with the lock
      still on a pooled session. */
  datatype Event =
    | Acquire(p: nat, cmd: Cmd)
    | ReadState(p: nat)
    | Prepare(p: nat)
    | Mark(p: nat)
    | ExecOk(p: nat)
    | ExecFail(p: nat, left: Schema)
    | Record(p: nat)
    | WriteRow(p: nat)
    | WriteAll(p: nat)
    | Quit(p: nat)
    | Release(p: nat, how: Unlock)
    | Die(p: nat, left: Schema)

  // ----- What the commands compute -----

  /** The hash of the file a version names, "" when there is none. */
  function HashOf(env: Env, index: map<nat, File>, v: nat): string {
    if v in index then env.digest(index[v].sql) else ""
  }

  /** The row a finished file is recorded with. */
  function RecordOf(env: Env, dir: Dir, dirn: Direction, f: File): Write {
    match dirn
    case Forward => SetStatusWithHash(f.version, Applied, HashOf(env, dir.byVersion, f.version))
    case Backward => SetStatusWithHash(f.version, Reverted, HashOf(env, dir.byVersionDown, f.version))
  }

  /** A soft revert covers one version when `steps` asks for none or for too many. */
  function RollbackCount(n: nat, steps: int): nat {
    if steps <= 0 || steps > n then 1 else steps
  }

  /** The last `count` applied versions, newest first, written as reverted. */
  function RollbackWrites(applied: seq<nat>, count: nat): seq<Write>
    requires count <= |applied|
  {
    seq(count, i requires 0 <= i < count => SetStatus(applied[|applied| - 1 - i], Reverted))
  }

  function RepairWrites(pairs: seq<Pair>): seq<Write> {
    seq(|pairs|, i requires 0 <= i < |pairs| =>
      SetStatus(pairs[i].version, if pairs[i].applied then Applied else Reverted))
  }

  function AdoptWrites(env: Env, dir: Dir, matched: seq<nat>): seq<Write> {
    seq(|matched|, i requires 0 <= i < |matched| =>
      SetStatusAdopted(matched[i], HashOf(env, dir.byVersion, matched[i])))
  }

  /** Commands that refuse a ledger left mid-apply. */
  predicate Guarded(cmd: Cmd) {
    cmd.Apply? || cmd.Revert? || cmd.Rollback? || cmd.Squash?
  }

  /** Commands whose row writes are one transaction. */
  predicate Transactional(cmd: Cmd) {
    cmd.Rollback? || cmd.Repair?
  }

  /** The operator's overrides: they record a judgement or an import, whatever the ledger says. */
  predicate Override(cmd: Cmd) {
    cmd.Force? || cmd.Repair? || cmd.Adopt?
  }

  // ----- The steps -----

  predicate Enabled(w: World, e: Event) {
    var pc := Pc(w, e.p);
    match e
    case Acquire(p, cmd) => pc.Idle? && (w.lock == None || Holds(w.lock, p))
    case ReadState(p) => pc.Holding? && Guarded(pc.cmd)
    case Prepare(p) =>
      if pc.Holding? then Override(pc.cmd)
      else pc.Checked? && (pc.cmd.Squash? ==> pc.cmd.baseline.version == 0)
    case Mark(p) => pc.Running? && pc.plan != [] && pc.plan[0].version <= MAX_VERSION
    case ExecOk(p) => pc.Executing? && pc.plan != []
    case ExecFail(p, left) => pc.Executing?
    case Record(p) => pc.Executed? && pc.plan != []
    case WriteRow(p) => pc.Writing? && !Transactional(pc.cmd) && pc.todo != [] && pc.todo[0].version <= MAX_VERSION
    case WriteAll(p) => pc.Writing? && Transactional(pc.cmd) && forall t :: t in pc.todo ==> t.version <= MAX_VERSION
    case Quit(p) => !pc.Idle? && !pc.Executing? && !pc.Leaving?
    case Release(p, how) => pc.Leaving?
    case Die(p, left) => !pc.Idle? || Holds(w.lock, p)
  }

  function Next(env: Env, w: World, e: Event): World
    requires Enabled(w, e)
  {
    var p, pc := e.p, Pc(w, e.p);
    match e
    case Acquire(_, cmd) => At(w, p, Holding(cmd)).(lock := Relocked(w.lock, p))
    case ReadState(_) =>
      var st := QueryState(w.rows);
      if st.dirty then At(w, p, Leaving) else At(w, p, Checked(pc.cmd, st))
    case Prepare(_) =>
      if pc.Holding? then PrepareOverride(env, w, p, pc.cmd) else PrepareChecked(env, w, p, pc.cmd, pc.st)
    case Mark(_) => At(w, p, Executing(pc.dirn, pc.plan)).(rows := Put(w.rows, SetStatus(pc.plan[0].version, Applying)))
    case ExecOk(_) => At(w, p, Executed(pc.dirn, pc.plan)).(schema := env.exec(pc.plan[0].sql, w.schema))
    case ExecFail(_, left) => At(w, p, Leaving).(schema := left)
    case Record(_) =>
      At(w, p, Running(pc.dirn, pc.plan[1..])).(rows := Put(w.rows, RecordOf(env, w.dir, pc.dirn, pc.plan[0])))
    case WriteRow(_) => At(w, p, Writing(pc.cmd, pc.todo[1..])).(rows := Put(w.rows, pc.todo[0]))
    case WriteAll(_) => At(w, p, Leaving).(rows := PutAll(w.rows, pc.todo))
    case Quit(_) => At(w, p, Leaving)
    case Release(_, how) => At(w, p, Idle).(lock := Released(w.lock, how))
    case Die(_, left) => At(w, p, Idle).(lock := None, schema := if pc.Executing? then left else w.schema)
  }

  function PrepareOverride(env: Env, w: World, p: nat, cmd: Cmd): World
    requires Override(cmd)
  {
    match cmd
    case Force(v) => At(w, p, Writing(cmd, [SetStatus(v, Applied)]))
    case Repair(pairs) => At(w, p, Writing(cmd, RepairWrites(pairs)))
    case Adopt(matched) => At(w, p, Writing(cmd, AdoptWrites(env, w.dir, matched)))
  }

  function PrepareChecked(env: Env, w: World, p: nat, cmd: Cmd, st: State): World {
    match cmd
    case Apply(limit) => At(w, p, Running(Forward, w.dir.UpPlan(st, limit)))
    case Revert(steps) =>
      (match w.dir.DownPlan(AppliedVersions(w.rows), steps)
       case Err(_) => At(w, p, Leaving)
       case Ok(plan) => At(w, p, Running(Backward, plan)))
    case Rollback(steps) =>
      var applied := AppliedVersions(w.rows);
      if applied == [] then At(w, p, Leaving)
      else At(w, p, Writing(cmd, RollbackWrites(applied, RollbackCount(|applied|, steps))))
    case Squash(upto, baseline) =>
      if !st.hasVersion then
        At(w, p, Leaving).(dir := Squash.SquashedDir(w.dir, upto, baseline))
      else if st.version >= upto then
        At(w, p, Writing(cmd, Squash.RestampWrites(w.dir, upto, env.digest(baseline.sql))))
          .(dir := Squash.SquashedDir(w.dir, upto, baseline))
      else At(w, p, Leaving)
    case _ => At(w, p, Leaving)
  }

  /** A run: each world follows from the one before by an enabled event. */
  ghost predicate Run(env: Env, ws: seq<World>, es: seq<Event>) {
    && |ws| == |es| + 1
    && forall i :: 0 <= i < |es| ==> Enabled(ws[i], es[i]) && ws[i + 1] == Next(env, ws[i], es[i])
  }

  // ----- Mutual exclusion and the applying row -----

  ghost predicate NoMark(todo: seq<Write>) {
    forall t :: t in todo ==> StatusWritten(t) != Applying
  }

  /** What the lock holder's position says about the ledger. */
  ghost predicate HolderOk(rows: Rows, pc: Proc) {
    match pc
    case Checked(_, st) => ApplyingSet(rows) == {} && st == QueryState(rows)
    case Running(_, _) => ApplyingSet(rows) == {}
    case Executing(_, plan) => plan != [] && ApplyingSet(rows) == {plan[0].version}
    case Executed(_, plan) => plan != [] && ApplyingSet(rows) == {plan[0].version}
    case Writing(cmd, todo) => NoMark(todo) && (Guarded(cmd) ==> ApplyingSet(rows) == {})
    case _ => true
  }

  ghost predicate AtMostOne(s: set<nat>) {
    forall u, v :: u in s && v in s ==> u == v
  }

  ghost predicate Inv(w: World) {
    && (forall p: nat :: !Pc(w, p).Idle? ==> Holds(w.lock, p))
    && (w.lock.Some? ==> HolderOk(w.rows, Pc(w, w.lock.value.holder)))
    && AtMostOne(ApplyingSet(w.rows))
  }

  /** A world no command is running in; it may hold a row left mid-apply. */
  ghost predicate Quiet(w: World) {
    && (forall p: nat :: Pc(w, p).Idle?)
    && w.lock == None
    && AtMostOne(ApplyingSet(w.rows))
  }

  lemma {:induction false} PutAllUnmarked(rows: Rows, todo: seq<Write>)
    requires NoMark(todo)
    ensures ApplyingSet(PutAll(rows, todo)) <= ApplyingSet(rows)
    decreases |todo|
  {
    if todo != [] {
      PutApplying(rows, todo[0]);
      PutAllUnmarked(Put(rows, todo[0]), todo[1..]);
    }
  }

  lemma PrepareOverrideOk(env: Env, w: World, p: nat, cmd: Cmd)
    requires Override(cmd)
    ensures var w' := PrepareOverride(env, w, p, cmd);
            HolderOk(w.rows, Pc(w', p)) && w'.rows == w.rows
  {
  }

  lemma PrepareCheckedOk(env: Env, w: World, p: nat, cmd: Cmd, st: State)
    requires ApplyingSet(w.rows) == {}
    ensures var w' := PrepareChecked(env, w, p, cmd, st);
            HolderOk(w.rows, Pc(w', p)) && w'.rows == w.rows
  {
  }

  /** The rows part of one step. */
  lemma HolderStep(env: Env, w: World, e: Event)
    requires Inv(w) && Enabled(w, e)
    ensures var w' := Next(env, w, e);
            && (!Pc(w', e.p).Idle? ==> HolderOk(w'.rows, Pc(w', e.p)))
            && AtMostOne(ApplyingSet(w'.rows))
  {
    var pc := Pc(w, e.p);
    match e
    case Mark(_) =>
      PutApplying(w.rows, SetStatus(pc.plan[0].version, Applying));
    case Record(_) =>
      PutApplying(w.rows, RecordOf(env, w.dir, pc.dirn, pc.plan[0]));
    case WriteRow(_) =>
      PutApplying(w.rows, pc.todo[0]);
    case WriteAll(_) =>
      PutAllUnmarked(w.rows, pc.todo);
    case Prepare(p) =>
      if pc.Holding? {
        PrepareOverrideOk(env, w, p, pc.cmd);
      } else {
        PrepareCheckedOk(env, w, p, pc.cmd, pc.st);
      }
    case _ =>
  }

  lemma InvStep(env: Env, w: World, e: Event)
    requires Inv(w) && Enabled(w, e)
    ensures Inv(Next(env, w, e))
  {
    HolderStep(env, w, e);
    var w' := Next(env, w, e);
    assert forall p: nat :: p != e.p ==> Pc(w', p) == Pc(w, p);
  }

  lemma {:induction false} InvRun(env: Env, ws: seq<World>, es: seq<Event>, n: nat)
    requires Run(env, ws, es) && n < |ws| && Inv(ws[0])
    ensures Inv(ws[n])
  {
    if n > 0 {
      InvRun(env, ws, es, n - 1);
      InvStep(env, ws[n - 1], es[n - 1]);
    }
  }

  /** In every state any interleaving of the lock-taking commands reaches, at most one
      row is applying, and a process running migration SQL is the only process under
      way, holds the lock, and the row of the file it runs is the applying one. */
  lemma OneApplyingOneRunner(env: Env, ws: seq<World>, es: seq<Event>, n: nat)
    requires Run(env, ws, es) && n < |ws| && Quiet(ws[0])
    ensures AtMostOne(ApplyingSet(ws[n].rows))
    ensures forall p: nat :: Pc(ws[n], p).Executing? ==>
              && Holds(ws[n].lock, p)
              && (forall q: nat :: q != p ==> Pc(ws[n], q).Idle?)
              && Pc(ws[n], p).plan != []
              && ApplyingSet(ws[n].rows) == {Pc(ws[n], p).plan[0].version}
  {
    InvRun(env, ws, es, n);
  }

  /** The death of a process frees the lock it held, leaves the rows, and while it runs a
      file may leave any schema. */
  lemma DeathFrees(env: Env, w: World, p: nat, left: Schema)
    requires Inv(w) && !Pc(w, p).Idle?
    ensures Enabled(w, Die(p, left))
    ensures var w' := Next(env, w, Die(p, left));
            && w'.rows == w.rows && w'.dir == w.dir
            && w'.schema == (if Pc(w, p).Executing? then left else w.schema)
            && forall q: nat, cmd :: Enabled(w', Acquire(q, cmd))
  {
    var w' := Next(env, w, Die(p, left));
    forall q: nat
      ensures Pc(w', q).Idle?
    {
      assert q != p ==> Pc(w', q) == Pc(w, q);
    }
  }
}
