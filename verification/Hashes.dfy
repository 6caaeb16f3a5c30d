/** The content-hash check never blames a file nobody edited. */
module Hashes {
  import opened Wrappers
  import opened Ordered
  import opened Ledger
  import opened Migrations
  import opened Protocol
  import Squash

  /** The drift checker's complaint: an applied row with an observed hash that is not
      the hash of the file its version names now. */
  predicate Mismatch(digest: string -> string, dir: Dir, v: nat, row: Row) {
    && row.status == Applied && row.hash != "" && row.source != ADOPTED
    && v in dir.byVersion && digest(dir.byVersion[v].sql) != row.hash
  }

  ghost predicate NoneFlagged(env: Env, dir: Dir, rows: Rows) {
    forall v :: v in rows ==> !Mismatch(env.digest, dir, v, rows[v])
  }

  ghost predicate HashInv(env: Env, w: World) {
    && Inv(w)
    && w.dir.Valid()
    && (w.lock == None ==> NoneFlagged(env, w.dir, w.rows))
    && (w.lock.Some? ==> HolderHashes(env, w, Pc(w, w.lock.value.holder)))
  }

  /** A squash that is writing its rows will have none flagged when it is done. */
  ghost predicate HolderHashes(env: Env, w: World, pc: Proc) {
    match pc
    case Writing(Squash(_, _), todo) => NoneFlagged(env, w.dir, PutAll(w.rows, todo))
    case Writing(_, todo) => NoneFlagged(env, w.dir, w.rows) && forall t :: t in todo ==> Harmless(t)
    case _ => NoneFlagged(env, w.dir, w.rows) && (pc.Holding? || pc.Checked? ==> Unforced(pc.cmd))
  }

  /** A write that leaves a row no hash check looks at. */
  predicate Harmless(t: Write) {
    t.SetStatusAdopted? || (t.SetStatus? && t.status != Applied)
  }

  ghost predicate Unforced(cmd: Cmd) {
    !cmd.Force? && !cmd.Repair?
  }

  /** No operator judgement is recorded, and a squash that has begun to write finishes. */
  ghost predicate Orderly(w: World, e: Event) {
    && (e.Acquire? ==> Unforced(e.cmd))
    && (e.Quit? || e.Die? ==> !(Pc(w, e.p).Writing? && Pc(w, e.p).cmd.Squash? && Pc(w, e.p).todo != []))
  }

  lemma HarmlessPut(env: Env, dir: Dir, rows: Rows, t: Write)
    requires NoneFlagged(env, dir, rows) && Harmless(t)
    ensures NoneFlagged(env, dir, Put(rows, t))
  {
    var rows' := Put(rows, t);
    forall v | v in rows'
      ensures !Mismatch(env.digest, dir, v, rows'[v])
    {
      assert v != t.version ==> rows'[v] == rows[v];
    }
  }

  lemma {:induction false} HarmlessPutAll(env: Env, dir: Dir, rows: Rows, todo: seq<Write>)
    requires NoneFlagged(env, dir, rows) && forall t :: t in todo ==> Harmless(t)
    ensures NoneFlagged(env, dir, PutAll(rows, todo))
    decreases |todo|
  {
    if todo != [] {
      HarmlessPut(env, dir, rows, todo[0]);
      HarmlessPutAll(env, dir, Put(rows, todo[0]), todo[1..]);
    }
  }

  lemma RecordHashes(env: Env, dir: Dir, rows: Rows, dirn: Direction, f: File)
    requires NoneFlagged(env, dir, rows)
    ensures NoneFlagged(env, dir, Put(rows, RecordOf(env, dir, dirn, f)))
  {
    var rows' := Put(rows, RecordOf(env, dir, dirn, f));
    forall v | v in rows'
      ensures !Mismatch(env.digest, dir, v, rows'[v])
    {
      assert v != f.version ==> rows'[v] == rows[v];
    }
  }

  /** The re-stamped ledger agrees with the squashed directory. */
  lemma RestampHashes(env: Env, dir: Dir, rows: Rows, upto: nat, baseline: File)
    requires dir.Valid() && baseline.version == 0 && NoneFlagged(env, dir, rows)
    ensures NoneFlagged(env, Squash.SquashedDir(dir, upto, baseline),
                        PutAll(rows, Squash.RestampWrites(dir, upto, env.digest(baseline.sql))))
  {
    var dir' := Squash.SquashedDir(dir, upto, baseline);
    var rows' := PutAll(rows, Squash.RestampWrites(dir, upto, env.digest(baseline.sql)));
    Squash.SquashedIndex(dir, upto, baseline);
    Squash.RestampMeans(rows, dir, upto, env.digest(baseline.sql));
    forall v | v in rows'
      ensures !Mismatch(env.digest, dir', v, rows'[v])
    {
      if v != 0 && v in dir'.byVersion {
        assert dir'.byVersion[v] == dir.byVersion[v];
      }
    }
  }

  /** A squash of a target nothing was applied to touches no row; the rows left are
      not applied. */
  lemma FreshHashes(env: Env, dir: Dir, rows: Rows)
    requires AppliedSet(rows) == {}
    ensures NoneFlagged(env, dir, rows)
  {
    forall v | v in rows
      ensures !Mismatch(env.digest, dir, v, rows[v])
    {
      assert v !in AppliedSet(rows);
    }
  }

  lemma PrepareHashes(env: Env, w: World, e: Event)
    requires HashInv(env, w) && Enabled(w, e) && e.Prepare?
    ensures HashInv(env, Next(env, w, e))
  {
    var pc := Pc(w, e.p);
    InvStep(env, w, e);
    assert HolderHashes(env, w, pc);
    if pc.Checked? && pc.cmd.Squash? {
      Squash.SquashedDirValid(w.dir, pc.cmd.upto, pc.cmd.baseline);
      if pc.st.hasVersion {
        RestampHashes(env, w.dir, w.rows, pc.cmd.upto, pc.cmd.baseline);
      } else {
        FreshHashes(env, Squash.SquashedDir(w.dir, pc.cmd.upto, pc.cmd.baseline), w.rows);
      }
    }
  }

  lemma HashStep(env: Env, w: World, e: Event)
    requires HashInv(env, w) && Enabled(w, e) && Orderly(w, e)
    ensures HashInv(env, Next(env, w, e))
  {
    var pc := Pc(w, e.p);
    InvStep(env, w, e);
    match e
    case Prepare(_) => PrepareHashes(env, w, e);
    case Mark(_) => HarmlessPut(env, w.dir, w.rows, SetStatus(pc.plan[0].version, Applying));
    case Record(_) => RecordHashes(env, w.dir, w.rows, pc.dirn, pc.plan[0]);
    case WriteRow(_) =>
      if !pc.cmd.Squash? {
        HarmlessPut(env, w.dir, w.rows, pc.todo[0]);
      }
    case WriteAll(_) => HarmlessPutAll(env, w.dir, w.rows, pc.todo);
    case _ =>
  }

  /** With the files unedited, in every state reached by ups, steps, downs, rollbacks,
      adopts and completed squashes, the hash check flags no row, except that a squash
      may be part-way through its own row writes. */
  lemma {:induction false} UneditedFilesAreNotFlagged(env: Env, ws: seq<World>, es: seq<Event>, n: nat)
    requires Run(env, ws, es) && n < |ws|
    requires Quiet(ws[0]) && ws[0].dir.Valid() && NoneFlagged(env, ws[0].dir, ws[0].rows)
    requires forall i :: 0 <= i < n ==> Orderly(ws[i], es[i])
    ensures HashInv(env, ws[n])
    ensures (forall p: nat :: !(Pc(ws[n], p).Writing? && Pc(ws[n], p).cmd.Squash?)) ==>
              NoneFlagged(env, ws[n].dir, ws[n].rows)
  {
    if n > 0 {
      UneditedFilesAreNotFlagged(env, ws, es, n - 1);
      HashStep(env, ws[n - 1], es[n - 1]);
    }
  }

  /** The overrides are left out for a reason: a version reverted by `down` carries the
      hash of its down file, and forcing it applied gets it flagged. */
  lemma ForceAfterDownIsFlagged(env: Env, dir: Dir, rows: Rows, v: nat)
    requires dir.Valid() && v in dir.byVersion && v in dir.byVersionDown
    ensures var down := Put(rows, RecordOf(env, dir, Backward, dir.byVersionDown[v]));
            var forced := Put(down, SetStatus(v, Applied));
            Mismatch(env.digest, dir, v, forced[v]) <==>
              && env.digest(dir.byVersionDown[v].sql) != ""
              && env.digest(dir.byVersionDown[v].sql) != env.digest(dir.byVersion[v].sql)
  {
  }
}
