/** A ledger left mid-apply stops everything but an explicit override. */
module Sticky {
  import opened Wrappers
  import opened Ordered
  import opened Ledger
  import opened Migrations
  import opened Protocol

  /** Version `v` started and never finished, and nobody is running it any more. */
  ghost predicate Stuck(w: World, v: nat) {
    && v in ApplyingSet(w.rows)
    && forall p: nat :: !Pc(w, p).Executing? && !Pc(w, p).Executed?
  }

  /** The event is a force, repair or adopt writing the row of `v`. */
  ghost predicate Overrides(w: World, e: Event, v: nat) {
    var pc := Pc(w, e.p);
    && pc.Writing? && Override(pc.cmd)
    && match e
       case WriteRow(_) => pc.todo != [] && pc.todo[0].version == v
       case WriteAll(_) => exists t :: t in pc.todo && t.version == v
       case _ => false
  }

  /** The event is a row write of a force, repair or adopt. */
  ghost predicate OverrideWrite(w: World, e: Event) {
    (e.WriteRow? || e.WriteAll?) && Pc(w, e.p).Writing? && Override(Pc(w, e.p).cmd)
  }

  lemma {:induction false} PutAllKeepsOthers(rows: Rows, todo: seq<Write>, v: nat)
    requires v in rows && forall t :: t in todo ==> t.version != v
    ensures v in PutAll(rows, todo) && PutAll(rows, todo)[v] == rows[v]
    decreases |todo|
  {
    if todo != [] {
      PutAllKeepsOthers(Put(rows, todo[0]), todo[1..], v);
    }
  }

  /** How a version gets stuck: its SQL fails, its process dies while or after running
      it, or its outcome cannot be recorded. */
  lemma FailureLeavesStuck(env: Env, w: World, e: Event)
    requires Inv(w) && Enabled(w, e)
    requires Pc(w, e.p).Executing? || Pc(w, e.p).Executed?
    requires e.ExecFail? || e.Die? || e.Quit?
    ensures Stuck(Next(env, w, e), Pc(w, e.p).plan[0].version)
  {
    var w' := Next(env, w, e);
    var pc := Pc(w, e.p);
    assert w'.rows == w.rows;
    assert pc.plan[0].version in ApplyingSet(w.rows);
    assert forall q: nat :: q != e.p ==> Pc(w', q) == Pc(w, q) && Pc(w, q).Idle?;
  }

  lemma StuckStep(env: Env, w: World, e: Event, v: nat)
    requires Inv(w) && Stuck(w, v) && Enabled(w, e)
    ensures var w' := Next(env, w, e);
            && w'.schema == w.schema && w'.dir == w.dir
            && (!OverrideWrite(w, e) ==> w'.rows == w.rows)
            && (!Overrides(w, e, v) ==> Stuck(w', v))
  {
    var w' := Next(env, w, e);
    var pc := Pc(w, e.p);
    assert forall q: nat :: q != e.p ==> Pc(w', q) == Pc(w, q);
    match e
    case WriteRow(_) =>
      PutApplying(w.rows, pc.todo[0]);
    case WriteAll(_) =>
      if !Overrides(w, e, v) {
        PutAllKeepsOthers(w.rows, pc.todo, v);
      }
    case Prepare(p) =>
      assert pc.Holding?;
    case _ =>
  }

  /** None of the first `n` events is an override writing the row of `v`. */
  ghost predicate NeverOverridden(ws: seq<World>, es: seq<Event>, v: nat, n: nat) {
    n <= |es| && n <= |ws| && forall i :: 0 <= i < n ==> !Overrides(ws[i], es[i], v)
  }

  lemma {:induction false} StuckRun(env: Env, ws: seq<World>, es: seq<Event>, v: nat, n: nat)
    requires Run(env, ws, es) && n < |ws|
    requires Inv(ws[0]) && Stuck(ws[0], v)
    requires NeverOverridden(ws, es, v, n)
    ensures Inv(ws[n]) && Stuck(ws[n], v) && ws[n].schema == ws[0].schema && ws[n].dir == ws[0].dir
  {
    if n > 0 {
      StuckRun(env, ws, es, v, n - 1);
      StuckStep(env, ws[n - 1], es[n - 1], v);
      InvStep(env, ws[n - 1], es[n - 1]);
    }
  }

  /** Once `v` is stuck, and until a force, repair or adopt writes its row, no sequence
      of steps of any processes runs SQL, moves a file or clears `v`, and no up, step,
      down, rollback or squash changes any row. */
  lemma DirtinessIsSticky(env: Env, ws: seq<World>, es: seq<Event>, v: nat, n: nat)
    requires Run(env, ws, es) && n < |ws|
    requires Inv(ws[0]) && Stuck(ws[0], v)
    requires NeverOverridden(ws, es, v, n)
    ensures Stuck(ws[n], v) && ws[n].schema == ws[0].schema && ws[n].dir == ws[0].dir
    ensures forall i :: 0 <= i < n && !OverrideWrite(ws[i], es[i]) ==> ws[i + 1].rows == ws[i].rows
  {
    StuckRun(env, ws, es, v, n);
    forall i | 0 <= i < n && !OverrideWrite(ws[i], es[i])
      ensures ws[i + 1].rows == ws[i].rows
    {
      StuckRun(env, ws, es, v, i);
      StuckStep(env, ws[i], es[i], v);
    }
  }
}
