/** The commands that only rewrite ledger rows, run under the migration lock, and what a
    whole session of migrations leaves. Sources: internal/rollback/rollback.go,
    internal/repair/repair.go, cmd/adopt.go, internal/migrator/runner.go. */
module Commands {
  import opened Wrappers
  import opened Ordered
  import opened Ledger
  import opened Migrations
  import opened Protocol
  import opened DdlCheck
  import Runner
  import Replay
  import Verify

  // ----- Writing one status over many rows -----

  /** The last status a list of writes gives a version, if any. */
  function StatusIn(ws: seq<Write>, v: nat): (s: Option<Status>)
    requires forall w :: w in ws ==> w.SetStatus?
  {
    if ws == [] then None
    else if ws[|ws| - 1].version == v then Some(ws[|ws| - 1].status)
    else StatusIn(ws[..|ws| - 1], v)
  }

  /** A row after a status write, or without one. */
  function Rewritten(rows: Rows, v: nat, s: Option<Status>): Option<Row> {
    match s
    case None => if v in rows then Some(rows[v]) else None
    case Some(status) => Some(if v in rows then rows[v].(status := status) else Row(status, "", ""))
  }

  function RowOf(rows: Rows, v: nat): Option<Row> {
    if v in rows then Some(rows[v]) else None
  }

  /** Status writes change the status of the versions they name, the last write of a
      version deciding, and nothing else of any row. */
  lemma {:induction false} StatusWritesMean(rows: Rows, ws: seq<Write>, v: nat)
    requires forall w :: w in ws ==> w.SetStatus?
    ensures RowOf(PutAll(rows, ws), v) == Rewritten(rows, v, StatusIn(ws, v))
    decreases |ws|
  {
    if ws != [] {
      var init, last := ws[..|ws| - 1], ws[|ws| - 1];
      assert ws == init + [last];
      StatusWritesMean(rows, init, v);
      PutAllAppends(rows, init, last);
    }
  }

  lemma {:induction false} RollbackStatus(applied: seq<nat>, count: nat, v: nat)
    requires count <= |applied| && Ascending(applied)
    ensures StatusIn(RollbackWrites(applied, count), v) ==
            if v in applied[|applied| - count..] then Some(Reverted) else None
  {
    var ws := RollbackWrites(applied, count);
    if count > 0 {
      var u := applied[|applied| - count];
      assert ws[..count - 1] == RollbackWrites(applied, count - 1);
      RollbackStatus(applied, count - 1, v);
      assert applied[|applied| - count..] == [u] + applied[|applied| - (count - 1)..];
    }
  }

  // ----- Rollback -----

  /** The rows after the newest `count` applied versions are reverted in the ledger. */
  function SoftReverted(rows: Rows, count: nat): Rows
    requires count <= |AppliedVersions(rows)|
  {
    PutAll(rows, RollbackWrites(AppliedVersions(rows), count))
  }

  lemma SplitMember(s: seq<nat>, k: nat, v: nat)
    requires Ascending(s) && k <= |s|
    ensures v in s <==> v in s[..k] || v in s[k..]
    ensures !(v in s[..k] && v in s[k..])
  {
    assert s == s[..k] + s[k..];
  }

  /** It changes the status of the reverted rows and nothing else: every other row stays,
      and the reverted ones keep their hash and source. */
  lemma RollbackRow(rows: Rows, count: nat, v: nat)
    requires count <= |AppliedVersions(rows)|
    ensures var applied := AppliedVersions(rows);
            var gone := v in applied[|applied| - count..];
            && RowOf(SoftReverted(rows, count), v) == Rewritten(rows, v, if gone then Some(Reverted) else None)
            && (v in AppliedSet(SoftReverted(rows, count)) <==> v in applied[..|applied| - count])
            && (gone ==> v in AppliedSet(rows))
  {
    var applied := AppliedVersions(rows);
    StatusWritesMean(rows, RollbackWrites(applied, count), v);
    RollbackStatus(applied, count, v);
    SplitMember(applied, |applied| - count, v);
    assert v in applied <==> v in AppliedSet(rows);
    assert RowOf(SoftReverted(rows, count), v) ==
           Rewritten(rows, v, if v in applied[|applied| - count..] then Some(Reverted) else None);
  }

  lemma PrefixAscends(s: seq<nat>, k: nat)
    requires Ascending(s) && k <= |s|
    ensures Ascending(s[..k])
  {
  }

  /** A soft revert takes the newest versions off the applied list. */
  lemma RollbackPops(rows: Rows, count: nat)
    requires count <= |AppliedVersions(rows)|
    ensures var applied := AppliedVersions(rows);
            AppliedVersions(SoftReverted(rows, count)) == applied[..|applied| - count]
  {
    var applied := AppliedVersions(rows);
    var after, kept := AppliedVersions(SoftReverted(rows, count)), applied[..|applied| - count];
    PrefixAscends(applied, |applied| - count);
    forall v
      ensures v in after <==> v in kept
    {
      RollbackRow(rows, count, v);
    }
    SortedUnique(after, kept);
  }

  /** The pairs that mark some versions as applied. */
  function Marking(vs: seq<nat>): seq<Pair> {
    seq(|vs|, i requires 0 <= i < |vs| => Pair(vs[i], true))
  }

  lemma MarkingNames(vs: seq<nat>, v: nat)
    ensures (exists p :: p in Marking(vs) && p.version == v) <==> v in vs
    ensures forall p :: p in Marking(vs) ==> p.applied
  {
    if v in vs {
      var i :| 0 <= i < |vs| && vs[i] == v;
      assert Marking(vs)[i] == Pair(v, true);
    }
    forall p | p in Marking(vs)
      ensures p.applied && p.version in vs
    {
      var i :| 0 <= i < |vs| && Marking(vs)[i] == p;
      assert vs[i] == p.version;
    }
  }

  /** The versions a rollback of `count` reverts. */
  function Newest(rows: Rows, count: nat): seq<nat>
    requires count <= |AppliedVersions(rows)|
  {
    AppliedVersions(rows)[|AppliedVersions(rows)| - count..]
  }

  /** Repairing every version a rollback reverted as applied restores the ledger, hashes
      and sources included. */
  lemma RepairUndoesRollback(rows: Rows, count: nat)
    requires count <= |AppliedVersions(rows)|
    ensures PutAll(SoftReverted(rows, count), RepairWrites(Marking(Newest(rows, count)))) == rows
  {
    var mid, pairs := SoftReverted(rows, count), Marking(Newest(rows, count));
    var after := PutAll(mid, RepairWrites(pairs));
    forall v: nat
      ensures RowOf(after, v) == RowOf(rows, v)
    {
      UndoneRow(rows, count, v);
    }
    SameRows(after, rows);
  }

  lemma UndoneRow(rows: Rows, count: nat, v: nat)
    requires count <= |AppliedVersions(rows)|
    ensures RowOf(PutAll(SoftReverted(rows, count), RepairWrites(Marking(Newest(rows, count)))), v) == RowOf(rows, v)
  {
    var mid, pairs := SoftReverted(rows, count), Marking(Newest(rows, count));
    StatusWritesMean(mid, RepairWrites(pairs), v);
    RepairStatus(pairs, v);
    MarkingNames(Newest(rows, count), v);
    RollbackRow(rows, count, v);
  }

  lemma SameRows(a: Rows, b: Rows)
    requires forall v :: RowOf(a, v) == RowOf(b, v)
    ensures a == b
  {
    forall v
      ensures v in a <==> v in b
      ensures v in a ==> a[v] == b[v]
    {
      assert RowOf(a, v) == RowOf(b, v);
    }
  }

  /** The last pair that names a version decides its status. */
  lemma {:induction false} RepairStatus(pairs: seq<Pair>, v: nat)
    ensures var s := StatusIn(RepairWrites(pairs), v);
            && (s == None <==> forall p :: p in pairs ==> p.version != v)
            && (s.Some? ==>
                  exists p :: p in pairs && p.version == v && s.value == if p.applied then Applied else Reverted)
    decreases |pairs|
  {
    if pairs != [] {
      var init, last := pairs[..|pairs| - 1], pairs[|pairs| - 1];
      assert RepairWrites(pairs)[..|pairs| - 1] == RepairWrites(init);
      RepairStatus(init, v);
      assert forall p :: p in pairs <==> p in init || p == last;
    }
  }

  /** How many versions a rollback reverts: with more steps than applied versions, one. */
  function Reverting(rows: Rows, steps: int): (count: nat)
    ensures count <= |AppliedVersions(rows)|
  {
    var n := |AppliedVersions(rows)|;
    if n == 0 then 0 else RollbackCount(n, steps)
  }

  /** What a rollback reports: the reverted versions, newest first, and the new version. */
  ghost predicate Reports(applied: seq<nat>, count: nat, reverted: seq<nat>, version: Option<nat>) {
    && |reverted| == count <= |applied|
    && (forall i :: 0 <= i < count ==> reverted[i] == applied[|applied| - 1 - i])
    && version == if count == |applied| then None else Some(applied[|applied| - count - 1])
  }

  /** What a rollback of `steps` does to the applied versions and reports: it reverts the
      last `steps` of them, or one when `steps` asks for none or for more than there are. */
  ghost predicate RolledBack(applied: seq<nat>, steps: int, left: seq<nat>, reverted: seq<nat>, version: Option<nat>) {
    var count := if applied == [] then 0 else if 1 <= steps <= |applied| then steps else 1;
    && left == applied[..|applied| - count]
    && |reverted| == count && (forall i :: 0 <= i < count ==> reverted[i] == applied[|applied| - 1 - i])
    && version == if left == [] then None else Some(left[|left| - 1])
  }

  lemma ReportsAsAsked(applied: seq<nat>, steps: int, count: nat, reverted: seq<nat>, version: Option<nat>)
    requires count == if |applied| == 0 then 0 else RollbackCount(|applied|, steps)
    requires Reports(applied, count, reverted, version)
    ensures RolledBack(applied, steps, applied[..|applied| - count], reverted, version)
  {
  }

  lemma ReportedRollback(rows: Rows, steps: int, reverted: seq<nat>, version: Option<nat>)
    requires Reports(AppliedVersions(rows), Reverting(rows, steps), reverted, version)
    ensures RolledBack(AppliedVersions(rows), steps, AppliedVersions(SoftReverted(rows, Reverting(rows, steps))),
                       reverted, version)
  {
    ReportsAsAsked(AppliedVersions(rows), steps, Reverting(rows, steps), reverted, version);
    RollbackPops(rows, Reverting(rows, steps));
  }

  /** The protocol's rollback takes as many versions off. */
  lemma PreparedRollback(env: Env, w: World, p: nat, steps: int)
    requires Enabled(w, Prepare(p)) && Pc(w, p).Checked? && Pc(w, p).cmd == Cmd.Rollback(steps)
    requires AppliedVersions(w.rows) != []
    ensures var w' := Next(env, w, Prepare(p));
            var applied := AppliedVersions(w.rows);
            && Pc(w', p).Writing? && w'.rows == w.rows
            && AppliedVersions(PutAll(w.rows, Pc(w', p).todo)) ==
               applied[..|applied| - if 1 <= steps <= |applied| then steps else 1]
  {
    RollbackPops(w.rows, Reverting(w.rows, steps));
  }

  method NewestFirst(applied: seq<nat>, count: nat) returns (reverted: seq<nat>)
    requires count <= |applied|
    ensures |reverted| == count && forall i :: 0 <= i < count ==> reverted[i] == applied[|applied| - 1 - i]
  {
    reverted := [];
    var i := |applied| - 1;
    while i >= |applied| - count
      invariant |applied| - count - 1 <= i < |applied|
      invariant |reverted| == |applied| - 1 - i
      invariant forall j :: 0 <= j < |reverted| ==> reverted[j] == applied[|applied| - 1 - j]
    {
      reverted := reverted + [applied[i]];
      i := i - 1;
    }
  }

  /** Reverts the last applied versions in the ledger without running any SQL. */
  method Rollback(r: Runner.Runner, steps: int)
    returns (reverted: seq<nat>, version: Option<nat>, err: Option<Runner.Error>)
    requires r.Ready()
    modifies r
    ensures r.Valid() && r.Did(Cmd.Rollback(steps), old(r.trail), old(r.log)) && r.Ready()
    ensures r.schema == old(r.schema)
    ensures QueryState(old(r.rows)).dirty ==> err != None
    ensures err == None ==>
              RolledBack(AppliedVersions(old(r.rows)), steps, AppliedVersions(r.rows), reverted, version)
    ensures r.rows == if err == None then SoftReverted(old(r.rows), |reverted|) else old(r.rows)
  {
    var ok := r.Acquire(Cmd.Rollback(steps));
    if !ok {
      return [], None, Some(Runner.Failed);
    }
    reverted, version, err := RollbackLocked(r, steps);
    var _ := r.Release();
  }

  method RollbackLocked(r: Runner.Runner, steps: int)
    returns (reverted: seq<nat>, version: Option<nat>, err: Option<Runner.Error>)
    requires r.Valid() && r.pc == Holding(Cmd.Rollback(steps)) && Holds(r.lock, r.pid)
    modifies r
    ensures r.Valid() && r.Grew(old(r.trail), old(r.log)) && r.pc == Leaving && r.lock == old(r.lock)
    ensures r.schema == old(r.schema)
    ensures QueryState(old(r.rows)).dirty ==> err != None
    ensures err == None ==>
              RolledBack(AppliedVersions(old(r.rows)), steps, AppliedVersions(r.rows), reverted, version)
    ensures r.rows == if err == None then SoftReverted(old(r.rows), |reverted|) else old(r.rows)
  {
    var st;
    st, err := r.ReadState();
    if err != None {
      return [], None, err;
    }
    ghost var before := r.rows;
    reverted, version, err := RollbackChecked(r, steps);
    if err == None {
      ReportedRollback(before, steps, reverted, version);
    }
  }

  method RollbackChecked(r: Runner.Runner, steps: int)
    returns (reverted: seq<nat>, version: Option<nat>, err: Option<Runner.Error>)
    requires r.Valid() && r.pc.Checked? && r.pc.cmd == Cmd.Rollback(steps)
    modifies r
    ensures r.Valid() && r.Grew(old(r.trail), old(r.log)) && r.pc == Leaving && r.lock == old(r.lock)
    ensures r.schema == old(r.schema)
    ensures r.rows == if err == None then SoftReverted(old(r.rows), Reverting(old(r.rows), steps)) else old(r.rows)
    ensures err == None ==> Reports(AppliedVersions(old(r.rows)), Reverting(old(r.rows), steps), reverted, version)
  {
    var applied := CollectApplied(r.rows);
    reverted := PlanRollback(r, steps, applied);
    version, err := None, None;
    if |applied| > 0 {
      version, err := WriteOff(r, steps, applied, |reverted|);
    }
  }

  /** Chooses the versions to revert. */
  method PlanRollback(r: Runner.Runner, steps: int, applied: seq<nat>) returns (reverted: seq<nat>)
    requires r.Valid() && r.pc.Checked? && r.pc.cmd == Cmd.Rollback(steps) && applied == AppliedVersions(r.rows)
    modifies r
    ensures r.Valid() && r.Grew(old(r.trail), old(r.log)) && r.lock == old(r.lock) && r.Data() == old(r.Data())
    ensures |reverted| == Reverting(r.rows, steps) && forall i :: 0 <= i < |reverted| ==>
              reverted[i] == applied[|applied| - 1 - i]
    ensures r.pc == if applied == [] then Leaving else Writing(Cmd.Rollback(steps), RollbackWrites(applied, |reverted|))
  {
    if |applied| == 0 {
      r.Planned(Leaving);
      return [];
    }
    var count := steps;
    if count <= 0 || count > |applied| {
      count := 1;
    }
    reverted := NewestFirst(applied, count);
    r.Planned(Writing(Cmd.Rollback(steps), RollbackWrites(applied, count)));
  }

  /** The transaction, and the version that is left. */
  method WriteOff(r: Runner.Runner, steps: int, applied: seq<nat>, count: nat)
    returns (version: Option<nat>, err: Option<Runner.Error>)
    requires r.Valid() && applied == AppliedVersions(r.rows) && count <= |applied|
    requires r.pc == Writing(Cmd.Rollback(steps), RollbackWrites(applied, count))
    modifies r
    ensures r.Valid() && r.Grew(old(r.trail), old(r.log)) && r.pc == Leaving && r.lock == old(r.lock)
    ensures r.schema == old(r.schema)
    ensures r.rows == if err == None then SoftReverted(old(r.rows), count) else old(r.rows)
    ensures err == None ==> version == if count == |applied| then None else Some(applied[|applied| - count - 1])
  {
    RollbackPops(r.rows, count);
    var ok := r.WriteTransaction(RollbackWrites(applied, count));
    if !ok {
      return None, Some(Runner.Failed);
    }
    var remaining := CollectApplied(r.rows);
    version := if |remaining| > 0 then Some(remaining[|remaining| - 1]) else None;
    err := None;
  }

  // ----- Repair -----

  /** A pair may be written: a reverted one always, an applied one when its file is there
      and every name the file must leave exists, or the operator insists. */
  ghost predicate Repairable(src: Verify.Sources, p: Pair, force: bool) {
    p.applied ==>
      && p.version in src.dir.byVersion
      && (force || forall ref ::
            MustExist(LifecycleOf(src.MigrationOf(src.dir.byVersion[p.version]).ops), ref) ==> ref in src.live)
  }

  /** After a repair the applying rows are the ones no pair names. */
  lemma RepairClears(rows: Rows, pairs: seq<Pair>)
    ensures forall v :: v in ApplyingSet(PutAll(rows, RepairWrites(pairs))) <==>
                        v in ApplyingSet(rows) && forall p :: p in pairs ==> p.version != v
  {
    forall v
      ensures v in ApplyingSet(PutAll(rows, RepairWrites(pairs))) <==>
              v in ApplyingSet(rows) && forall p :: p in pairs ==> p.version != v
    {
      StatusWritesMean(rows, RepairWrites(pairs), v);
      RepairStatus(pairs, v);
    }
  }

  /** A version that may be marked applied without insisting is not drift for its objects
      afterwards: its file is there and no name it left is missing. Insisting skips the
      second part only. */
  lemma RepairedIsNotMissing(src: Verify.Sources, entries: seq<Entry>, e: Entry, p: Pair, force: bool,
                             f: Verify.Finding)
    requires Verify.AscendingEntries(entries) && src.dir.UpIndexed() && e in entries && e.row.status == Applied
    requires Repairable(src, p, force) && p.applied && p.version == e.version
    requires Verify.Explains(src, src.AppliedFiles(entries), e, f)
    ensures Verify.NoFile !in f.details
    ensures !force ==> forall ref :: Verify.Missing(ref) !in f.details
  {
    if !force {
      var ms := src.AppliedFiles(entries);
      forall ref | ref in Verify.Names(ms) && Verify.LeftBy(ms, ref, e.version)
        ensures ref in src.live
      {
        Verify.NamesMean(ms, ref);
        Verify.AppliedFilesMean(src, entries);
        assert ms[Verify.LastTouch(ms, ref)] in ms;
      }
    }
  }

  /** The loop over the names a file leaves behind. */
  method AllExist(src: Verify.Sources, lc: Lifecycle) returns (all: bool)
    ensures all <==> forall ref :: MustExist(lc, ref) ==> ref in src.live
  {
    for i := 0 to |lc.leftBehind|
      invariant forall ref :: ref in lc.leftBehind[..i] && !lc.Temporary(ref) ==> ref in src.live
    {
      var obj := lc.leftBehind[i];
      assert lc.leftBehind[..i + 1] == lc.leftBehind[..i] + [obj];
      if lc.Temporary(obj) {
        continue;
      }
      if obj !in src.live {
        assert MustExist(lc, obj);
        return false;
      }
    }
    assert lc.leftBehind[..|lc.leftBehind|] == lc.leftBehind;
    return true;
  }

  method ValidatePairs(src: Verify.Sources, pairs: seq<Pair>, force: bool) returns (ok: bool)
    ensures ok <==> forall p :: p in pairs ==> Repairable(src, p, force)
  {
    for i := 0 to |pairs|
      invariant forall p :: p in pairs[..i] ==> Repairable(src, p, force)
    {
      var pair := pairs[i];
      assert pairs[..i + 1] == pairs[..i] + [pair];
      assert pair in pairs;
      if !pair.applied {
        continue;
      }
      if pair.version !in src.dir.byVersion {
        return false;
      }
      var lc := Resolve(src.extract(src.dir.byVersion[pair.version].sql));
      var all := AllExist(src, lc);
      if !all && !force {
        return false;
      }
    }
    assert pairs[..|pairs|] == pairs;
    return true;
  }

  /** Writes all the pairs in one transaction once every one of them is valid: either
      every pair lands or no row changes. */
  method Repair(r: Runner.Runner, src: Verify.Sources, pairs: seq<Pair>, force: bool)
    returns (version: Option<nat>, err: Option<Runner.Error>)
    requires r.Ready() && src.dir == r.dir
    modifies r
    ensures r.Valid() && r.Did(Cmd.Repair(pairs), old(r.trail), old(r.log)) && r.Ready()
    ensures r.schema == old(r.schema)
    ensures r.rows != old(r.rows) || err == None ==>
              && (forall p :: p in pairs ==> Repairable(src, p, force))
              && r.rows == PutAll(old(r.rows), RepairWrites(pairs))
              && version == Highest(r.rows)
    ensures err != None ==> err == Some(Runner.Failed)
  {
    var ok := r.Acquire(Cmd.Repair(pairs));
    if !ok {
      return None, Some(Runner.Failed);
    }
    version, err := RepairLocked(r, src, pairs, force);
    ok := r.Release();
    if !ok && err == None {
      err := Some(Runner.Failed);
    }
  }

  method RepairLocked(r: Runner.Runner, src: Verify.Sources, pairs: seq<Pair>, force: bool)
    returns (version: Option<nat>, err: Option<Runner.Error>)
    requires r.Valid() && r.pc == Holding(Cmd.Repair(pairs)) && Holds(r.lock, r.pid) && src.dir == r.dir
    modifies r
    ensures r.Valid() && r.Grew(old(r.trail), old(r.log)) && r.pc == Leaving && r.lock == old(r.lock)
    ensures r.schema == old(r.schema)
    ensures err != None ==> r.rows == old(r.rows)
    ensures err == None ==>
              && (forall p :: p in pairs ==> Repairable(src, p, force))
              && r.rows == PutAll(old(r.rows), RepairWrites(pairs))
              && version == Highest(r.rows)
    ensures err != None ==> err == Some(Runner.Failed)
  {
    var readable := *;
    var ok := ValidatePairs(src, pairs, force);
    if !readable || !ok {
      r.Stop();
      return None, Some(Runner.Failed);
    }
    var todo := RepairWrites(pairs);
    r.Decided(todo);
    ok := r.WriteTransaction(todo);
    if !ok {
      return None, Some(Runner.Failed);
    }
    var applied := CollectApplied(r.rows);
    HighestIsLast(r.rows);
    version := if |applied| > 0 then Some(applied[|applied| - 1]) else None;
    err := None;
  }

  /** The version a ledger stands at. */
  function Highest(rows: Rows): Option<nat> {
    if QueryState(rows).hasVersion then Some(QueryState(rows).version) else None
  }

  lemma HighestIsLast(rows: Rows)
    ensures var applied := AppliedVersions(rows);
            Highest(rows) == if applied == [] then None else Some(applied[|applied| - 1])
  {
    if AppliedSet(rows) != {} {
      MaxIsLast(AppliedSet(rows));
    }
  }

  // ----- Import -----

  /** The import: the rows of the matched versions one by one, broken off anywhere. */
  method Import(r: Runner.Runner, matched: seq<nat>) returns (adopted: nat, err: Option<Runner.Error>)
    requires r.Ready()
    modifies r
    ensures r.Valid() && r.Did(Adopt(matched), old(r.trail), old(r.log)) && r.Ready()
    ensures r.schema == old(r.schema) && adopted <= |matched|
    ensures err == None ==> adopted == |matched|
    ensures r.rows == PutAll(old(r.rows), AdoptWrites(r.env, r.dir, matched[..adopted]))
  {
    var ok := r.Acquire(Adopt(matched));
    if !ok {
      return 0, Some(Runner.Failed);
    }
    adopted, ok := ImportLocked(r, matched);
    var released := r.Release();
    err := if ok && released then None else Some(Runner.Failed);
  }

  method ImportLocked(r: Runner.Runner, matched: seq<nat>) returns (adopted: nat, ok: bool)
    requires r.Valid() && r.pc == Holding(Adopt(matched)) && Holds(r.lock, r.pid)
    modifies r
    ensures r.Valid() && r.Grew(old(r.trail), old(r.log)) && r.pc == Leaving && r.lock == old(r.lock)
    ensures r.schema == old(r.schema)
    ensures adopted <= |matched| && (ok ==> adopted == |matched|)
    ensures r.rows == PutAll(old(r.rows), AdoptWrites(r.env, r.dir, matched[..adopted]))
  {
    r.Decided(AdoptWrites(r.env, r.dir, matched));
    adopted, ok := ImportRows(r, matched);
    if ok {
      r.Stop();
    }
  }

  lemma AdoptWritesPrefix(env: Env, dir: Dir, rows: Rows, matched: seq<nat>, i: nat)
    requires i < |matched|
    ensures var t := SetStatusAdopted(matched[i], HashOf(env, dir.byVersion, matched[i]));
            && AdoptWrites(env, dir, matched)[i] == t
            && PutAll(rows, AdoptWrites(env, dir, matched[..i + 1])) ==
               Put(PutAll(rows, AdoptWrites(env, dir, matched[..i])), t)
  {
    var t := SetStatusAdopted(matched[i], HashOf(env, dir.byVersion, matched[i]));
    assert AdoptWrites(env, dir, matched[..i + 1]) == AdoptWrites(env, dir, matched[..i]) + [t];
    PutAllAppends(rows, AdoptWrites(env, dir, matched[..i]), t);
  }

  /** The loop itself, under the lock. */
  method ImportRows(r: Runner.Runner, matched: seq<nat>) returns (adopted: nat, ok: bool)
    requires r.Valid() && r.pc == Writing(Adopt(matched), AdoptWrites(r.env, r.dir, matched))
    modifies r
    ensures r.Valid() && r.Grew(old(r.trail), old(r.log)) && r.lock == old(r.lock) && r.schema == old(r.schema)
    ensures adopted <= |matched|
    ensures if ok then adopted == |matched| && r.pc == Writing(Adopt(matched), []) else r.pc == Leaving
    ensures r.rows == PutAll(old(r.rows), AdoptWrites(r.env, r.dir, matched[..adopted]))
  {
    ghost var todo := AdoptWrites(r.env, r.dir, matched);
    for i := 0 to |matched|
      invariant r.Valid() && r.Grew(old(r.trail), old(r.log)) && r.lock == old(r.lock) && r.schema == old(r.schema)
      invariant r.pc == Writing(Adopt(matched), todo[i..])
      invariant r.rows == PutAll(old(r.rows), AdoptWrites(r.env, r.dir, matched[..i]))
    {
      AdoptWritesPrefix(r.env, r.dir, old(r.rows), matched, i);
      adopted := i;
      ok := r.WriteRow(SetStatusAdopted(matched[i], HashOf(r.env, r.dir.byVersion, matched[i])));
      if !ok {
        return;
      }
    }
    assert matched[..|matched|] == matched;
    adopted, ok := |matched|, true;
  }

  // ----- A whole session -----

  ghost predicate Migrating(cmd: Cmd) {
    cmd.Apply? || cmd.Revert?
  }

  /** Any sequence of ups, steps and downs on an untouched database, whichever of them
      fail and wherever: unless a row is left applying, the schema is the replay of the
      applied versions. */
  method Session(r: Runner.Runner, cmds: seq<Cmd>)
    requires r.Ready() && r.lock == None && r.log == [] && r.rows == map[] && r.schema == r.env.empty
    requires r.dir.Valid() && Replay.DownsUndoUps(r.env, r.dir)
    requires forall c :: c in cmds ==> Migrating(c)
    modifies r
    ensures r.Ready() && r.trail[0] == old(r.trail[0]) && forall e :: e in r.log ==> Replay.UpOrDown(e)
    ensures ApplyingSet(r.rows) == {} ==> r.schema == Replay.Replayed(r.env, r.dir.byVersion, AppliedVersions(r.rows))
  {
    ghost var start := r.trail[0];
    for i := 0 to |cmds|
      invariant r.Ready()
      invariant r.trail[0] == start
      invariant forall e :: e in r.log ==> Replay.UpOrDown(e)
    {
      ghost var log := r.log;
      assert cmds[i] in cmds;
      match cmds[i]
      case Apply(limit) =>
        var _, _ := r.Apply(limit);
      case Revert(steps) =>
        var _, _ := r.Down(steps);
      assert forall e :: e in r.log ==> Replay.UpOrDown(e);
    }
    assert forall p: nat :: Pc(r.Now(), p).Idle?;
    Replay.SchemaIsReplayOfLedger(r.env, r.trail, r.log, |r.log|);
  }
}
