/** The operation stream an extractor produces, kind by kind, against the statements of
    the file in source order. Sources: internal/engine/postgresengine/ddl.go,
    internal/ddlcheck/ddlcheck.go. */
module Extract {
  import opened Wrappers
  import opened DdlCheck

  /** A statement the patterns match, at its offset. */
  datatype Statement =
    | CreateObject(ref: ObjectRef, pos: nat)
    | DropObject(ref: ObjectRef, pos: nat)
    | RenameObject(ref: ObjectRef, to: ObjectRef, pos: nat)

  datatype Rename = Rename(from: ObjectRef, to: ObjectRef)

  datatype Pattern = Creates | Drops | Renames

  function PatternOf(s: Statement): Pattern {
    match s
    case CreateObject(_, _) => Creates
    case DropObject(_, _) => Drops
    case RenameObject(_, _, _) => Renames
  }

  /** A rename contributes two operations at one offset. */
  function OpsOf(s: Statement): (ops: seq<Operation>)
    ensures forall op :: op in ops ==> op.pos == s.pos
  {
    match s
    case CreateObject(ref, pos) => [Operation(Create, ref, pos)]
    case DropObject(ref, pos) => [Operation(Drop, ref, pos)]
    case RenameObject(ref, to, pos) => [Operation(RenameFrom, ref, pos), Operation(RenameTo, to, pos)]
  }

  /** The operations of a file as it runs them. */
  function InOrder(stmts: seq<Statement>): seq<Operation> {
    if stmts == [] then [] else OpsOf(stmts[0]) + InOrder(stmts[1..])
  }

  /** The matches of one pattern, in source order. */
  function Matches(stmts: seq<Statement>, p: Pattern): seq<Operation> {
    if stmts == [] then []
    else if PatternOf(stmts[0]) == p then OpsOf(stmts[0]) + Matches(stmts[1..], p)
    else Matches(stmts[1..], p)
  }

  /** The stream of `ExtractOperations`: one pattern after the other. */
  function Extracted(stmts: seq<Statement>): seq<Operation> {
    Matches(stmts, Creates) + Matches(stmts, Drops) + Matches(stmts, Renames)
  }

  /** One statement starts at one offset. */
  ghost predicate InSourceOrder(stmts: seq<Statement>) {
    forall i, j :: 0 <= i < j < |stmts| ==> stmts[i].pos < stmts[j].pos
  }

  // ----- Sorting restores source order -----

  lemma {:induction false} AtPosAppends(a: seq<Operation>, b: seq<Operation>, p: nat)
    ensures AtPos(a + b, p) == AtPos(a, p) + AtPos(b, p)
  {
    if a == [] {
      assert a + b == b;
    } else {
      assert (a + b)[1..] == a[1..] + b;
      AtPosAppends(a[1..], b, p);
    }
  }

  lemma {:induction false} AtPosElsewhere(ops: seq<Operation>, p: nat)
    requires forall op :: op in ops ==> op.pos != p
    ensures AtPos(ops, p) == []
  {
    if ops != [] {
      AtPosElsewhere(ops[1..], p);
    }
  }

  lemma {:induction false} MatchesAt(stmts: seq<Statement>, k: Pattern, op: Operation)
    requires op in Matches(stmts, k) || op in InOrder(stmts)
    ensures exists s :: s in stmts && s.pos == op.pos
  {
    if op in OpsOf(stmts[0]) {
      assert stmts[0] in stmts;
    } else {
      MatchesAt(stmts[1..], k, op);
    }
  }

  /** Nothing stands at an offset where no statement starts. */
  lemma NoneAt(stmts: seq<Statement>, p: nat)
    requires forall s :: s in stmts ==> s.pos != p
    ensures AtPos(InOrder(stmts), p) == [] && forall k :: AtPos(Matches(stmts, k), p) == []
  {
    forall op | op in InOrder(stmts)
      ensures op.pos != p
    {
      MatchesAt(stmts, Creates, op);
    }
    AtPosElsewhere(InOrder(stmts), p);
    forall k
      ensures AtPos(Matches(stmts, k), p) == []
    {
      forall op | op in Matches(stmts, k)
        ensures op.pos != p
      {
        MatchesAt(stmts, k, op);
      }
      AtPosElsewhere(Matches(stmts, k), p);
    }
  }

  /** What stands at an offset: all of it comes from one pattern. */
  lemma {:induction false} OnePatternAt(stmts: seq<Statement>, p: nat) returns (k: Pattern)
    requires InSourceOrder(stmts)
    ensures AtPos(InOrder(stmts), p) == AtPos(Matches(stmts, k), p)
    ensures forall other :: other != k ==> AtPos(Matches(stmts, other), p) == []
  {
    if stmts == [] {
      k := Creates;
    } else {
      var s, rest := stmts[0], stmts[1..];
      AtPosAppends(OpsOf(s), InOrder(rest), p);
      if s.pos == p {
        k := PatternOf(s);
        NoneAt(rest, p);
        AtPosAppends(OpsOf(s), Matches(rest, k), p);
      } else {
        AtPosElsewhere(OpsOf(s), p);
        AtPosAppends(OpsOf(s), Matches(rest, PatternOf(s)), p);
        k := OnePatternAt(rest, p);
      }
    }
  }

  lemma {:induction false} InOrderIsSorted(stmts: seq<Statement>)
    requires InSourceOrder(stmts)
    ensures SortedByPos(InOrder(stmts))
  {
    if stmts != [] {
      var ops, rest := OpsOf(stmts[0]), InOrder(stmts[1..]);
      InOrderIsSorted(stmts[1..]);
      forall j | 0 <= j < |rest|
        ensures stmts[0].pos <= rest[j].pos
      {
        MatchesAt(stmts[1..], Creates, rest[j]);
      }
      forall i | 0 <= i < |ops|
        ensures ops[i].pos == stmts[0].pos
      {
        assert ops[i] in ops;
      }
    }
  }

  /** Sorting the extractor's stream by offset, stably, gives the operations as the file
      runs them: the two halves of a rename stay in order and no statement moves. */
  lemma SortRestoresSourceOrder(stmts: seq<Statement>)
    requires InSourceOrder(stmts)
    ensures StableSort(Extracted(stmts)) == InOrder(stmts)
  {
    var ops := Extracted(stmts);
    StableSortMeans(ops);
    InOrderIsSorted(stmts);
    forall p: nat
      ensures AtPos(StableSort(ops), p) == AtPos(InOrder(stmts), p)
    {
      var k := OnePatternAt(stmts, p);
      AtPosAppends(Matches(stmts, Creates), Matches(stmts, Drops), p);
      AtPosAppends(Matches(stmts, Creates) + Matches(stmts, Drops), Matches(stmts, Renames), p);
    }
    StableUnique(StableSort(ops), InOrder(stmts));
  }

  /** What one statement does to the names that exist. */
  function RunStatement(names: set<ObjectRef>, s: Statement): set<ObjectRef> {
    match s
    case CreateObject(ref, _) => names + {ref}
    case DropObject(ref, _) => names - {ref}
    case RenameObject(ref, to, _) => names - {ref} + {to}
  }

  function RunStatements(names: set<ObjectRef>, stmts: seq<Statement>): set<ObjectRef>
    decreases |stmts|
  {
    if stmts == [] then names else RunStatements(RunStatement(names, stmts[0]), stmts[1..])
  }

  lemma {:induction false} RunOpsAppends(names: set<ObjectRef>, a: seq<Operation>, b: seq<Operation>)
    ensures RunOps(names, a + b) == RunOps(RunOps(names, a), b)
    decreases |b|
  {
    if b == [] {
      assert a + b == a;
    } else {
      assert (a + b)[..|a + b| - 1] == a + b[..|b| - 1];
      RunOpsAppends(names, a, b[..|b| - 1]);
    }
  }

  lemma OpsRunTheStatement(names: set<ObjectRef>, s: Statement)
    ensures RunOps(names, OpsOf(s)) == RunStatement(names, s)
  {
    var ops := OpsOf(s);
    assert ops[..0] == [];
    if s.RenameObject? {
      assert ops[..1] == [ops[0]] && [ops[0]][..0] == [];
      assert RunOps(names, [ops[0]]) == RunOp(names, ops[0]);
    }
  }

  /** The operations of a file do what its statements do. */
  lemma {:induction false} OpsRunTheFile(names: set<ObjectRef>, stmts: seq<Statement>)
    ensures RunOps(names, InOrder(stmts)) == RunStatements(names, stmts)
    decreases |stmts|
  {
    if stmts != [] {
      RunOpsAppends(names, OpsOf(stmts[0]), InOrder(stmts[1..]));
      OpsRunTheStatement(names, stmts[0]);
      OpsRunTheFile(RunStatement(names, stmts[0]), stmts[1..]);
    }
  }

  /** So resolving a file agrees with running its statements in source order over a set
      of names. */
  lemma ResolveRunsTheFile(stmts: seq<Statement>, names: set<ObjectRef>)
    requires InSourceOrder(stmts)
    ensures var lc := LifecycleOf(StableSort(Extracted(stmts)));
            forall ref :: ref in RunStatements(names, stmts) <==>
                          (ref in names && ref !in lc.destroyed) || MustExist(lc, ref)
  {
    SortRestoresSourceOrder(stmts);
    OpsRunTheFile(names, stmts);
    ResolveAgreesWithInterpreter(Extracted(stmts), names);
  }

  // ----- The projections -----

  /** The first rename target at an offset. */
  function FirstTo(ops: seq<Operation>, pos: nat): Option<ObjectRef> {
    if ops == [] then None
    else if ops[0].kind == RenameTo && ops[0].pos == pos then Some(ops[0].ref)
    else FirstTo(ops[1..], pos)
  }

  function RenamesIn(ops: seq<Operation>): seq<Rename> {
    if ops == [] then []
    else
      var rest := RenamesIn(ops[1..]);
      if ops[0].kind != RenameFrom then rest
      else match FirstTo(ops[1..], ops[0].pos)
           case None => rest
           case Some(to) => [Rename(ops[0].ref, to)] + rest
  }

  method RenamesOf(ops: seq<Operation>) returns (renames: seq<Rename>)
    ensures renames == RenamesIn(ops)
  {
    renames := [];
    for i := 0 to |ops|
      invariant renames + RenamesIn(ops[i..]) == RenamesIn(ops)
    {
      var op := ops[i];
      assert ops[i..][0] == op && ops[i..][1..] == ops[i + 1..];
      if op.kind != RenameFrom {
        continue;
      }
      ghost var before := renames;
      var j := i + 1;
      while j < |ops|
        invariant i < j <= |ops| && renames == before
        invariant FirstTo(ops[j..], op.pos) == FirstTo(ops[i + 1..], op.pos)
      {
        var to := ops[j];
        assert ops[j..][0] == to && ops[j..][1..] == ops[j + 1..];
        if to.kind == RenameTo && to.pos == op.pos {
          renames := renames + [Rename(op.ref, to.ref)];
          break;
        }
        j := j + 1;
      }
      assert renames ==
             before + (match FirstTo(ops[i + 1..], op.pos) case None => [] case Some(t) => [Rename(op.ref, t)]);
    }
  }

  function RefsIn(ops: seq<Operation>, kind: OpKind): seq<ObjectRef> {
    if ops == [] then []
    else if ops[0].kind == kind then [ops[0].ref] + RefsIn(ops[1..], kind)
    else RefsIn(ops[1..], kind)
  }

  method RefsOf(ops: seq<Operation>, kind: OpKind) returns (refs: seq<ObjectRef>)
    ensures refs == RefsIn(ops, kind)
  {
    refs := [];
    for i := 0 to |ops|
      invariant refs + RefsIn(ops[i..], kind) == RefsIn(ops, kind)
    {
      assert ops[i..][0] == ops[i] && ops[i..][1..] == ops[i + 1..];
      if ops[i].kind == kind {
        refs := refs + [ops[i].ref];
      }
    }
  }

  /** The renames of a file, one a statement. */
  function RenamesWritten(stmts: seq<Statement>): seq<Rename> {
    if stmts == [] then []
    else if stmts[0].RenameObject? then [Rename(stmts[0].ref, stmts[0].to)] + RenamesWritten(stmts[1..])
    else RenamesWritten(stmts[1..])
  }

  function RefsWritten(stmts: seq<Statement>, p: Pattern): seq<ObjectRef> {
    if stmts == [] then []
    else if PatternOf(stmts[0]) == p then [stmts[0].ref] + RefsWritten(stmts[1..], p)
    else RefsWritten(stmts[1..], p)
  }

  lemma {:induction false} NoRenamesIn(a: seq<Operation>, b: seq<Operation>)
    requires forall op :: op in a ==> op.kind != RenameFrom
    ensures RenamesIn(a + b) == RenamesIn(b)
  {
    if a == [] {
      assert a + b == b;
    } else {
      assert (a + b)[1..] == a[1..] + b;
      NoRenamesIn(a[1..], b);
    }
  }

  lemma {:induction false} MatchesKinds(stmts: seq<Statement>, p: Pattern, op: Operation)
    requires op in Matches(stmts, p)
    ensures match p
            case Creates => op.kind == Create
            case Drops => op.kind == Drop
            case Renames => op.kind == RenameFrom || op.kind == RenameTo
  {
    if PatternOf(stmts[0]) != p || op !in OpsOf(stmts[0]) {
      MatchesKinds(stmts[1..], p, op);
    }
  }

  lemma {:induction false} RenamesInMatches(stmts: seq<Statement>)
    ensures RenamesIn(Matches(stmts, Renames)) == RenamesWritten(stmts)
  {
    if stmts != [] {
      var s, rest := stmts[0], Matches(stmts[1..], Renames);
      RenamesInMatches(stmts[1..]);
      if s.RenameObject? {
        var ops := OpsOf(s) + rest;
        assert ops[1..] == [Operation(RenameTo, s.to, s.pos)] + rest;
        assert ops[1..][1..] == rest;
      }
    }
  }

  /** Every rename of the file is found, with its own target, and nothing else. */
  lemma RenamesAreFound(stmts: seq<Statement>)
    ensures RenamesIn(Extracted(stmts)) == RenamesWritten(stmts)
  {
    var others := Matches(stmts, Creates) + Matches(stmts, Drops);
    forall op | op in others
      ensures op.kind != RenameFrom
    {
      MatchesKinds(stmts, if op in Matches(stmts, Creates) then Creates else Drops, op);
    }
    NoRenamesIn(others, Matches(stmts, Renames));
    RenamesInMatches(stmts);
  }

  lemma {:induction false} RefsInAppends(a: seq<Operation>, b: seq<Operation>, kind: OpKind)
    ensures RefsIn(a + b, kind) == RefsIn(a, kind) + RefsIn(b, kind)
  {
    if a == [] {
      assert a + b == b;
    } else {
      assert (a + b)[1..] == a[1..] + b;
      RefsInAppends(a[1..], b, kind);
    }
  }

  lemma {:induction false} RefsInMatches(stmts: seq<Statement>, p: Pattern, kind: OpKind)
    requires kind == Create || kind == Drop
    ensures RefsIn(Matches(stmts, p), kind) ==
            if (p.Creates? && kind == Create) || (p.Drops? && kind == Drop) then RefsWritten(stmts, p) else []
  {
    if stmts != [] {
      RefsInMatches(stmts[1..], p, kind);
      if PatternOf(stmts[0]) == p {
        RefsInAppends(OpsOf(stmts[0]), Matches(stmts[1..], p), kind);
      }
    }
  }

  /** `ExtractObjects` and `ExtractDroppedObjects` are the created and dropped names, in
      source order. */
  lemma RefsAreFound(stmts: seq<Statement>)
    ensures RefsIn(Extracted(stmts), Create) == RefsWritten(stmts, Creates)
    ensures RefsIn(Extracted(stmts), Drop) == RefsWritten(stmts, Drops)
  {
    forall kind | kind == Create || kind == Drop
      ensures RefsIn(Extracted(stmts), kind) == RefsWritten(stmts, if kind == Create then Creates else Drops)
    {
      RefsInAppends(Matches(stmts, Creates), Matches(stmts, Drops), kind);
      RefsInAppends(Matches(stmts, Creates) + Matches(stmts, Drops), Matches(stmts, Renames), kind);
      RefsInMatches(stmts, Creates, kind);
      RefsInMatches(stmts, Drops, kind);
      RefsInMatches(stmts, Renames, kind);
    }
  }
}
