/** What one migration file does to object names, against an interpreter that runs its
    operations over a set of names. Source: internal/ddlcheck/ddlcheck.go. */
module DdlCheck {

  datatype ObjectRef = ObjectRef(schema: string, name: string, kind: string)

  datatype OpKind = Create | Drop | RenameFrom | RenameTo

  datatype Operation = Operation(kind: OpKind, ref: ObjectRef, pos: nat)

  predicate Removes(kind: OpKind) {
    kind == Drop || kind == RenameFrom
  }

  /** What a file leaves behind and ends without. A name can be on both lists. */
  datatype Lifecycle = Lifecycle(
    leftBehind: seq<ObjectRef>, destroyed: seq<ObjectRef>,
    produced: set<ObjectRef>, last: map<ObjectRef, OpKind>)
  {
    /** The file brings the name into existence and ends without it. */
    predicate Temporary(ref: ObjectRef) {
      ref in produced && ref in last && Removes(last[ref])
    }
  }

  // ----- The interpreter -----

  function RunOp(names: set<ObjectRef>, op: Operation): set<ObjectRef> {
    if Removes(op.kind) then names - {op.ref} else names + {op.ref}
  }

  function RunOps(names: set<ObjectRef>, ops: seq<Operation>): set<ObjectRef> {
    if ops == [] then names else RunOp(RunOps(names, ops[..|ops| - 1]), ops[|ops| - 1])
  }

  /** The last operation on `ref`, if any. */
  function LastKind(ops: seq<Operation>, ref: ObjectRef): (k: int)
    ensures -1 <= k < |ops|
    ensures k >= 0 ==> ops[k].ref == ref
    ensures forall i :: k < i < |ops| ==> ops[i].ref != ref
  {
    if ops == [] then -1
    else if ops[|ops| - 1].ref == ref then |ops| - 1
    else LastKind(ops[..|ops| - 1], ref)
  }

  /** A name exists after the operations if its last one leaves it, or if none touches
      it and it existed before. */
  lemma {:induction false} RunOpsMeans(names: set<ObjectRef>, ops: seq<Operation>, ref: ObjectRef)
    ensures var k := LastKind(ops, ref);
            ref in RunOps(names, ops) <==> if k >= 0 then !Removes(ops[k].kind) else ref in names
  {
    if ops != [] {
      RunOpsMeans(names, ops[..|ops| - 1], ref);
    }
  }

  // ----- Source order -----

  ghost predicate SortedByPos(ops: seq<Operation>) {
    forall i, j :: 0 <= i < j < |ops| ==> ops[i].pos <= ops[j].pos
  }

  function AtPos(ops: seq<Operation>, p: nat): seq<Operation> {
    if ops == [] then []
    else if ops[0].pos == p then [ops[0]] + AtPos(ops[1..], p)
    else AtPos(ops[1..], p)
  }

  /** Places `op` before the first operation of a sorted list that is not earlier. */
  function Insert(op: Operation, ops: seq<Operation>): seq<Operation> {
    if ops == [] || op.pos <= ops[0].pos then [op] + ops else [ops[0]] + Insert(op, ops[1..])
  }

  /** `sort.SliceStable` by offset: operations at one offset keep their order. */
  function StableSort(ops: seq<Operation>): seq<Operation> {
    if ops == [] then [] else Insert(ops[0], StableSort(ops[1..]))
  }

  lemma {:induction false} InsertMembers(op: Operation, ops: seq<Operation>)
    ensures forall o :: o in Insert(op, ops) <==> o == op || o in ops
  {
    if !(ops == [] || op.pos <= ops[0].pos) {
      InsertMembers(op, ops[1..]);
      assert forall o :: o in ops <==> o == ops[0] || o in ops[1..];
    }
  }

  lemma {:induction false} InsertSorted(op: Operation, ops: seq<Operation>)
    requires SortedByPos(ops)
    ensures SortedByPos(Insert(op, ops))
  {
    if !(ops == [] || op.pos <= ops[0].pos) {
      InsertSorted(op, ops[1..]);
      InsertMembers(op, ops[1..]);
      var rest := Insert(op, ops[1..]);
      forall i | 0 <= i < |rest|
        ensures ops[0].pos <= rest[i].pos
      {
        assert rest[i] in rest;
      }
    }
  }

  lemma {:induction false} InsertStable(op: Operation, ops: seq<Operation>, p: nat)
    ensures AtPos(Insert(op, ops), p) == (if op.pos == p then [op] else []) + AtPos(ops, p)
  {
    if ops == [] || op.pos <= ops[0].pos {
      assert ([op] + ops)[1..] == ops;
    } else {
      InsertStable(op, ops[1..], p);
      assert ([ops[0]] + Insert(op, ops[1..]))[1..] == Insert(op, ops[1..]);
    }
  }

  /** The sort is a rearrangement into ascending offsets that is stable at each offset. */
  lemma {:induction false} StableSortMeans(ops: seq<Operation>)
    ensures SortedByPos(StableSort(ops))
    ensures forall o :: o in StableSort(ops) <==> o in ops
    ensures forall p: nat :: AtPos(StableSort(ops), p) == AtPos(ops, p)
  {
    if ops != [] {
      StableSortMeans(ops[1..]);
      InsertSorted(ops[0], StableSort(ops[1..]));
      InsertMembers(ops[0], StableSort(ops[1..]));
      forall p: nat
        ensures AtPos(StableSort(ops), p) == AtPos(ops, p)
      {
        InsertStable(ops[0], StableSort(ops[1..]), p);
      }
      assert forall o :: o in ops <==> o == ops[0] || o in ops[1..];
    }
  }

  lemma {:induction false} AtPosFirst(ops: seq<Operation>)
    requires SortedByPos(ops) && ops != []
    ensures AtPos(ops, ops[0].pos) != [] && AtPos(ops, ops[0].pos)[0] == ops[0]
  {
  }

  lemma {:induction false} AtPosMember(ops: seq<Operation>, p: nat)
    ensures forall o :: o in AtPos(ops, p) <==> o in ops && o.pos == p
  {
    if ops != [] {
      AtPosMember(ops[1..], p);
      assert forall o :: o in ops <==> o == ops[0] || o in ops[1..];
    }
  }

  /** Being sorted and the order at each offset determine the list. */
  lemma {:induction false} StableUnique(a: seq<Operation>, b: seq<Operation>)
    requires SortedByPos(a) && SortedByPos(b)
    requires forall p: nat :: AtPos(a, p) == AtPos(b, p)
    ensures a == b
    decreases |a| + |b|
  {
    if a == [] {
      if b != [] {
        AtPosFirst(b);
      }
    } else if b == [] {
      AtPosFirst(a);
    } else {
      AtPosMember(a, b[0].pos);
      AtPosMember(b, a[0].pos);
      AtPosFirst(a);
      AtPosFirst(b);
      assert a[0] in AtPos(b, a[0].pos);
      assert b[0] in AtPos(a, b[0].pos);
      assert a[0].pos == b[0].pos;
      forall p: nat
        ensures AtPos(a[1..], p) == AtPos(b[1..], p)
      {
        assert AtPos(a, p) == AtPos(b, p);
        if p == a[0].pos {
          assert AtPos(a, p)[1..] == AtPos(b, p)[1..];
        }
      }
      StableUnique(a[1..], b[1..]);
    }
  }

  // ----- Resolve -----

  function Produced(ops: seq<Operation>): set<ObjectRef> {
    set op | op in ops && !Removes(op.kind) :: op.ref
  }

  function LastOf(ops: seq<Operation>): map<ObjectRef, OpKind> {
    if ops == [] then map[]
    else LastOf(ops[..|ops| - 1])[ops[|ops| - 1].ref := ops[|ops| - 1].kind]
  }

  /** The lists and maps that two passes over the ordered operations build. */
  method Resolve(operations: seq<Operation>) returns (lc: Lifecycle)
    ensures lc == LifecycleOf(StableSort(operations))
  {
    var ops := StableSort(operations);
    var leftBehind, produced, last := FirstPass(ops);
    var destroyed := SecondPass(ops, last);
    lc := Lifecycle(leftBehind, destroyed, produced, last);
  }

  /** What the file leaves behind, and the last operation on each name. */
  method FirstPass(ops: seq<Operation>)
    returns (leftBehind: seq<ObjectRef>, produced: set<ObjectRef>, last: map<ObjectRef, OpKind>)
    ensures leftBehind == Firsts(ops, Adds()) && produced == Produced(ops) && last == LastOf(ops)
  {
    leftBehind, produced, last := [], {}, map[];
    var seenLeft: set<ObjectRef> := {};
    for i := 0 to |ops|
      invariant last == LastOf(ops[..i])
      invariant produced == Produced(ops[..i])
      invariant leftBehind == Firsts(ops[..i], Adds())
      invariant forall r :: r in seenLeft <==> r in leftBehind
    {
      var op := ops[i];
      PassNext(ops, i, Adds());
      last := last[op.ref := op.kind];
      if op.kind == Create || op.kind == RenameTo {
        produced := produced + {op.ref};
        if op.ref !in seenLeft {
          seenLeft := seenLeft + {op.ref};
          leftBehind := leftBehind + [op.ref];
        }
      }
    }
    assert ops[..|ops|] == ops;
  }

  /** What the file ends without. */
  method SecondPass(ops: seq<Operation>, last: map<ObjectRef, OpKind>) returns (destroyed: seq<ObjectRef>)
    requires last == LastOf(ops)
    ensures destroyed == Firsts(ops, Final(last))
  {
    destroyed := [];
    var seenRemoved: set<ObjectRef> := {};
    for i := 0 to |ops|
      invariant destroyed == Firsts(ops[..i], Final(last))
      invariant forall r :: r in seenRemoved <==> r in destroyed
    {
      var op := ops[i];
      PassNext(ops, i, Final(last));
      LastCovers(ops, op);
      if Removes(op.kind) && last[op.ref] == op.kind && op.ref !in seenRemoved {
        seenRemoved := seenRemoved + {op.ref};
        destroyed := destroyed + [op.ref];
      }
    }
    assert ops[..|ops|] == ops;
  }

  lemma PassNext(ops: seq<Operation>, i: nat, keep: Operation -> bool)
    requires i < |ops|
    ensures LastOf(ops[..i + 1]) == LastOf(ops[..i])[ops[i].ref := ops[i].kind]
    ensures Produced(ops[..i + 1]) ==
            if Removes(ops[i].kind) then Produced(ops[..i]) else Produced(ops[..i]) + {ops[i].ref}
    ensures Firsts(ops[..i + 1], keep) ==
            if keep(ops[i]) && ops[i].ref !in Firsts(ops[..i], keep) then Firsts(ops[..i], keep) + [ops[i].ref]
            else Firsts(ops[..i], keep)
  {
    assert ops[..i + 1][..i] == ops[..i];
    assert ops[..i + 1] == ops[..i] + [ops[i]];
  }

  function Adds(): Operation -> bool {
    (op: Operation) => !Removes(op.kind)
  }

  function Final(last: map<ObjectRef, OpKind>): Operation -> bool {
    (op: Operation) => Removes(op.kind) && op.ref in last && last[op.ref] == op.kind
  }

  /** The names of the operations that qualify, in order, without repeats. */
  function Firsts(ops: seq<Operation>, keep: Operation -> bool): seq<ObjectRef> {
    if ops == [] then []
    else
      var init, op := Firsts(ops[..|ops| - 1], keep), ops[|ops| - 1];
      if keep(op) && op.ref !in init then init + [op.ref] else init
  }

  function LifecycleOf(ops: seq<Operation>): Lifecycle {
    var last := LastOf(ops);
    Lifecycle(Firsts(ops, Adds()),
              Firsts(ops, Final(last)),
              Produced(ops), last)
  }

  ghost predicate NoRepeats(refs: seq<ObjectRef>) {
    forall i, j :: 0 <= i < j < |refs| ==> refs[i] != refs[j]
  }

  lemma {:induction false} FirstsMean(ops: seq<Operation>, keep: Operation -> bool)
    ensures NoRepeats(Firsts(ops, keep))
    ensures forall r :: r in Firsts(ops, keep) <==> exists op :: op in ops && keep(op) && op.ref == r
  {
    if ops != [] {
      var init, last := ops[..|ops| - 1], ops[|ops| - 1];
      FirstsMean(init, keep);
      assert forall op :: op in ops <==> op in init || op == last;
    }
  }

  lemma {:induction false} LastOfMeans(ops: seq<Operation>, ref: ObjectRef)
    ensures var k := LastKind(ops, ref);
            && (k >= 0 <==> ref in LastOf(ops))
            && (k >= 0 ==> LastOf(ops)[ref] == ops[k].kind)
  {
    if ops != [] {
      LastOfMeans(ops[..|ops| - 1], ref);
    }
  }

  lemma LastCovers(ops: seq<Operation>, op: Operation)
    requires op in ops
    ensures op.ref in LastOf(ops)
  {
    LastOfMeans(ops, op.ref);
  }

  /** A name the file must leave in place: it is left behind and is not a staging name. */
  ghost predicate MustExist(lc: Lifecycle, ref: ObjectRef) {
    ref in lc.leftBehind && !lc.Temporary(ref)
  }

  /** What the lists say about one name: it must exist exactly when its last operation
      leaves it, and it is destroyed exactly when its last operation removes it. */
  lemma LifecycleMeans(ops: seq<Operation>, ref: ObjectRef)
    ensures var lc, k := LifecycleOf(ops), LastKind(ops, ref);
            && (MustExist(lc, ref) <==> k >= 0 && !Removes(ops[k].kind))
            && (ref in lc.destroyed <==> k >= 0 && Removes(ops[k].kind))
  {
    var lc, k := LifecycleOf(ops), LastKind(ops, ref);
    LastOfMeans(ops, ref);
    FirstsMean(ops, Adds());
    FirstsMean(ops, Final(lc.last));
    if k >= 0 {
      assert ops[k] in ops;
    }
  }

  /** Resolve agrees with the interpreter: from every starting set of names, running the
      operations in source order ends without what is destroyed and with what is left
      behind and not temporary; and neither list repeats a name. */
  lemma ResolveAgreesWithInterpreter(operations: seq<Operation>, names: set<ObjectRef>)
    ensures var ops := StableSort(operations);
            var lc := LifecycleOf(ops);
            && NoRepeats(lc.leftBehind) && NoRepeats(lc.destroyed)
            && (forall ref :: ref in RunOps(names, ops) <==>
                              (ref in names && ref !in lc.destroyed) || MustExist(lc, ref))
  {
    var ops := StableSort(operations);
    var lc := LifecycleOf(ops);
    FirstsMean(ops, Adds());
    FirstsMean(ops, Final(lc.last));
    forall ref
      ensures ref in RunOps(names, ops) <==> (ref in names && ref !in lc.destroyed) || MustExist(lc, ref)
    {
      RunOpsMeans(names, ops, ref);
      LifecycleMeans(ops, ref);
    }
  }

  /** The extractor's grouping by statement kind does not matter: only the order of
      operations at the same offset does. */
  lemma ResolveIgnoresGrouping(a: seq<Operation>, b: seq<Operation>)
    requires forall p: nat :: AtPos(a, p) == AtPos(b, p)
    ensures LifecycleOf(StableSort(a)) == LifecycleOf(StableSort(b))
  {
    StableSortMeans(a);
    StableSortMeans(b);
    StableUnique(StableSort(a), StableSort(b));
  }
}
