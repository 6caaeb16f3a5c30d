/** Importing another tool's history: the three-way plan, the gates in front of the
    import, and why an import that passes them strands no migration.
    Sources: internal/adopt/adopt.go, cmd/adopt.go. */
module Adopt {
  import opened Wrappers
  import opened Ordered
  import opened Ledger
  import opened Migrations
  import opened Protocol

  datatype Plan = Plan(matched: seq<nat>, pending: seq<nat>, orphan: seq<nat>)

  datatype Refusal = Orphans(count: nat) | Stranded(version: nat, highest: nat)

  function Disk(dir: Dir): set<nat> {
    Elements(Versions(dir.upFiles))
  }

  /** Both version sets, split three ways and ascending. */
  function PlanOf(source: set<nat>, disk: set<nat>): Plan {
    Plan(Sorted(disk * source), Sorted(disk - source), Sorted(source - disk))
  }

  lemma PrefixElements(all: seq<nat>, i: nat)
    requires Ascending(all) && i < |all|
    ensures Elements(all[..i + 1]) == Elements(all[..i]) + {all[i]}
    ensures forall x :: x in Elements(all[..i]) ==> x < all[i]
  {
    assert all[..i + 1] == all[..i] + [all[i]];
  }

  lemma MeetStep(a: set<nat>, s: set<nat>, v: nat)
    ensures (a + {v}) * s == if v in s then a * s + {v} else a * s
  {
  }

  /** The versions of one part among the first `i` of a list. */
  ghost function Part(all: seq<nat>, i: nat, s: set<nat>): seq<nat>
    requires i <= |all|
  {
    Sorted(Elements(all[..i]) * s)
  }

  lemma PartStart(all: seq<nat>, s: set<nat>)
    ensures Part(all, 0, s) == []
  {
    assert Elements(all[..0]) * s == {};
  }

  /** Passing one more version of an ascending list adds it at the end of its part. */
  lemma PartStep(all: seq<nat>, i: nat, s: set<nat>)
    requires Ascending(all) && i < |all|
    ensures Part(all, i + 1, s) == if all[i] in s then Part(all, i, s) + [all[i]] else Part(all, i, s)
  {
    PrefixElements(all, i);
    MeetStep(Elements(all[..i]), s, all[i]);
    if all[i] in s {
      SortedPush(Elements(all[..i]) * s, all[i]);
    }
  }

  lemma PartEnd(all: seq<nat>, s: set<nat>)
    requires forall v :: v in s ==> v in all
    ensures Part(all, |all|, s) == Sorted(s)
  {
    assert all[..|all|] == all;
    assert Elements(all) * s == s;
  }

  /** The three lists partition the union of the two version sets, each ascending. */
  method BuildPlan(sourceRows: seq<nat>, dir: Dir) returns (plan: Plan)
    ensures plan == PlanOf(Elements(sourceRows), Disk(dir))
    ensures Ascending(plan.matched) && Ascending(plan.pending) && Ascending(plan.orphan)
    ensures forall v :: v in plan.matched <==> v in sourceRows && v in Disk(dir)
    ensures forall v :: v in plan.pending <==> v !in sourceRows && v in Disk(dir)
    ensures forall v :: v in plan.orphan <==> v in sourceRows && v !in Disk(dir)
  {
    var diskVersions: set<nat> := {};
    for i := 0 to |dir.upFiles|
      invariant diskVersions == Elements(Versions(dir.upFiles)[..i])
    {
      assert Versions(dir.upFiles)[..i + 1] == Versions(dir.upFiles)[..i] + [dir.upFiles[i].version];
      diskVersions := diskVersions + {dir.upFiles[i].version};
    }
    assert Versions(dir.upFiles)[..|dir.upFiles|] == Versions(dir.upFiles);
    var srcVersions: set<nat> := {};
    for i := 0 to |sourceRows|
      invariant srcVersions == Elements(sourceRows[..i])
    {
      assert sourceRows[..i + 1] == sourceRows[..i] + [sourceRows[i]];
      srcVersions := srcVersions + {sourceRows[i]};
    }
    assert sourceRows[..|sourceRows|] == sourceRows;
    plan := Partition(diskVersions, srcVersions);
  }

  method Partition(disk: set<nat>, source: set<nat>) returns (plan: Plan)
    ensures plan == PlanOf(source, disk)
  {
    var all := Sorted(disk + source);
    ghost var both, onDisk, gone := disk * source, disk - source, source - disk;
    var matched, pending, orphan := [], [], [];
    PartStart(all, both);
    PartStart(all, onDisk);
    PartStart(all, gone);
    for i := 0 to |all|
      invariant matched == Part(all, i, both) && pending == Part(all, i, onDisk) && orphan == Part(all, i, gone)
    {
      var v := all[i];
      PartStep(all, i, both);
      PartStep(all, i, onDisk);
      PartStep(all, i, gone);
      assert v in all;
      if v in disk && v in source {
        matched := matched + [v];
      } else if v in disk {
        pending := pending + [v];
      } else {
        orphan := orphan + [v];
      }
    }
    PartEnd(all, both);
    PartEnd(all, onDisk);
    PartEnd(all, gone);
    plan := Plan(matched, pending, orphan);
  }

  method OrphansBelow(orphans: seq<nat>, version: nat) returns (below: bool)
    ensures below <==> forall v :: v in orphans ==> v < version
  {
    for i := 0 to |orphans|
      invariant forall v :: v in orphans[..i] ==> v < version
    {
      assert orphans[..i + 1] == orphans[..i] + [orphans[i]];
      assert orphans[i] in orphans;
      if orphans[i] >= version {
        return false;
      }
    }
    assert orphans[..|orphans|] == orphans;
    return true;
  }

  ghost predicate OrphansAllowed(plan: Plan, force: bool, allowBefore: nat) {
    plan.orphan == [] || force || (allowBefore != 0 && forall v :: v in plan.orphan ==> v < allowBefore)
  }

  /** No file would be passed over once every matched version is recorded. */
  ghost predicate NoneStranded(plan: Plan) {
    forall p, m :: p in plan.pending && m in plan.matched ==> m < p
  }

  /** The two gates, before any write. A version in both lists would be refused too. */
  method Gate(plan: Plan, force: bool, allowBefore: nat) returns (r: Option<Refusal>)
    requires Ascending(plan.matched)
    ensures r == None <==> OrphansAllowed(plan, force, allowBefore) && NoneStranded(plan)
    ensures r.Some? && r.value.Orphans? ==> r.value.count == |plan.orphan| && !OrphansAllowed(plan, force, allowBefore)
    ensures r.Some? && r.value.Stranded? ==>
              && r.value.version in plan.pending && r.value.highest in plan.matched
              && r.value.version <= r.value.highest
              && forall m :: m in plan.matched ==> m <= r.value.highest
  {
    if |plan.orphan| > 0 && !force {
      var below := false;
      if allowBefore != 0 {
        below := OrphansBelow(plan.orphan, allowBefore);
      }
      if !below {
        return Some(Orphans(|plan.orphan|));
      }
    }
    if |plan.matched| > 0 {
      var highest := plan.matched[|plan.matched| - 1];
      assert highest in plan.matched;
      assert forall m :: m in plan.matched ==> m <= highest;
      for i := 0 to |plan.pending|
        invariant forall p :: p in plan.pending[..i] ==> p > highest
      {
        assert plan.pending[..i + 1] == plan.pending[..i] + [plan.pending[i]];
        assert plan.pending[i] in plan.pending;
        if plan.pending[i] <= highest {
          return Some(Stranded(plan.pending[i], highest));
        }
      }
      assert plan.pending[..|plan.pending|] == plan.pending;
    }
    r := None;
  }

  // ----- What an import leaves -----

  lemma AdoptWritesStep(env: Env, dir: Dir, matched: seq<nat>, v: nat)
    ensures AdoptWrites(env, dir, matched + [v]) ==
            AdoptWrites(env, dir, matched) + [SetStatusAdopted(v, HashOf(env, dir.byVersion, v))]
  {
  }

  /** An import, complete or broken off, records exactly the versions it got to, with
      the hash of their files and the mark of an import. */
  lemma {:induction false} ImportMeans(env: Env, dir: Dir, rows: Rows, matched: seq<nat>)
    ensures var after := PutAll(rows, AdoptWrites(env, dir, matched));
            && after.Keys == rows.Keys + Elements(matched)
            && AppliedSet(after) == AppliedSet(rows) + Elements(matched)
            && (forall v :: v in matched ==> after[v] == Row(Applied, HashOf(env, dir.byVersion, v), ADOPTED))
            && (forall v :: v in rows && v !in matched ==> after[v] == rows[v])
    decreases |matched|
  {
    if matched == [] {
      assert AdoptWrites(env, dir, matched) == [];
    } else {
      var init, v := matched[..|matched| - 1], matched[|matched| - 1];
      assert matched == init + [v];
      ImportMeans(env, dir, rows, init);
      AdoptWritesStep(env, dir, init, v);
      var w := SetStatusAdopted(v, HashOf(env, dir.byVersion, v));
      var before := PutAll(rows, AdoptWrites(env, dir, init));
      PutAllAppends(rows, AdoptWrites(env, dir, init), w);
      PutApplying(before, w);
      assert Elements(matched) == Elements(init) + {v};
    }
  }

  lemma NothingBelow(files: seq<File>, version: nat, applied: set<nat>)
    requires forall f :: f in files && f.version < version ==> f.version in applied
    ensures Below(files, version, applied) == []
  {
    BelowMeans(files, version, applied);
    if Below(files, version, applied) != [] {
      HasFile(Below(files, version, applied));
    }
  }

  lemma HasFile(files: seq<File>)
    requires files != []
    ensures exists f :: f in files
  {
    assert files[0] in files;
  }

  lemma InDisk(dir: Dir, f: File)
    requires f in dir.upFiles
    ensures f.version in Disk(dir)
  {
    var i :| 0 <= i < |dir.upFiles| && dir.upFiles[i] == f;
    assert Versions(dir.upFiles)[i] == f.version;
  }

  lemma PrefixIgnoresNothing(dir: Dir, plan: Plan, k: nat, st: State, applied: set<nat>)
    requires Ascending(plan.matched) && k <= |plan.matched| && NoneStranded(plan)
    requires forall v :: v in Disk(dir) ==> v in plan.matched || v in plan.pending
    requires applied == Elements(plan.matched[..k])
    requires st.hasVersion ==> st.version in applied
    ensures dir.Ignored(st, applied) == []
  {
    if st.hasVersion {
      forall f | f in dir.upFiles && f.version < st.version
        ensures f.version in applied
      {
        InDisk(dir, f);
        assert st.version in plan.matched[..k] && st.version in plan.matched;
        assert f.version in plan.matched;
        BelowLastInPrefix(plan.matched, k, f.version, st.version);
      }
      NothingBelow(dir.upFiles, st.version, applied);
    }
  }

  /** At every point of an import onto a ledger with nothing applied, complete or broken
      off, no file is ignored, the pending files are the ones not yet recorded, and no
      orphan has a row that was not there before. */
  lemma ImportNeverIgnores(env: Env, rows: Rows, dir: Dir, source: set<nat>, k: nat)
    requires AppliedSet(rows) == {} && NoneStranded(PlanOf(source, Disk(dir)))
    requires k <= |PlanOf(source, Disk(dir)).matched|
    ensures var plan := PlanOf(source, Disk(dir));
            var after := PutAll(rows, AdoptWrites(env, dir, plan.matched[..k]));
            && dir.Ignored(QueryState(after), AppliedSet(after)) == []
            && (forall f :: f in dir.Pending(QueryState(after)) <==>
                  f in dir.upFiles && f.version !in plan.matched[..k])
            && (forall v :: v in plan.orphan ==> (v in after <==> v in rows))
  {
    var plan := PlanOf(source, Disk(dir));
    var part := plan.matched[..k];
    var after := PutAll(rows, AdoptWrites(env, dir, part));
    ImportMeans(env, dir, rows, part);
    assert AppliedSet(after) == Elements(part);
    PrefixIgnoresNothing(dir, plan, k, QueryState(after), AppliedSet(after));
    forall f | f in dir.upFiles
      ensures f in dir.Pending(QueryState(after)) <==> f.version !in part
    {
      NothingIgnoredIsSplit(dir, after, f);
    }
    AfterMeans(dir.upFiles, QueryState(after).version, QueryState(after).hasVersion);
    forall v | v in plan.orphan
      ensures v !in part
    {
      assert v !in plan.matched;
    }
  }

  /** With no file ignored, a file is pending or applied. */
  lemma NothingIgnoredIsSplit(dir: Dir, rows: Rows, f: File)
    requires f in dir.upFiles && dir.Ignored(QueryState(rows), AppliedSet(rows)) == []
    ensures f in dir.Pending(QueryState(rows)) <==> f.version !in AppliedSet(rows)
  {
    UpFilesSplit(dir, rows, f);
  }

  lemma BelowLastInPrefix(s: seq<nat>, k: nat, v: nat, top: nat)
    requires Ascending(s) && k <= |s| && v in s && top in s[..k] && v < top
    ensures v in s[..k]
  {
    var i :| 0 <= i < |s| && s[i] == v;
    var j :| 0 <= j < k && s[j] == top;
    assert i < j;
    assert s[..k][i] == v;
  }

  lemma {:induction false} AfterKeepsOrder(files: seq<File>, version: nat, hasVersion: bool)
    requires AscendingFiles(files)
    ensures Ascending(Versions(After(files, version, hasVersion)))
  {
    var k := AfterIsSuffix(files, version, hasVersion);
  }

  /** An import that passes the gates onto a ledger that holds no other applied version —
      an empty one, or one an earlier attempt left behind — leaves no file ignored and
      exactly the plan's pending files pending, and it records no orphan. */
  lemma ImportStrandsNothing(env: Env, rows: Rows, dir: Dir, source: set<nat>)
    requires dir.Valid() && NoneStranded(PlanOf(source, Disk(dir)))
    requires AppliedSet(rows) <= Elements(PlanOf(source, Disk(dir)).matched)
    ensures var plan := PlanOf(source, Disk(dir));
            var after := PutAll(rows, AdoptWrites(env, dir, plan.matched));
            && dir.Ignored(QueryState(after), AppliedSet(after)) == []
            && Versions(dir.Pending(QueryState(after))) == plan.pending
            && AppliedVersions(after) == plan.matched
            && (forall v :: v in plan.orphan ==> (v in after <==> v in rows))
  {
    var plan := PlanOf(source, Disk(dir));
    var after := PutAll(rows, AdoptWrites(env, dir, plan.matched));
    var st := QueryState(after);
    ImportMeans(env, dir, rows, plan.matched);
    assert AppliedSet(after) == Elements(plan.matched);
    SortedUnique(AppliedVersions(after), plan.matched);
    if st.hasVersion {
      forall f | f in dir.upFiles && f.version < st.version
        ensures f.version in AppliedSet(after)
      {
        InDisk(dir, f);
        assert f.version in plan.pending || f.version in plan.matched;
      }
      NothingBelow(dir.upFiles, st.version, AppliedSet(after));
    }
    PendingVersions(dir, plan, st);
  }

  lemma PendingVersions(dir: Dir, plan: Plan, st: State)
    requires AscendingFiles(dir.upFiles) && Ascending(plan.pending) && NoneStranded(plan)
    requires forall v :: v in Disk(dir) <==> v in plan.matched || v in plan.pending
    requires forall v :: v in plan.matched ==> v !in plan.pending
    requires st.hasVersion <==> plan.matched != []
    requires st.hasVersion ==> st.version in plan.matched && forall v :: v in plan.matched ==> v <= st.version
    ensures Versions(dir.Pending(st)) == plan.pending
  {
    var pending := dir.Pending(st);
    AfterMeans(dir.upFiles, st.version, st.hasVersion);
    AfterKeepsOrder(dir.upFiles, st.version, st.hasVersion);
    forall v
      ensures v in Versions(pending) <==> v in plan.pending
    {
      if v in Versions(pending) {
        var i :| 0 <= i < |pending| && Versions(pending)[i] == v;
        assert pending[i] in pending;
        InDisk(dir, pending[i]);
      }
      if v in plan.pending {
        assert v in Disk(dir);
        var i :| 0 <= i < |dir.upFiles| && Versions(dir.upFiles)[i] == v;
        assert dir.upFiles[i] in dir.upFiles && dir.upFiles[i] in pending;
        var j :| 0 <= j < |pending| && pending[j] == dir.upFiles[i];
        assert Versions(pending)[j] == v;
      }
    }
    SortedUnique(Versions(pending), plan.pending);
  }

  /** The second gate is needed: past a plan that fails it, a pending file below a matched
      version is ignored from then on. */
  lemma StrandedIsIgnored(env: Env, rows: Rows, dir: Dir, source: set<nat>, p: nat, m: nat)
    requires p in PlanOf(source, Disk(dir)).pending && m in PlanOf(source, Disk(dir)).matched && p < m
    requires p !in AppliedSet(rows)
    ensures var after := PutAll(rows, AdoptWrites(env, dir, PlanOf(source, Disk(dir)).matched));
            exists f :: f in dir.Ignored(QueryState(after), AppliedSet(after)) && f.version == p
  {
    var plan := PlanOf(source, Disk(dir));
    var after := PutAll(rows, AdoptWrites(env, dir, plan.matched));
    ImportMeans(env, dir, rows, plan.matched);
    assert m in AppliedSet(after) && p !in AppliedSet(after);
    assert p in Disk(dir);
    var i :| 0 <= i < |dir.upFiles| && Versions(dir.upFiles)[i] == p;
    BelowMeans(dir.upFiles, QueryState(after).version, AppliedSet(after));
    assert dir.upFiles[i] in dir.Ignored(QueryState(after), AppliedSet(after));
  }
}
