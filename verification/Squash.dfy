/** What a squash does to the migrations directory and to the ledger, and why no
    migration is lost by it. Sources: internal/squash/plan.go, internal/squash/apply.go. */
module Squash {
  import opened Wrappers
  import opened Ordered
  import opened Ledger
  import opened Migrations

  /** The up files at or below `upto`: the ones the baseline replaces. */
  function Collapsed(files: seq<File>, upto: nat): seq<File> {
    if files == [] then []
    else if files[0].version <= upto then [files[0]] + Collapsed(files[1..], upto)
    else Collapsed(files[1..], upto)
  }

  /** The directory after the baseline is written and the collapsed files, with the
      down files that belong to them, are archived. */
  function SquashedDir(dir: Dir, upto: nat, baseline: File): Dir {
    var gone := Gone(dir.upFiles, upto);
    Dir([baseline] + After(dir.upFiles, upto, true),
        (map v | v in dir.byVersion && v !in gone :: dir.byVersion[v])[0 := baseline],
        map v | v in dir.byVersionDown && v !in gone :: dir.byVersionDown[v])
  }

  function Gone(files: seq<File>, upto: nat): set<nat> {
    set f | f in Collapsed(files, upto) :: f.version
  }

  /** One status write a collapsed version; version 0 belongs to the baseline. */
  function Reverts(files: seq<File>): (ws: seq<Write>)
    ensures forall w :: w in ws ==> w.SetStatus? && w.status == Reverted
  {
    if files == [] then []
    else if files[0].version == 0 then Reverts(files[1..])
    else [SetStatus(files[0].version, Reverted)] + Reverts(files[1..])
  }

  /** The row writes of a re-stamp, in order. */
  function RestampWrites(dir: Dir, upto: nat, baselineHash: string): seq<Write> {
    Reverts(Collapsed(dir.upFiles, upto)) + [SetStatusWithHash(0, Applied, baselineHash)]
  }

  lemma {:induction false} CollapsedMeans(files: seq<File>, upto: nat)
    ensures forall f :: f in Collapsed(files, upto) <==> f in files && f.version <= upto
  {
    if files != [] {
      CollapsedMeans(files[1..], upto);
      assert forall f :: f in files <==> f == files[0] || f in files[1..];
    }
  }

  /** An ascending directory is its collapsed files followed by the others. */
  lemma {:induction false} CollapsedIsPrefix(files: seq<File>, upto: nat)
    requires AscendingFiles(files)
    ensures files == Collapsed(files, upto) + After(files, upto, true)
  {
    if files != [] {
      CollapsedIsPrefix(files[1..], upto);
      if files[0].version > upto {
        CollapsedMeans(files[1..], upto);
      }
    }
  }

  ghost predicate Covers(files: seq<File>, v: nat) {
    v != 0 && exists f :: f in files && f.version == v
  }

  /** A row after its version is reverted in the ledger: everything but the status stays. */
  function RevertedRow(rows: Rows, v: nat): Row {
    if v in rows then rows[v].(status := Reverted) else Row(Reverted, "", "")
  }

  /** The reverts touch exactly the rows of their files, and of those only the status. */
  lemma {:induction false} RevertsMean(rows: Rows, files: seq<File>)
    ensures var after := PutAll(rows, Reverts(files));
            forall v :: && (v in after <==> v in rows || Covers(files, v))
                        && (v in rows && !Covers(files, v) ==> after[v] == rows[v])
                        && (Covers(files, v) ==> after[v] == RevertedRow(rows, v))
    decreases |files|
  {
    if files != [] {
      assert files == [files[0]] + files[1..];
      assert forall v :: Covers(files, v) <==> Covers(files[1..], v) || (v != 0 && files[0].version == v);
      if files[0].version == 0 {
        RevertsMean(rows, files[1..]);
      } else {
        RevertsMean(Put(rows, SetStatus(files[0].version, Reverted)), files[1..]);
        assert Reverts(files)[1..] == Reverts(files[1..]);
      }
    }
  }

  /** The ledger after a re-stamp, row by row: the baseline's row is new, a collapsed
      version's row keeps its hash and source, every other row is as it was. */
  lemma RestampMeans(rows: Rows, dir: Dir, upto: nat, hash: string)
    ensures var after := PutAll(rows, RestampWrites(dir, upto, hash));
            var files := Collapsed(dir.upFiles, upto);
            forall v :: && (v in after <==> v in rows || v == 0 || Covers(files, v))
                        && (v == 0 ==> after[v] == Row(Applied, hash, ""))
                        && (Covers(files, v) ==> after[v] == RevertedRow(rows, v))
                        && (v != 0 && v in rows && !Covers(files, v) ==> after[v] == rows[v])
  {
    var files := Collapsed(dir.upFiles, upto);
    RevertsMean(rows, files);
    PutAllAppends(rows, Reverts(files), SetStatusWithHash(0, Applied, hash));
  }

  lemma GoneMeans(dir: Dir, upto: nat)
    requires dir.Valid()
    ensures forall v :: v in dir.byVersion ==> (v in Gone(dir.upFiles, upto) <==> v <= upto)
    ensures forall v :: v in Gone(dir.upFiles, upto) ==> v in dir.byVersion
  {
    CollapsedMeans(dir.upFiles, upto);
    forall v | v in dir.byVersion && v <= upto
      ensures v in Gone(dir.upFiles, upto)
    {
      assert dir.byVersion[v] in Collapsed(dir.upFiles, upto);
    }
  }

  /** The squashed directory indexes the baseline and the untouched files above `upto`. */
  lemma SquashedIndex(dir: Dir, upto: nat, baseline: File)
    requires dir.Valid() && baseline.version == 0
    ensures var index := SquashedDir(dir, upto, baseline).byVersion;
            && (forall v :: v in index <==> v == 0 || (v in dir.byVersion && v > upto))
            && (forall v :: v in index && v != 0 ==> index[v] == dir.byVersion[v])
            && index[0] == baseline
  {
    GoneMeans(dir, upto);
  }

  lemma SquashedFiles(files: seq<File>, upto: nat, baseline: File)
    requires AscendingFiles(files) && baseline.version == 0
    ensures var squashed := [baseline] + After(files, upto, true);
            && AscendingFiles(squashed)
            && (forall f :: f in squashed <==> f == baseline || (f in files && f.version > upto))
  {
    var above := After(files, upto, true);
    AfterMeans(files, upto, true);
    var k := AfterIsSuffix(files, upto, true);
    Pushed(baseline, above);
  }

  lemma Pushed(first: File, rest: seq<File>)
    requires AscendingFiles(rest) && forall f :: f in rest ==> first.version < f.version
    ensures AscendingFiles([first] + rest)
    ensures forall f :: f in [first] + rest <==> f == first || f in rest
  {
  }

  lemma SquashedDirValid(dir: Dir, upto: nat, baseline: File)
    requires dir.Valid() && baseline.version == 0
    ensures SquashedDir(dir, upto, baseline).Valid()
  {
    var d := SquashedDir(dir, upto, baseline);
    SquashedFiles(dir.upFiles, upto, baseline);
    SquashedIndex(dir, upto, baseline);
    forall v | v in d.byVersion
      ensures d.byVersion[v] in d.upFiles && d.byVersion[v].version == v
    {
    }
    forall f | f in d.upFiles
      ensures f.version in d.byVersion && d.byVersion[f.version] == f
    {
    }
  }

  /** A completed squash of a target at or past `upto` leaves the pending files exactly
      as they were, and its ignored files are exactly the old ignored files above
      `upto` — also when the cursor is `upto` itself and the watermark falls. */
  lemma SquashKeepsPendingAndIgnored(rows: Rows, dir: Dir, upto: nat, baseline: File, hash: string)
    requires dir.Valid() && baseline.version == 0
    requires QueryState(rows).hasVersion && QueryState(rows).version >= upto
    ensures var after := PutAll(rows, RestampWrites(dir, upto, hash));
            var dir' := SquashedDir(dir, upto, baseline);
            var st, st' := QueryState(rows), QueryState(after);
            && dir'.Pending(st') == dir.Pending(st)
            && dir'.Ignored(st', AppliedSet(after)) == After(dir.Ignored(st, AppliedSet(rows)), upto, true)
  {
    var after := PutAll(rows, RestampWrites(dir, upto, hash));
    var dir' := SquashedDir(dir, upto, baseline);
    var st, st' := QueryState(rows), QueryState(after);
    RestampMeans(rows, dir, upto, hash);
    CollapsedMeans(dir.upFiles, upto);
    assert 0 in AppliedSet(after);
    assert forall v :: v > upto ==> (v in AppliedSet(after) <==> v in AppliedSet(rows)) by {
      forall v | v > upto
        ensures v in AppliedSet(after) <==> v in AppliedSet(rows)
      {
        assert !Covers(Collapsed(dir.upFiles, upto), v);
      }
    }
    assert st'.version <= st.version;
    assert st.version > upto ==> st'.version == st.version;
    SameAfter(dir.upFiles, upto, st.version, st'.version);
    SameBelow(dir.upFiles, upto, st.version, st'.version, AppliedSet(rows), AppliedSet(after));
  }

  /** Above `upto`, both watermarks leave the same files pending. */
  lemma {:induction false} SameAfter(files: seq<File>, upto: nat, w: nat, w': nat)
    requires w >= upto && w' <= w && (w > upto ==> w' == w)
    ensures After(After(files, upto, true), w', true) == After(files, w, true)
  {
    if files != [] {
      SameAfter(files[1..], upto, w, w');
      assert files[0].version > upto ==> After(files, upto, true)[1..] == After(files[1..], upto, true);
    }
  }

  lemma {:induction false} SameBelow(files: seq<File>, upto: nat, w: nat, w': nat, applied: set<nat>,
                                     applied': set<nat>)
    requires w >= upto && w' <= w && (w > upto ==> w' == w)
    requires forall v :: v > upto ==> (v in applied <==> v in applied')
    ensures Below(After(files, upto, true), w', applied') == After(Below(files, w, applied), upto, true)
  {
    if files != [] {
      SameBelow(files[1..], upto, w, w', applied, applied');
      assert files[0].version > upto ==> After(files, upto, true)[1..] == After(files[1..], upto, true);
      assert files[0].version < w && files[0].version !in applied ==>
          Below(files, w, applied)[1..] == Below(files[1..], w, applied);
    }
  }
}
