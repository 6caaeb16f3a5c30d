/** Why a verified baseline may stand for the migrations it replaces, and the command
    that puts it there. Sources: internal/squash/plan.go, internal/squash/apply.go. */
module Baseline {
  import opened Wrappers
  import opened Ordered
  import opened Ledger
  import opened Migrations
  import opened Protocol
  import Squash
  import Hashes
  import Replay
  import Runs
  import Comparison
  import Diff

  /** Reading a schema's tables, their columns, indexes and constraints. */
  type Introspect = Schema -> seq<Diff.Table>

  /** The comparison finds no difference: what is seen of both schemas has one shape. */
  ghost predicate Alike(see: Introspect, a: Schema, b: Schema) {
    Diff.Shapes(see(a)) == Diff.Shapes(see(b))
  }

  /** SQL cannot tell apart what the comparison cannot. */
  ghost predicate Respects(env: Env, see: Introspect) {
    forall sql, a, b :: Alike(see, a, b) ==> Alike(see, env.exec(sql, a), env.exec(sql, b))
  }

  /** What a plan checks before it may be applied: the replay of the collapsed files and
      the baseline alone, each on a database of its own, compare equal. */
  ghost predicate Verified(env: Env, see: Introspect, dir: Dir, upto: nat, baseline: File) {
    Alike(see, Replay.Replayed(env, dir.byVersion, Versions(Squash.Collapsed(dir.upFiles, upto))),
          env.exec(baseline.sql, env.empty))
  }

  // ----- Replaying a tail on schemas that compare equal -----

  lemma AppendLast(vs: seq<nat>, above: seq<nat>)
    requires above != []
    ensures vs + above == (vs + above[..|above| - 1]) + [above[|above| - 1]]
  {
  }

  lemma {:induction false} TailKeepsAlike(env: Env, see: Introspect, index: map<nat, File>, index': map<nat, File>,
                                          vs: seq<nat>, vs': seq<nat>, above: seq<nat>)
    requires Respects(env, see)
    requires Alike(see, Replay.Replayed(env, index, vs), Replay.Replayed(env, index', vs'))
    requires forall v :: v in above ==> (v in index <==> v in index') && (v in index ==> index[v] == index'[v])
    ensures Alike(see, Replay.Replayed(env, index, vs + above), Replay.Replayed(env, index', vs' + above))
    decreases |above|
  {
    if above == [] {
      assert vs + above == vs && vs' + above == vs';
    } else {
      var init, v := above[..|above| - 1], above[|above| - 1];
      TailKeepsAlike(env, see, index, index', vs, vs', init);
      AppendLast(vs, above);
      AppendLast(vs', above);
      Replay.ReplayedNext(env, index, vs + init, v);
      Replay.ReplayedNext(env, index', vs' + init, v);
    }
  }

  /** The baseline followed by versions above `upto` stands for the collapsed files
      followed by the same versions. */
  lemma BaselineStandsFor(env: Env, see: Introspect, dir: Dir, upto: nat, baseline: File, above: seq<nat>)
    requires dir.Valid() && baseline.version == 0 && Respects(env, see) && Verified(env, see, dir, upto, baseline)
    requires forall v :: v in above ==> v > upto
    ensures var dir' := Squash.SquashedDir(dir, upto, baseline);
            Alike(see, Replay.Replayed(env, dir.byVersion, Versions(Squash.Collapsed(dir.upFiles, upto)) + above),
                  Replay.Replayed(env, dir'.byVersion, [0] + above))
  {
    var dir' := Squash.SquashedDir(dir, upto, baseline);
    Squash.SquashedIndex(dir, upto, baseline);
    assert [0][..0] == [];
    assert Replay.Replayed(env, dir'.byVersion, [0]) == env.exec(baseline.sql, env.empty);
    TailKeepsAlike(env, see, dir.byVersion, dir'.byVersion, Versions(Squash.Collapsed(dir.upFiles, upto)), [0], above);
  }

  /** The schema a complete `up` gives an untouched database. */
  function FreshUp(env: Env, dir: Dir): Schema {
    Runs.MigrateAll(env, dir, Forward, Runs.Fresh(env), Runs.UpPlan(dir, Runs.Fresh(env), 0)).schema
  }

  lemma FreshUpReplays(env: Env, dir: Dir)
    requires dir.Valid()
    ensures FreshUp(env, dir) == Replay.Replayed(env, dir.byVersion, Versions(dir.upFiles))
  {
    Runs.FreshPending(env, dir);
    Runs.FreshRunIsReplay(env, dir, dir.upFiles);
  }

  lemma VersionsSplit(a: seq<File>, b: seq<File>)
    ensures Versions(a + b) == Versions(a) + Versions(b)
  {
  }

  lemma SquashedVersions(dir: Dir, upto: nat, baseline: File) returns (above: seq<nat>)
    requires AscendingFiles(dir.upFiles) && baseline.version == 0
    ensures Versions(dir.upFiles) == Versions(Squash.Collapsed(dir.upFiles, upto)) + above
    ensures Versions(Squash.SquashedDir(dir, upto, baseline).upFiles) == [0] + above
    ensures forall v :: v in above ==> v > upto
  {
    var collapsed, files := Squash.Collapsed(dir.upFiles, upto), After(dir.upFiles, upto, true);
    above := Versions(files);
    Squash.CollapsedIsPrefix(dir.upFiles, upto);
    VersionsSplit(collapsed, files);
    VersionsSplit([baseline], files);
    assert Versions([baseline]) == [0];
    AfterMeans(dir.upFiles, upto, true);
    forall v | v in above
      ensures v > upto
    {
      var i :| 0 <= i < |files| && above[i] == v;
      assert files[i] in files;
    }
  }

  /** A verified squash preserves meaning: `up` on an untouched database gives a schema
      that compares equal whether it runs the original directory or the squashed one. */
  lemma SquashPreservesMeaning(env: Env, see: Introspect, dir: Dir, upto: nat, baseline: File)
    requires dir.Valid() && baseline.version == 0 && Respects(env, see) && Verified(env, see, dir, upto, baseline)
    ensures Alike(see, FreshUp(env, dir), FreshUp(env, Squash.SquashedDir(dir, upto, baseline)))
  {
    var above := SquashedVersions(dir, upto, baseline);
    BaselineStandsFor(env, see, dir, upto, baseline, above);
    Squash.SquashedDirValid(dir, upto, baseline);
    FreshUpReplays(env, dir);
    FreshUpReplays(env, Squash.SquashedDir(dir, upto, baseline));
  }

  // ----- A target that was already migrated -----

  lemma JoinAscends(low: seq<nat>, high: seq<nat>)
    requires Ascending(low) && Ascending(high)
    requires forall i, j :: 0 <= i < |low| && 0 <= j < |high| ==> low[i] < high[j]
    ensures Ascending(low + high)
  {
  }

  lemma SortedSplits(s: set<nat>, low: seq<nat>, high: set<nat>)
    requires Ascending(low) && (forall x :: x in s <==> x in low || x in high)
    requires forall a, b :: a in low && b in high ==> a < b
    ensures Sorted(s) == low + Sorted(high)
  {
    forall i, j | 0 <= i < |low| && 0 <= j < |Sorted(high)|
      ensures low[i] < Sorted(high)[j]
    {
      assert low[i] in low && Sorted(high)[j] in Sorted(high);
    }
    JoinAscends(low, Sorted(high));
    SortedUnique(Sorted(s), low + Sorted(high));
  }

  ghost function AppliedAbove(rows: Rows, upto: nat): set<nat> {
    set v | v in AppliedSet(rows) && v > upto
  }

  /** The applied versions after a re-stamp: the baseline, and the old ones above `upto`. */
  lemma RestampedVersions(rows: Rows, dir: Dir, upto: nat, hash: string)
    requires dir.Valid() && AppliedSet(rows) <= dir.byVersion.Keys
    ensures AppliedVersions(PutAll(rows, Squash.RestampWrites(dir, upto, hash))) ==
            [0] + Sorted(AppliedAbove(rows, upto))
  {
    var after := PutAll(rows, Squash.RestampWrites(dir, upto, hash));
    var files := Squash.Collapsed(dir.upFiles, upto);
    Squash.RestampMeans(rows, dir, upto, hash);
    Squash.CollapsedMeans(dir.upFiles, upto);
    forall v
      ensures v in AppliedSet(after) <==> v == 0 || v in AppliedAbove(rows, upto)
    {
      if v != 0 && v in AppliedSet(rows) && v <= upto {
        assert dir.byVersion[v] in files;
        assert Squash.Covers(files, v);
      }
    }
    SortedSplits(AppliedSet(after), [0], AppliedAbove(rows, upto));
  }

  /** What the re-stamped ledger claims: every collapsed file, whether or not the target
      had applied it, and then the versions applied above `upto`. */
  lemma RestampClaims(env: Env, see: Introspect, rows: Rows, dir: Dir, upto: nat, baseline: File, hash: string)
    requires dir.Valid() && baseline.version == 0 && Respects(env, see) && Verified(env, see, dir, upto, baseline)
    requires AppliedSet(rows) <= dir.byVersion.Keys
    ensures var after := PutAll(rows, Squash.RestampWrites(dir, upto, hash));
            Alike(see,
                  Replay.Replayed(env, dir.byVersion,
                                  Versions(Squash.Collapsed(dir.upFiles, upto)) + Sorted(AppliedAbove(rows, upto))),
                  Replay.Replayed(env, Squash.SquashedDir(dir, upto, baseline).byVersion, AppliedVersions(after)))
  {
    RestampedVersions(rows, dir, upto, hash);
    BaselineStandsFor(env, see, dir, upto, baseline, Sorted(AppliedAbove(rows, upto)));
  }

  /** When no collapsed file was passed over, a target whose schema was the replay of its
      ledger is, up to the comparison, the replay of its re-stamped ledger over the
      squashed directory. */
  lemma RestampKeepsReplay(env: Env, see: Introspect, db: Runs.Db, dir: Dir, upto: nat, baseline: File, hash: string)
    requires dir.Valid() && baseline.version == 0 && Respects(env, see) && Verified(env, see, dir, upto, baseline)
    requires AppliedSet(db.rows) <= dir.byVersion.Keys
    requires forall f :: f in Squash.Collapsed(dir.upFiles, upto) ==> f.version in AppliedSet(db.rows)
    requires db.schema == Replay.Replayed(env, dir.byVersion, AppliedVersions(db.rows))
    ensures var after := PutAll(db.rows, Squash.RestampWrites(dir, upto, hash));
            Alike(see, db.schema,
                  Replay.Replayed(env, Squash.SquashedDir(dir, upto, baseline).byVersion, AppliedVersions(after)))
  {
    var files := Squash.Collapsed(dir.upFiles, upto);
    RestampClaims(env, see, db.rows, dir, upto, baseline, hash);
    Squash.CollapsedIsPrefix(dir.upFiles, upto);
    Squash.CollapsedMeans(dir.upFiles, upto);
    forall v
      ensures v in AppliedSet(db.rows) <==> v in Versions(files) || v in AppliedAbove(db.rows, upto)
    {
      if v in AppliedSet(db.rows) && v <= upto {
        assert dir.byVersion[v] in files;
        var i :| 0 <= i < |files| && files[i] == dir.byVersion[v];
        assert Versions(files)[i] == v;
      }
      if v in Versions(files) {
        var i :| 0 <= i < |files| && Versions(files)[i] == v;
        assert files[i] in files;
      }
    }
    assert Ascending(Versions(files)) by {
      assert forall i :: 0 <= i < |files| ==> files[i] == dir.upFiles[i];
    }
    assert forall a :: a in Versions(files) ==> a <= upto by {
      forall a | a in Versions(files)
        ensures a <= upto
      {
        var i :| 0 <= i < |files| && Versions(files)[i] == a;
        assert files[i] in files;
      }
    }
    SortedSplits(AppliedSet(db.rows), Versions(files), AppliedAbove(db.rows, upto));
  }

  // ----- When the re-stamped ledger tells the truth -----

  /** The claim of a re-stamp: what the target's ledger said before and what it says after
      are replays that compare equal. */
  ghost predicate RestampHolds(env: Env, see: Introspect, rows: Rows, dir: Dir, upto: nat, baseline: File,
                               hash: string) {
    Alike(see, Replay.Replayed(env, dir.byVersion, AppliedVersions(rows)),
          Replay.Replayed(env, Squash.SquashedDir(dir, upto, baseline).byVersion,
                          AppliedVersions(PutAll(rows, Squash.RestampWrites(dir, upto, hash)))))
  }

  /** A plan that passed its check. */
  ghost predicate Planned(env: Env, see: Introspect, dir: Dir, upto: nat, baseline: File) {
    dir.Valid() && baseline.version == 0 && Respects(env, see) && Verified(env, see, dir, upto, baseline)
  }

  /** The claim holds for every verified plan over files with these versions. */
  ghost predicate RestampAlwaysHolds(rows: Rows, versions: seq<nat>, upto: nat, hash: string) {
    forall env: Env, see: Introspect, dir: Dir, baseline: File ::
      Planned(env, see, dir, upto, baseline) && Versions(dir.upFiles) == versions
      ==> RestampHolds(env, see, rows, dir, upto, baseline, hash)
  }

  lemma IndexedVersions(dir: Dir)
    requires dir.UpIndexed()
    ensures forall v :: v in dir.byVersion <==> v in Versions(dir.upFiles)
  {
    forall v | v in Versions(dir.upFiles)
      ensures v in dir.byVersion
    {
      var i :| 0 <= i < |dir.upFiles| && Versions(dir.upFiles)[i] == v;
      assert dir.upFiles[i] in dir.upFiles;
    }
    forall v | v in dir.byVersion
      ensures v in Versions(dir.upFiles)
    {
      var i :| 0 <= i < |dir.upFiles| && dir.upFiles[i] == dir.byVersion[v];
      assert Versions(dir.upFiles)[i] == v;
    }
  }

  lemma RestampHoldsIfNonePassedOver(env: Env, see: Introspect, rows: Rows, dir: Dir, upto: nat, baseline: File,
                                     hash: string)
    requires Planned(env, see, dir, upto, baseline)
    requires AppliedSet(rows) <= Elements(Versions(dir.upFiles))
    requires forall v :: v in Versions(dir.upFiles) && v <= upto ==> v in AppliedSet(rows)
    ensures RestampHolds(env, see, rows, dir, upto, baseline, hash)
  {
    IndexedVersions(dir);
    Squash.CollapsedMeans(dir.upFiles, upto);
    var db := Runs.Db(rows, Replay.Replayed(env, dir.byVersion, AppliedVersions(rows)));
    RestampKeepsReplay(env, see, db, dir, upto, baseline, hash);
  }

  // An environment in which one file matters: its SQL builds `b`, all other SQL does nothing.

  const MATTERS := "x"

  function OneMatters(a: Schema, b: Schema): Env {
    Env((sql: string, s: Schema) => if sql == MATTERS then b else s, (text: string) => "", a)
  }

  function Tell(a: Schema): Introspect {
    (s: Schema) => if s == a then [] else [Diff.Table("", "t", "", [], [], [], [])]
  }

  lemma Told(a: Schema, b: Schema)
    requires a != b
    ensures !Alike(Tell(a), a, b) && Respects(OneMatters(a, b), Tell(a))
  {
    var t := Diff.Table("", "t", "", [], [], [], []);
    Comparison.ShapesStep([], t);
    assert [] + [t] == [t];
    assert t.Ident() in Diff.Shapes(Tell(a)(b)) && t.Ident() !in Diff.Shapes(Tell(a)(a));
  }

  function Reworded(f: File, v: nat): File {
    File(f.version, f.name, if f.version == v then MATTERS else "")
  }

  /** The files of those versions, of which `v` is the one that matters. */
  function FilesFor(versions: seq<nat>, v: nat): seq<File> {
    seq(|versions|, i requires 0 <= i < |versions| => Reworded(File(versions[i], "", ""), v))
  }

  function DirFor(versions: seq<nat>, v: nat): Dir {
    Dir(FilesFor(versions, v), map u | u in versions :: Reworded(File(u, "", ""), v), map[])
  }

  lemma DirForValid(versions: seq<nat>, v: nat)
    requires Ascending(versions)
    ensures DirFor(versions, v).Valid() && Versions(DirFor(versions, v).upFiles) == versions
  {
    var dir := DirFor(versions, v);
    forall f | f in dir.upFiles
      ensures f.version in dir.byVersion && dir.byVersion[f.version] == f
    {
      var i :| 0 <= i < |versions| && dir.upFiles[i] == f;
      assert versions[i] in versions;
    }
    forall u | u in dir.byVersion
      ensures dir.byVersion[u] in dir.upFiles && dir.byVersion[u].version == u
    {
      var i :| 0 <= i < |versions| && versions[i] == u;
      assert dir.upFiles[i] == dir.byVersion[u];
    }
  }

  /** A replay builds `b` exactly when it runs the file that matters. */
  lemma {:induction false} ReplayOfOne(a: Schema, b: Schema, index: map<nat, File>, vs: seq<nat>, v: nat)
    requires forall u :: u in vs && u in index ==> (index[u].sql == MATTERS <==> u == v)
    ensures Replay.Replayed(OneMatters(a, b), index, vs) == if v in vs && v in index then b else a
    decreases |vs|
  {
    if vs != [] {
      var init, last := vs[..|vs| - 1], vs[|vs| - 1];
      assert vs == init + [last];
      ReplayOfOne(a, b, index, init, v);
    }
  }

  /** A collapsed file that the target passed over breaks the claim of the re-stamp. */
  lemma PassedOverBreaksRestamp(rows: Rows, versions: seq<nat>, upto: nat, v: nat, hash: string, a: Schema, b: Schema)
    returns (env: Env, see: Introspect, dir: Dir, baseline: File)
    requires Ascending(versions) && AppliedSet(rows) <= Elements(versions) && a != b
    requires v in versions && v <= upto && v !in AppliedSet(rows)
    ensures Planned(env, see, dir, upto, baseline) && Versions(dir.upFiles) == versions
    ensures !RestampHolds(env, see, rows, dir, upto, baseline, hash)
  {
    env, see, dir, baseline := OneMatters(a, b), Tell(a), DirFor(versions, v), File(0, "", MATTERS);
    Told(a, b);
    DirForValid(versions, v);
    var collapsed := Versions(Squash.Collapsed(dir.upFiles, upto));
    ReplayOfOne(a, b, dir.byVersion, collapsed, v);
    Squash.GoneMeans(dir, upto);
    GoneVersions(dir, upto);
    assert v in collapsed;
    assert v !in AppliedVersions(rows);
    ReplayOfOne(a, b, dir.byVersion, AppliedVersions(rows), v);
    RestampedVersions(rows, dir, upto, hash);
    Squash.SquashedIndex(dir, upto, baseline);
    var after := [0] + Sorted(AppliedAbove(rows, upto));
    assert after[0] == 0;
    ReplayOfOne(a, b, Squash.SquashedDir(dir, upto, baseline).byVersion, after, 0);
  }

  /** The claim of a re-stamp holds for every verified plan if and only if the target had
      applied every collapsed version. */
  lemma RestampIsExact(rows: Rows, versions: seq<nat>, upto: nat, hash: string, a: Schema, b: Schema)
    requires Ascending(versions) && AppliedSet(rows) <= Elements(versions) && a != b
    ensures RestampAlwaysHolds(rows, versions, upto, hash) <==>
            forall v :: v in versions && v <= upto ==> v in AppliedSet(rows)
  {
    if forall v :: v in versions && v <= upto ==> v in AppliedSet(rows) {
      forall env: Env, see: Introspect, dir: Dir, baseline: File
        | Planned(env, see, dir, upto, baseline) && Versions(dir.upFiles) == versions
        ensures RestampHolds(env, see, rows, dir, upto, baseline, hash)
      {
        RestampHoldsIfNonePassedOver(env, see, rows, dir, upto, baseline, hash);
      }
    } else {
      var v :| v in versions && v <= upto && v !in AppliedSet(rows);
      var env, see, dir, baseline := PassedOverBreaksRestamp(rows, versions, upto, v, hash, a, b);
    }
  }

  /** Files 1 and 2, of which only 2 was applied, squashed up to 2. */
  lemma RestampCanLie(hash: string, a: Schema, b: Schema)
    requires a != b
    ensures !RestampAlwaysHolds(map[2 := Row(Applied, "", "")], [1, 2], 2, hash)
  {
    var rows := map[2 := Row(Applied, "", "")];
    assert 2 in [1, 2] && 1 in [1, 2] && 1 !in AppliedSet(rows);
    RestampIsExact(rows, [1, 2], 2, hash, a, b);
  }

  // ----- The command -----

  datatype TargetState = TargetFresh | TargetRestamped

  datatype Error =
    | Unverified
    | BadBaseline
    | Locked
    | DirtyLedger(version: nat)
    | Between(version: nat)
    | Exists
    | NothingToCollapse
    | NoUpFile(version: nat)
    | Failed

  datatype Plan = Plan(uptoVersion: nat, verified: bool, collapsed: seq<nat>)

  /** The versions a plan collapses, as planned from the directory. */
  method CollapsedVersions(dir: Dir, upto: nat) returns (collapsed: seq<nat>)
    ensures collapsed == Versions(Squash.Collapsed(dir.upFiles, upto))
  {
    collapsed := [];
    for i := 0 to |dir.upFiles|
      invariant collapsed + Versions(Squash.Collapsed(dir.upFiles[i..], upto)) ==
                Versions(Squash.Collapsed(dir.upFiles, upto))
    {
      var f := dir.upFiles[i];
      assert dir.upFiles[i..][0] == f && dir.upFiles[i..][1..] == dir.upFiles[i + 1..];
      if f.version <= upto {
        VersionsSplit([f], Squash.Collapsed(dir.upFiles[i + 1..], upto));
        assert Versions([f]) == [f.version];
        collapsed := collapsed + [f.version];
      }
    }
  }

  /** Replays the collapsed files and the dumped baseline on scratch databases and
      compares what is seen of them. */
  method BuildPlan(env: Env, see: Introspect, dir: Dir, upto: nat, baseline: File) returns (r: Result<Plan, Error>)
    requires dir.Valid()
    ensures r == Err(NothingToCollapse) <==> forall f :: f in dir.upFiles ==> f.version > upto
    ensures r.Err? && r != Err(NothingToCollapse) ==> r == Err(Failed)
    ensures r.Ok? ==> r.value.uptoVersion == upto && r.value.collapsed == Versions(Squash.Collapsed(dir.upFiles, upto))
    ensures r.Ok? ==> (r.value.verified <==> Verified(env, see, dir, upto, baseline))
  {
    var files := Squash.Collapsed(dir.upFiles, upto);
    var collapsed := CollapsedVersions(dir, upto);
    Squash.CollapsedMeans(dir.upFiles, upto);
    if |collapsed| == 0 {
      return Err(NothingToCollapse);
    }
    assert files[0] in files;
    var ran, dumped, introspected := *, *, *;
    if !(ran && dumped && introspected) {
      return Err(Failed);
    }
    var replay := Runs.MigrateAll(env, dir, Forward, Runs.Fresh(env), files).schema;
    Runs.FreshRunIsReplay(env, dir, files);
    var findings, _ := Diff.Compare(see(replay), see(env.exec(baseline.sql, env.empty)));
    r := Ok(Plan(upto, |findings| == 0, collapsed));
  }

  /** The file names a plan archives, each up file before its down file. */
  function Archived(dir: Dir, collapsed: seq<nat>): seq<string>
    decreases |collapsed|
  {
    if collapsed == [] then []
    else Archived(dir, collapsed[..|collapsed| - 1]) + NamesOf(dir, collapsed[|collapsed| - 1])
  }

  function NamesOf(dir: Dir, v: nat): seq<string> {
    (if v in dir.byVersion then [dir.byVersion[v].name] else []) +
    (if v in dir.byVersionDown then [dir.byVersionDown[v].name] else [])
  }

  function UpSet(dir: Dir): set<File> {
    set f | f in dir.upFiles
  }

  function DownSet(dir: Dir): set<File> {
    dir.byVersionDown.Values
  }

  /** The files of a directory without those of some versions. */
  ghost function UpsWithout(dir: Dir, gone: seq<nat>): set<File> {
    set f | f in dir.upFiles && f.version !in gone
  }

  ghost function DownsWithout(dir: Dir, gone: seq<nat>): set<File> {
    set f | f in dir.byVersionDown.Values && f.version !in gone
  }

  /** What is left of the files when a whole plan is archived and the baseline is there. */
  lemma ArchivedIsSquashed(dir: Dir, upto: nat, baseline: File)
    requires dir.Valid() && baseline.version == 0
    ensures var gone := Versions(Squash.Collapsed(dir.upFiles, upto));
            var squashed := Squash.SquashedDir(dir, upto, baseline);
            && UpsWithout(dir, gone) + {baseline} == UpSet(squashed)
            && DownsWithout(dir, gone) == DownSet(squashed)
  {
    var files := Squash.Collapsed(dir.upFiles, upto);
    var gone, squashed := Versions(files), Squash.SquashedDir(dir, upto, baseline);
    GoneVersions(dir, upto);
    Squash.SquashedFiles(dir.upFiles, upto, baseline);
    Squash.GoneMeans(dir, upto);
    forall f
      ensures f in UpsWithout(dir, gone) + {baseline} <==> f in UpSet(squashed)
    {
      if f in dir.upFiles {
        assert f.version in dir.byVersion;
      }
    }
    DownsLeft(dir, upto, baseline);
  }

  lemma GoneVersions(dir: Dir, upto: nat)
    ensures forall v :: v in Versions(Squash.Collapsed(dir.upFiles, upto)) <==> v in Squash.Gone(dir.upFiles, upto)
  {
    var files := Squash.Collapsed(dir.upFiles, upto);
    forall v
      ensures v in Versions(files) <==> v in Squash.Gone(dir.upFiles, upto)
    {
      if v in Versions(files) {
        var i :| 0 <= i < |files| && Versions(files)[i] == v;
        assert files[i] in files;
      }
      if v in Squash.Gone(dir.upFiles, upto) {
        var f :| f in files && f.version == v;
        var i :| 0 <= i < |files| && files[i] == f;
        assert Versions(files)[i] == v;
      }
    }
  }

  lemma DownsLeft(dir: Dir, upto: nat, baseline: File)
    requires dir.DownIndexed()
    ensures DownsWithout(dir, Versions(Squash.Collapsed(dir.upFiles, upto))) ==
            DownSet(Squash.SquashedDir(dir, upto, baseline))
  {
    var gone := Versions(Squash.Collapsed(dir.upFiles, upto));
    var downs := Squash.SquashedDir(dir, upto, baseline).byVersionDown;
    GoneVersions(dir, upto);
    forall f
      ensures f in DownsWithout(dir, gone) <==> f in downs.Values
    {
      if f in DownsWithout(dir, gone) {
        assert f.version in downs && downs[f.version] == f;
      }
      if f in downs.Values {
        var v :| v in downs && downs[v] == f;
        assert dir.byVersionDown[v] == f;
      }
    }
  }

  /** The reverts of a plan are its collapsed versions other than the baseline's. */
  lemma {:induction false} RevertsStep(files: seq<File>, i: nat)
    requires i < |files|
    ensures Squash.Reverts(files[i..]) ==
            (if files[i].version == 0 then [] else [SetStatus(files[i].version, Reverted)]) +
            Squash.Reverts(files[i + 1..])
  {
    assert files[i..][0] == files[i] && files[i..][1..] == files[i + 1..];
  }

  /** The rows after a completed re-stamp. */
  function Restamped(dir: Dir, plan: Plan, baseline: File, env: Env, rows: Rows): Rows {
    PutAll(rows, Squash.RestampWrites(dir, plan.uptoVersion, env.digest(baseline.sql)))
  }

  /** What a re-stamp does to the rows: the baseline is applied with its own hash, every
      collapsed version is reverted and keeps its hash and source, and no other row
      changes. */
  ghost predicate RowsRestamped(env: Env, dir: Dir, upto: nat, baseline: File, before: Rows, after: Rows) {
    && 0 in after && after[0] == Row(Applied, env.digest(baseline.sql), "")
    && (forall f :: f in dir.upFiles && 0 < f.version <= upto ==>
          && f.version in after
          && after[f.version] ==
             if f.version in before then before[f.version].(status := Reverted) else Row(Reverted, "", ""))
    && (forall v :: v != 0 && (forall f :: f in dir.upFiles && f.version <= upto ==> f.version != v) ==>
          (v in after <==> v in before) && (v in before ==> after[v] == before[v]))
  }

  lemma RestampedRows(env: Env, dir: Dir, plan: Plan, baseline: File, rows: Rows)
    ensures RowsRestamped(env, dir, plan.uptoVersion, baseline, rows, Restamped(dir, plan, baseline, env, rows))
  {
    var files := Squash.Collapsed(dir.upFiles, plan.uptoVersion);
    Squash.RestampMeans(rows, dir, plan.uptoVersion, env.digest(baseline.sql));
    Squash.CollapsedMeans(dir.upFiles, plan.uptoVersion);
    forall f | f in dir.upFiles && 0 < f.version <= plan.uptoVersion
      ensures Squash.Covers(files, f.version)
    {
      assert f in files;
    }
  }

  /** A completed squash leaves no row flagged that was not flagged before. */
  lemma SquashKeepsHashes(env: Env, dir: Dir, plan: Plan, baseline: File, rows: Rows)
    requires dir.Valid() && baseline.version == 0 && Hashes.NoneFlagged(env, dir, rows)
    ensures var squashed := Squash.SquashedDir(dir, plan.uptoVersion, baseline);
            && Hashes.NoneFlagged(env, squashed, Restamped(dir, plan, baseline, env, rows))
            && (AppliedSet(rows) == {} ==> Hashes.NoneFlagged(env, squashed, rows))
  {
    Hashes.RestampHashes(env, dir, rows, plan.uptoVersion, baseline);
    if AppliedSet(rows) == {} {
      Hashes.FreshHashes(env, Squash.SquashedDir(dir, plan.uptoVersion, baseline), rows);
    }
  }

  /** A squash under the lock can go on: it reads the ledger, and unless that is dirty or
      the baseline has a version of its own it decides. */
  lemma SquashGoesOn(env: Env, w: World, p: nat, upto: nat, baseline: File)
    requires Pc(w, p) == Holding(Cmd.Squash(upto, baseline))
    ensures Enabled(w, ReadState(p))
    ensures var w' := Next(env, w, ReadState(p));
            && w'.rows == w.rows && w'.dir == w.dir
            && (QueryState(w.rows).dirty ==> Pc(w', p) == Leaving)
            && (!QueryState(w.rows).dirty ==>
                  && Pc(w', p) == Checked(Cmd.Squash(upto, baseline), QueryState(w.rows))
                  && (Enabled(w', Prepare(p)) <==> baseline.version == 0))
  {
  }

  /** The protocol's squash does to a target what the command below does: it goes on to
      write rows exactly when the target is at or past `upto`, and to these rows. */
  lemma PreparedSquash(env: Env, w: World, p: nat, upto: nat, baseline: File)
    requires Enabled(w, Prepare(p)) && Pc(w, p).Checked? && Pc(w, p).cmd == Cmd.Squash(upto, baseline)
    requires Pc(w, p).st == QueryState(w.rows)
    ensures var w', st := Next(env, w, Prepare(p)), QueryState(w.rows);
            && w'.rows == w.rows
            && (w'.dir != w.dir ==> !st.hasVersion || upto <= st.version)
            && (Pc(w', p).Writing? <==> st.hasVersion && upto <= st.version)
            && (Pc(w', p).Writing? ==>
                  RowsRestamped(env, w.dir, upto, baseline, w.rows, PutAll(w.rows, Pc(w', p).todo)))
            && (!st.hasVersion || upto <= st.version ==>
                  forall f :: f in w'.dir.upFiles <==> f == baseline || (f in w.dir.upFiles && f.version > upto))
  {
    RestampedRows(env, w.dir, Plan(upto, true, []), baseline, w.rows);
    AfterMeans(w.dir.upFiles, upto, true);
    assert forall f :: f in [baseline] + After(w.dir.upFiles, upto, true) <==>
                       f == baseline || f in After(w.dir.upFiles, upto, true);
  }

  /** The names a plan archives are those of the up and down files of its versions. */
  lemma {:induction false} ArchivedMeans(dir: Dir, collapsed: seq<nat>, n: string)
    ensures n in Archived(dir, collapsed) <==>
            exists v :: v in collapsed && ((v in dir.byVersion && dir.byVersion[v].name == n)
                                           || (v in dir.byVersionDown && dir.byVersionDown[v].name == n))
    decreases |collapsed|
  {
    if collapsed != [] {
      var init, last := collapsed[..|collapsed| - 1], collapsed[|collapsed| - 1];
      ArchivedMeans(dir, init, n);
      assert forall v :: v in collapsed <==> v in init || v == last;
    }
  }

  /** The migrations directory on disk and the ledger of one target. */
  class Target {
    const env: Env
    const dir: Dir
    var ups: set<File>
    var downs: set<File>
    var rows: Rows

    constructor (env: Env, dir: Dir, rows: Rows)
      ensures this.env == env && this.dir == dir && this.rows == rows && OnDisk(dir)
    {
      this.env, this.dir, this.rows := env, dir, rows;
      ups, downs := UpSet(dir), DownSet(dir);
    }

    /** The disk holds exactly the files of `d`. */
    ghost predicate OnDisk(d: Dir)
      reads this
    {
      ups == UpSet(d) && downs == DownSet(d)
    }

    /** Writes the baseline, moves the collapsed files to the archive and, when the target
        is at or past `upto`, re-stamps its ledger. Every refusal comes before any write;
        rows are written only once all files are in place. */
    method ApplyPlan(plan: Plan, baseline: File, taken: bool) returns (r: Result<(TargetState, seq<string>), Error>)
      requires dir.Valid() && OnDisk(dir)
      requires plan.collapsed == Versions(Squash.Collapsed(dir.upFiles, plan.uptoVersion))
      requires !taken ==> forall f :: f in ups ==> f.name != baseline.name
      modifies this
      ensures var st := QueryState(old(rows));
              var squashed := Squash.SquashedDir(dir, plan.uptoVersion, baseline);
              && (!plan.verified ==> r == Err(Unverified))
              && (plan.verified && baseline.version != 0 ==> r == Err(BadBaseline))
              && (r.Ok? ==>
                    && !st.dirty && !taken && OnDisk(squashed)
                    && r.value.1 == Archived(dir, plan.collapsed)
                    && (r.value.0 == TargetFresh <==> !st.hasVersion)
                    && (st.hasVersion ==> plan.uptoVersion <= st.version)
                    && (st.hasVersion ==> rows == Restamped(dir, plan, baseline, env, old(rows)))
                    && (!st.hasVersion ==> rows == old(rows)))
              && (r.Err? && r.error != Failed ==> OnDisk(dir) && rows == old(rows))
              && (r.Err? && r.error.DirtyLedger? ==> st.dirty && r.error.version == st.applying)
              && (r.Err? && r.error.Between? ==> st.hasVersion && r.error.version == st.version < plan.uptoVersion)
              && (r == Err(Exists) ==> taken)
              && (r == Err(Failed) ==> OnDisk(squashed) || rows == old(rows))
      ensures r.Ok? && QueryState(old(rows)).hasVersion ==>
                RowsRestamped(env, dir, plan.uptoVersion, baseline, old(rows), rows)
      ensures r.Ok? && Hashes.NoneFlagged(env, dir, old(rows)) ==>
                Hashes.NoneFlagged(env, Squash.SquashedDir(dir, plan.uptoVersion, baseline), rows)
    {
      if !plan.verified {
        return Err(Unverified);
      }
      if baseline.version != 0 {
        return Err(BadBaseline);
      }
      var locked := *;
      if !locked {
        return Err(Locked);
      }
      var st := QueryState(rows);
      if st.dirty {
        return Err(DirtyLedger(st.applying));
      }
      var state;
      if !st.hasVersion {
        state := TargetFresh;
      } else if st.version >= plan.uptoVersion {
        state := TargetRestamped;
      } else {
        return Err(Between(st.version));
      }
      if taken {
        return Err(Exists);
      }
      var written := *;
      if !written {
        return Err(Failed);
      }
      ups := ups + {baseline};
      var archived := Archive(plan, baseline);
      if archived.Err? {
        return Err(Failed);
      }
      ArchivedIsSquashed(dir, plan.uptoVersion, baseline);
      if state == TargetRestamped {
        var ok := Restamp(plan, baseline);
        if !ok {
          return Err(Failed);
        }
      }
      if Hashes.NoneFlagged(env, dir, old(rows)) {
        SquashKeepsHashes(env, dir, plan, baseline, old(rows));
      }
      r := Ok((state, archived.value));
    }

    /** Moves the files of every collapsed version out of the directory. */
    method Archive(plan: Plan, baseline: File) returns (r: Result<seq<string>, Error>)
      requires dir.Valid() && ups == UpSet(dir) + {baseline} && downs == DownSet(dir) && baseline !in dir.upFiles
      requires plan.collapsed == Versions(Squash.Collapsed(dir.upFiles, plan.uptoVersion))
      modifies this`ups, this`downs
      ensures r.Ok? ==>
                && ups == UpsWithout(dir, plan.collapsed) + {baseline} && downs == DownsWithout(dir, plan.collapsed)
                && r.value == Archived(dir, plan.collapsed)
    {
      var archived := [];
      for i := 0 to |plan.collapsed|
        invariant ups == UpsWithout(dir, plan.collapsed[..i]) + {baseline}
        invariant downs == DownsWithout(dir, plan.collapsed[..i])
        invariant archived == Archived(dir, plan.collapsed[..i])
      {
        var v := plan.collapsed[i];
        var names := ArchiveVersion(v);
        if names.Err? {
          return Err(Failed);
        }
        UpsStep(dir, plan.collapsed, i, baseline);
        DownsStep(dir, plan.collapsed, i);
        assert plan.collapsed[..i + 1][..i] == plan.collapsed[..i];
        archived := archived + names.value;
      }
      assert plan.collapsed[..|plan.collapsed|] == plan.collapsed;
      r := Ok(archived);
    }

    method ArchiveVersion(v: nat) returns (r: Result<seq<string>, Error>)
      modifies this`ups, this`downs
      ensures r.Ok? ==>
                && v in dir.byVersion && r.value == NamesOf(dir, v)
                && ups == old(ups) - {dir.byVersion[v]}
                && downs == old(downs) - if v in dir.byVersionDown then {dir.byVersionDown[v]} else {}
    {
      if v !in dir.byVersion {
        return Err(NoUpFile(v));
      }
      var f := dir.byVersion[v];
      var moved := *;
      if !moved {
        return Err(Failed);
      }
      ups := ups - {f};
      var names := [f.name];
      if v in dir.byVersionDown {
        var downFile := dir.byVersionDown[v];
        moved := *;
        if !moved {
          return Err(Failed);
        }
        downs := downs - {downFile};
        names := names + [downFile.name];
      }
      r := Ok(names);
    }

    /** Marks every collapsed version reverted and records the baseline as applied. */
    method Restamp(plan: Plan, baseline: File) returns (ok: bool)
      requires plan.collapsed == Versions(Squash.Collapsed(dir.upFiles, plan.uptoVersion))
      modifies this`rows
      ensures ok ==> rows == Restamped(dir, plan, baseline, env, old(rows))
      ensures ok ==> RowsRestamped(env, dir, plan.uptoVersion, baseline, old(rows), rows)
    {
      ghost var files := Squash.Collapsed(dir.upFiles, plan.uptoVersion);
      for i := 0 to |plan.collapsed|
        invariant PutAll(rows, Squash.Reverts(files[i..])) == PutAll(old(rows), Squash.Reverts(files))
      {
        RevertsStep(files, i);
        var v := plan.collapsed[i];
        if v == 0 {
          continue;
        }
        ok := *;
        if !ok || v > MAX_VERSION {
          return false;
        }
        rows := Put(rows, SetStatus(v, Reverted));
      }
      PutAllAppends(old(rows), Squash.Reverts(files), SetStatusWithHash(0, Applied, env.digest(baseline.sql)));
      RestampedRows(env, dir, plan, baseline, old(rows));
      ok := *;
      if ok {
        rows := Put(rows, SetStatusWithHash(0, Applied, env.digest(baseline.sql)));
      }
    }
  }

  lemma UpsStep(dir: Dir, gone: seq<nat>, i: nat, baseline: File)
    requires dir.UpIndexed() && i < |gone| && gone[i] in dir.byVersion && baseline !in dir.upFiles
    ensures UpsWithout(dir, gone[..i]) + {baseline} - {dir.byVersion[gone[i]]} ==
            UpsWithout(dir, gone[..i + 1]) + {baseline}
  {
    assert gone[..i + 1] == gone[..i] + [gone[i]];
    assert dir.byVersion[gone[i]] in dir.upFiles;
  }

  lemma DownsStep(dir: Dir, gone: seq<nat>, i: nat)
    requires dir.DownIndexed() && i < |gone|
    ensures DownsWithout(dir, gone[..i + 1]) ==
            DownsWithout(dir, gone[..i]) - if gone[i] in dir.byVersionDown then {dir.byVersionDown[gone[i]]} else {}
  {
    assert gone[..i + 1] == gone[..i] + [gone[i]];
  }
}
