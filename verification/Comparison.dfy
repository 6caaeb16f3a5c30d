/** What the comparison means: on the lists of the tables, finding by finding, under
    exchange of the two schemas, and where identifiers are shared.
    Sources: internal/diff/compare.go, internal/generate/introspect.go. */
module Comparison {
  import opened Names
  import opened Diff

  // ----- The same on the lists -----

  ghost predicate DistinctKeys<T>(items: seq<T>, key: T -> string) {
    forall i, j :: 0 <= i < j < |items| ==> key(items[i]) != key(items[j])
  }

  /** The same elements, in whatever order. */
  ghost predicate SameElements<T(!new)>(s: seq<T>, t: seq<T>) {
    forall x: T :: x in s <==> x in t
  }

  lemma {:induction false} ByDistinctKey<T>(items: seq<T>, key: T -> string, x: T)
    requires DistinctKeys(items, key)
    ensures key(x) in ByKey(items, key) && ByKey(items, key)[key(x)] == x <==> x in items
  {
    if items != [] {
      var init, last := items[..|items| - 1], items[|items| - 1];
      ByDistinctKey(init, key, x);
      assert x in items <==> x in init || x == last;
      if x in init {
        var i :| 0 <= i < |init| && init[i] == x;
        assert key(items[i]) != key(items[|items| - 1]);
      }
    }
  }

  /** Lists without repeated names have the same elements exactly when their maps agree. */
  lemma ByKeyIsTheList<T(!new)>(s: seq<T>, t: seq<T>, key: T -> string)
    requires DistinctKeys(s, key) && DistinctKeys(t, key)
    ensures ByKey(s, key) == ByKey(t, key) <==> SameElements(s, t)
  {
    forall x: T
      ensures x in s <==> key(x) in ByKey(s, key) && ByKey(s, key)[key(x)] == x
      ensures x in t <==> key(x) in ByKey(t, key) && ByKey(t, key)[key(x)] == x
    {
      ByDistinctKey(s, key, x);
      ByDistinctKey(t, key, x);
    }
    if SameElements(s, t) {
      ByKeyMeans(s, key);
      ByKeyMeans(t, key);
      SameMaps(ByKey(s, key), ByKey(t, key), key);
    }
  }

  lemma SameMaps<T(!new)>(m: map<string, T>, n: map<string, T>, key: T -> string)
    requires forall k :: k in m ==> key(m[k]) == k
    requires forall k :: k in n ==> key(n[k]) == k
    requires forall x: T :: (key(x) in m && m[key(x)] == x) <==> (key(x) in n && n[key(x)] == x)
    ensures m == n
  {
    forall k
      ensures k in m <==> k in n
      ensures k in m ==> m[k] == n[k]
    {
      if k in m {
        assert key(m[k]) in n;
      }
      if k in n {
        assert key(n[k]) in m;
      }
    }
  }

  /** The columns of a list without their positions and generated names. */
  function BareList(columns: seq<Column>): (bare: seq<Column>)
    ensures |bare| == |columns| && forall i :: 0 <= i < |columns| ==> bare[i] == columns[i].Bare()
  {
    seq(|columns|, i requires 0 <= i < |columns| => columns[i].Bare())
  }

  lemma {:induction false} BareByName(columns: seq<Column>)
    ensures BareColumns(ByKey(columns, ColumnName)) == ByKey(BareList(columns), ColumnName)
    decreases |columns|
  {
    if columns != [] {
      var init, last := columns[..|columns| - 1], columns[|columns| - 1];
      BareByName(init);
      assert BareList(columns)[..|columns| - 1] == BareList(init);
      assert BareColumns(ByKey(columns, ColumnName)) == BareColumns(ByKey(init, ColumnName))[last.name := last.Bare()];
    }
  }

  /** No name is repeated in any list of the table. */
  ghost predicate WellNamed(t: Table) {
    && DistinctKeys(t.columns, ColumnName) && DistinctKeys(t.indexes, IndexName)
    && DistinctKeys(t.foreignKeys, ForeignKeyName) && DistinctKeys(t.checks, CheckName)
  }

  /** Equal up to the order of the lists, column positions and generated names. */
  ghost predicate SameLists(s: Table, t: Table) {
    && SameElements(BareList(s.columns), BareList(t.columns)) && SameElements(s.indexes, t.indexes)
    && SameElements(s.foreignKeys, t.foreignKeys) && SameElements(s.checks, t.checks)
  }

  lemma ShapeIsTheLists(s: Table, t: Table)
    requires WellNamed(s) && WellNamed(t)
    ensures s.Bare() == t.Bare() <==> SameLists(s, t)
  {
    BareByName(s.columns);
    BareByName(t.columns);
    assert DistinctKeys(BareList(s.columns), ColumnName) by {
      assert forall i :: 0 <= i < |s.columns| ==> ColumnName(BareList(s.columns)[i]) == ColumnName(s.columns[i]);
    }
    assert DistinctKeys(BareList(t.columns), ColumnName) by {
      assert forall i :: 0 <= i < |t.columns| ==> ColumnName(BareList(t.columns)[i]) == ColumnName(t.columns[i]);
    }
    ByKeyIsTheList(BareList(s.columns), BareList(t.columns), ColumnName);
    ByKeyIsTheList(s.indexes, t.indexes, IndexName);
    ByKeyIsTheList(s.foreignKeys, t.foreignKeys, ForeignKeyName);
    ByKeyIsTheList(s.checks, t.checks, CheckName);
  }

  /** A table without repeated names has no finding if and only if its lists hold the same
      columns, indexes, foreign keys and checks. */
  lemma NoTableFindingsMeansSameLists(table: string, s: Table, t: Table)
    requires WellNamed(s) && WellNamed(t)
    ensures TableFindings(table, s, t) == [] <==> SameLists(s, t)
  {
    NoTableFindings(table, s, t);
    ShapeIsTheLists(s, t);
  }

  /** No table is listed twice and no table repeats a name. */
  ghost predicate WellFormed(tables: seq<Table>) {
    DistinctKeys(tables, TableIdent) && forall t :: t in tables ==> WellNamed(t)
  }

  /** Every table of `s` is in `t` with the same lists. */
  ghost predicate Contained(s: seq<Table>, t: seq<Table>) {
    forall x :: x in s ==> Matched(x, t)
  }

  ghost predicate Matched(x: Table, t: seq<Table>) {
    exists y :: y in t && y.Ident() == x.Ident() && SameLists(x, y)
  }

  lemma ContainedMeans(s: seq<Table>, t: seq<Table>)
    requires WellFormed(s) && WellFormed(t)
    ensures Contained(s, t) <==>
            forall k :: k in ByKey(s, TableIdent) ==>
              k in ByKey(t, TableIdent) && ByKey(s, TableIdent)[k].Bare() == ByKey(t, TableIdent)[k].Bare()
  {
    var m, n := ByKey(s, TableIdent), ByKey(t, TableIdent);
    ByKeyMeans(s, TableIdent);
    ByKeyMeans(t, TableIdent);
    forall x | x in s
      ensures x.Ident() in m && m[x.Ident()] == x
      ensures Matched(x, t) <==> x.Ident() in n && x.Bare() == n[x.Ident()].Bare()
    {
      ByDistinctKey(s, TableIdent, x);
      MatchedMeans(x, t);
    }
  }

  lemma MatchedMeans(x: Table, t: seq<Table>)
    requires WellNamed(x) && WellFormed(t)
    ensures Matched(x, t) <==>
            x.Ident() in ByKey(t, TableIdent) && x.Bare() == ByKey(t, TableIdent)[x.Ident()].Bare()
  {
    var n := ByKey(t, TableIdent);
    ByKeyMeans(t, TableIdent);
    forall y | y in t && y.Ident() == x.Ident()
      ensures x.Ident() in n && n[x.Ident()] == y
      ensures SameLists(x, y) <==> x.Bare() == y.Bare()
    {
      ByDistinctKey(t, TableIdent, y);
      ShapeIsTheLists(x, y);
    }
    if x.Ident() in n {
      assert n[x.Ident()] in t;
    }
  }

  /** `Compare` reports nothing if and only if both schemas list the same tables with the
      same columns, indexes, foreign keys and checks, in whatever order and with whatever
      column positions and generated names — provided that no list repeats a name. */
  lemma NoFindingsMeansSameLists(scratch: seq<Table>, target: seq<Table>)
    requires WellFormed(scratch) && WellFormed(target)
    ensures FindingsOf(scratch, target) == [] <==> Contained(scratch, target) && Contained(target, scratch)
  {
    NoFindings(scratch, target);
    ContainedMeans(scratch, target);
    ContainedMeans(target, scratch);
  }

  /** Why well-formed lists are asked for: of two columns with one name the first would be
      overwritten, whatever it is, and the comparison with a table that has only the second
      would be silent. */
  lemma RepeatedColumnIsMissed(first: Column, c: Column)
    requires first.name == c.name && first.Bare() != c.Bare()
    ensures var s := Table("", "t", "", [first, c], [], [], []);
            var t := Table("", "t", "", [c], [], [], []);
            TableFindings("t", s, t) == [] && !SameLists(s, t)
  {
    var s := Table("", "t", "", [first, c], [], [], []);
    var t := Table("", "t", "", [c], [], [], []);
    assert [first, c][..1] == [first] && [c][..0] == [] && [first][..0] == [];
    assert ByKey([first, c], ColumnName) == ByKey([c], ColumnName);
    NoTableFindings("t", s, t);
    assert first.Bare() == BareList([first, c])[0] && first.Bare() in BareList([first, c]);
    assert BareList([c]) == [c.Bare()] && first.Bare() !in BareList([c]);
  }

  // ----- What each finding says -----

  /** What is the case when a finding of that kind is reported for a key. */
  ghost predicate Differs<T>(kind: Kind, s: map<string, T>, t: map<string, T>, diff: (T, T) -> seq<Change>, n: string) {
    match kind
    case Missing => n in s && n !in t
    case Extra => n !in s && n in t
    case Changed => n in s && n in t && diff(s[n], t[n]) != []
  }

  ghost predicate TableDiffers(kind: Kind, obj: Object, s: Table, t: Table, n: string) {
    match obj
    case TableObject => false
    case ColumnObject => Differs(kind, ByKey(s.columns, ColumnName), ByKey(t.columns, ColumnName), ColumnChanges, n)
    case IndexObject => Differs(kind, ByKey(s.indexes, IndexName), ByKey(t.indexes, IndexName), IndexChanges, n)
    case ForeignKeyObject => Differs(kind, ByKey(s.foreignKeys, ForeignKeyName), ByKey(t.foreignKeys, ForeignKeyName),
                                     ForeignKeyChanges, n)
    case CheckObject => Differs(kind, ByKey(s.checks, CheckName), ByKey(t.checks, CheckName), CheckChanges, n)
  }

  /** A missing or extra table is one finding; inside a table on both sides every object
      is compared by its name. */
  ghost predicate SchemaDiffers(kind: Kind, obj: Object, s: map<string, Table>, t: map<string, Table>, k: string,
                                n: string) {
    if k in s && k in t then TableDiffers(kind, obj, s[k], t[k], n)
    else obj == TableObject && n == "" && ((kind == Missing && k in s) || (kind == Extra && k in t))
  }

  ghost predicate Says(f: Finding, kind: Kind, obj: Object, table: string, name: string) {
    f.kind == kind && f.obj == obj && f.table == table && f.name == name
  }

  ghost predicate Reports(fs: seq<Finding>, kind: Kind, obj: Object, table: string, name: string) {
    exists f :: f in fs && Says(f, kind, obj, table, name)
  }

  lemma KeyReports<T>(kind: Kind, table: string, obj: Object, s: map<string, T>, t: map<string, T>,
                      diff: (T, T) -> seq<Change>, n: string)
    ensures (exists f :: f in KeyFindings(table, obj, s, t, diff, n) && Says(f, kind, obj, table, n)) <==>
            Differs(kind, s, t, diff, n)
  {
    if Differs(kind, s, t, diff, n) {
      var f := KeyFindings(table, obj, s, t, diff, n)[0];
      assert f in KeyFindings(table, obj, s, t, diff, n);
    }
  }

  lemma ListedReports<T>(kind: Kind, table: string, obj: Object, s: map<string, T>, t: map<string, T>,
                         diff: (T, T) -> seq<Change>, n: string)
    ensures (exists f :: f in ListedFindings(table, obj, s, t, diff) && Says(f, kind, obj, table, n)) <==>
            Differs(kind, s, t, diff, n)
  {
    ListedMeans(table, obj, s, t, diff);
    KeyReports(kind, table, obj, s, t, diff, n);
  }

  lemma ColumnReports(kind: Kind, table: string, s: Table, t: Table, n: string)
    ensures (exists f :: f in ColumnFindings(table, s, t) && Says(f, kind, ColumnObject, table, n)) <==>
            TableDiffers(kind, ColumnObject, s, t, n)
  {
    ColumnMeans(table, s, t);
    KeyReports(kind, table, ColumnObject, ByKey(s.columns, ColumnName), ByKey(t.columns, ColumnName), ColumnChanges, n);
  }

  /** The part of a table's findings about one kind of object. */
  ghost function PartFor(obj: Object, table: string, s: Table, t: Table): seq<Finding> {
    match obj
    case TableObject => []
    case ColumnObject => ColumnFindings(table, s, t)
    case IndexObject => IndexFindings(table, s, t)
    case ForeignKeyObject => ForeignKeyFindings(table, s, t)
    case CheckObject => CheckFindings(table, s, t)
  }

  lemma FindingsByObject(table: string, s: Table, t: Table, f: Finding)
    ensures f in TableFindings(table, s, t) <==> f in PartFor(f.obj, table, s, t)
  {
    KeyedTable(table, ColumnObject, ByKey(s.columns, ColumnName), ByKey(t.columns, ColumnName), ColumnChanges,
               ColumnOrder(s, t));
    OthersTable(table, s, t);
  }

  lemma PartReports(kind: Kind, obj: Object, table: string, s: Table, t: Table, n: string)
    ensures (exists f :: f in PartFor(obj, table, s, t) && Says(f, kind, obj, table, n)) <==>
            TableDiffers(kind, obj, s, t, n)
  {
    match obj
    case TableObject =>
    case ColumnObject =>
      ColumnReports(kind, table, s, t, n);
    case IndexObject =>
      ListedReports(kind, table, obj, ByKey(s.indexes, IndexName), ByKey(t.indexes, IndexName), IndexChanges, n);
    case ForeignKeyObject =>
      ListedReports(kind, table, obj, ByKey(s.foreignKeys, ForeignKeyName), ByKey(t.foreignKeys, ForeignKeyName),
                    ForeignKeyChanges, n);
    case CheckObject =>
      ListedReports(kind, table, obj, ByKey(s.checks, CheckName), ByKey(t.checks, CheckName), CheckChanges, n);
  }

  lemma TableReports(kind: Kind, obj: Object, table: string, s: Table, t: Table, n: string)
    ensures (exists f :: f in TableFindings(table, s, t) && Says(f, kind, obj, table, n)) <==>
            TableDiffers(kind, obj, s, t, n)
  {
    PartReports(kind, obj, table, s, t, n);
    forall f | Says(f, kind, obj, table, n)
      ensures f in TableFindings(table, s, t) <==> f in PartFor(obj, table, s, t)
    {
      FindingsByObject(table, s, t, f);
    }
  }

  lemma IdentReports(kind: Kind, obj: Object, s: map<string, Table>, t: map<string, Table>, k: string, n: string)
    ensures (exists f :: f in IdentFindings(s, t, k) && Says(f, kind, obj, k, n)) <==>
            SchemaDiffers(kind, obj, s, t, k, n)
  {
    if k in s && k in t {
      TableReports(kind, obj, k, s[k], t[k], n);
    } else if SchemaDiffers(kind, obj, s, t, k, n) {
      var f := IdentFindings(s, t, k)[0];
      assert f in IdentFindings(s, t, k);
    }
  }

  /** Every finding stands for a difference of its kind and every difference is found:
      missing means only in the scratch schema, extra only in the target, changed in both
      with some attribute that differs. */
  lemma FindingsAreTheDifferences(scratch: seq<Table>, target: seq<Table>, kind: Kind, obj: Object, table: string,
                                  name: string)
    ensures Reports(FindingsOf(scratch, target), kind, obj, table, name) <==>
            SchemaDiffers(kind, obj, ByKey(scratch, TableIdent), ByKey(target, TableIdent), table, name)
  {
    var s, t := ByKey(scratch, TableIdent), ByKey(target, TableIdent);
    FindingsOfMean(scratch, target);
    IdentReports(kind, obj, s, t, table, name);
    assert forall f :: Says(f, kind, obj, table, name) ==>
             (f in FindingsOf(scratch, target) <==> f in IdentFindings(s, t, table));
  }

  /** A column after one reported change. */
  function AfterChange(c: Column, change: Change): Column {
    match change
    case DataType(_, t) => c.(dataType := t)
    case Nullable(_, t) => c.(isNullable := t)
    case MaxLength(_, t) => c.(maxLength := t)
    case Precision(_, t) => c.(precision := t)
    case Scale(_, t) => c.(scale := t)
    case Default(_, t) => c.(defaultValue := t)
    case PrimaryKey(_, t) => c.(isPrimaryKey := t)
    case _ => c
  }

  /** The change seen from the other side. */
  function Reverse(change: Change): Change {
    match change
    case DataType(s, t) => DataType(t, s)
    case Nullable(s, t) => Nullable(t, s)
    case MaxLength(s, t) => MaxLength(t, s)
    case Precision(s, t) => Precision(t, s)
    case Scale(s, t) => Scale(t, s)
    case Default(s, t) => Default(t, s)
    case PrimaryKey(s, t) => PrimaryKey(t, s)
    case Unique(s, t) => Unique(t, s)
    case Columns(s, t) => Columns(t, s)
    case RefSchema(s, t) => RefSchema(t, s)
    case RefTable(s, t) => RefTable(t, s)
    case RefColumns(s, t) => RefColumns(t, s)
    case Expression(s, t) => Expression(t, s)
  }

  function Patched(c: Column, changes: seq<Change>): Column {
    if changes == [] then c else AfterChange(Patched(c, changes[..|changes| - 1]), changes[|changes| - 1])
  }

  function Reversed(changes: seq<Change>): seq<Change> {
    seq(|changes|, i requires 0 <= i < |changes| => Reverse(changes[i]))
  }

  lemma {:induction false} PatchedAppends(c: Column, a: seq<Change>, b: seq<Change>)
    ensures Patched(c, a + b) == Patched(Patched(c, a), b)
    decreases |b|
  {
    if b == [] {
      assert a + b == a;
    } else {
      assert (a + b)[..|a + b| - 1] == a + b[..|b| - 1];
      PatchedAppends(c, a, b[..|b| - 1]);
    }
  }

  lemma PatchedWhen(c: Column, differs: bool, change: Change)
    ensures Patched(c, When(differs, change)) == if differs then AfterChange(c, change) else c
  {
    assert [change][..0] == [];
  }

  lemma PatchTypes(c: Column, s: Column, t: Column)
    requires c.dataType == s.dataType && c.isNullable == s.isNullable
    ensures Patched(c, TypeChanges(s, t)) == c.(dataType := t.dataType, isNullable := t.isNullable)
  {
    var w1 := When(s.dataType != t.dataType, DataType(s.dataType, t.dataType));
    var w2 := When(s.isNullable != t.isNullable, Nullable(s.isNullable, t.isNullable));
    PatchedAppends(c, w1, w2);
    PatchedWhen(c, s.dataType != t.dataType, DataType(s.dataType, t.dataType));
    PatchedWhen(Patched(c, w1), s.isNullable != t.isNullable, Nullable(s.isNullable, t.isNullable));
  }

  lemma PatchSizes(c: Column, s: Column, t: Column)
    requires c.maxLength == s.maxLength && c.precision == s.precision && c.scale == s.scale
    ensures Patched(c, SizeChanges(s, t)) == c.(maxLength := t.maxLength, precision := t.precision, scale := t.scale)
  {
    var w1 := When(s.maxLength != t.maxLength, MaxLength(s.maxLength, t.maxLength));
    var w2 := When(s.precision != t.precision, Precision(s.precision, t.precision));
    var w3 := When(s.scale != t.scale, Scale(s.scale, t.scale));
    PatchedAppends(c, w1 + w2, w3);
    PatchedAppends(c, w1, w2);
    PatchedWhen(c, s.maxLength != t.maxLength, MaxLength(s.maxLength, t.maxLength));
    PatchedWhen(Patched(c, w1), s.precision != t.precision, Precision(s.precision, t.precision));
    PatchedWhen(Patched(c, w1 + w2), s.scale != t.scale, Scale(s.scale, t.scale));
  }

  lemma PatchValues(c: Column, s: Column, t: Column)
    requires c.defaultValue == s.defaultValue && c.isPrimaryKey == s.isPrimaryKey
    ensures Patched(c, ValueChanges(s, t)) == c.(defaultValue := t.defaultValue, isPrimaryKey := t.isPrimaryKey)
  {
    var w1 := When(s.defaultValue != t.defaultValue, Default(s.defaultValue, t.defaultValue));
    var w2 := When(s.isPrimaryKey != t.isPrimaryKey, PrimaryKey(s.isPrimaryKey, t.isPrimaryKey));
    PatchedAppends(c, w1, w2);
    PatchedWhen(c, s.defaultValue != t.defaultValue, Default(s.defaultValue, t.defaultValue));
    PatchedWhen(Patched(c, w1), s.isPrimaryKey != t.isPrimaryKey, PrimaryKey(s.isPrimaryKey, t.isPrimaryKey));
  }

  /** The reported changes rebuild the target's column from the scratch one. */
  lemma ChangesRebuildTarget(s: Column, t: Column)
    requires s.name == t.name
    ensures Patched(s, ColumnChanges(s, t)).Bare() == t.Bare()
  {
    var c1 := Patched(s, TypeChanges(s, t));
    var c2 := Patched(c1, SizeChanges(s, t));
    PatchedAppends(s, TypeChanges(s, t) + SizeChanges(s, t), ValueChanges(s, t));
    PatchedAppends(s, TypeChanges(s, t), SizeChanges(s, t));
    PatchTypes(s, s, t);
    PatchSizes(c1, s, t);
    PatchValues(c2, s, t);
  }

  lemma ReversedAppends(a: seq<Change>, b: seq<Change>)
    ensures Reversed(a + b) == Reversed(a) + Reversed(b)
  {
  }

  lemma ReversedWhen(differs: bool, change: Change)
    ensures Reversed(When(differs, change)) == When(differs, Reverse(change))
  {
  }

  lemma SwappedTypes(s: Column, t: Column)
    ensures TypeChanges(t, s) == Reversed(TypeChanges(s, t))
  {
    ReversedAppends(When(s.dataType != t.dataType, DataType(s.dataType, t.dataType)),
                    When(s.isNullable != t.isNullable, Nullable(s.isNullable, t.isNullable)));
    ReversedWhen(s.dataType != t.dataType, DataType(s.dataType, t.dataType));
    ReversedWhen(s.isNullable != t.isNullable, Nullable(s.isNullable, t.isNullable));
  }

  lemma SwappedSizes(s: Column, t: Column)
    ensures SizeChanges(t, s) == Reversed(SizeChanges(s, t))
  {
    var w1 := When(s.maxLength != t.maxLength, MaxLength(s.maxLength, t.maxLength));
    var w2 := When(s.precision != t.precision, Precision(s.precision, t.precision));
    var w3 := When(s.scale != t.scale, Scale(s.scale, t.scale));
    ReversedAppends(w1 + w2, w3);
    ReversedAppends(w1, w2);
    ReversedWhen(s.maxLength != t.maxLength, MaxLength(s.maxLength, t.maxLength));
    ReversedWhen(s.precision != t.precision, Precision(s.precision, t.precision));
    ReversedWhen(s.scale != t.scale, Scale(s.scale, t.scale));
  }

  lemma SwappedValues(s: Column, t: Column)
    ensures ValueChanges(t, s) == Reversed(ValueChanges(s, t))
  {
    ReversedAppends(When(s.defaultValue != t.defaultValue, Default(s.defaultValue, t.defaultValue)),
                    When(s.isPrimaryKey != t.isPrimaryKey, PrimaryKey(s.isPrimaryKey, t.isPrimaryKey)));
    ReversedWhen(s.defaultValue != t.defaultValue, Default(s.defaultValue, t.defaultValue));
    ReversedWhen(s.isPrimaryKey != t.isPrimaryKey, PrimaryKey(s.isPrimaryKey, t.isPrimaryKey));
  }

  /** Swapping the columns reverses every change. */
  lemma SwappedChanges(s: Column, t: Column)
    ensures ColumnChanges(t, s) == Reversed(ColumnChanges(s, t))
  {
    SwappedTypes(s, t);
    SwappedSizes(s, t);
    SwappedValues(s, t);
    ReversedAppends(TypeChanges(s, t) + SizeChanges(s, t), ValueChanges(s, t));
    ReversedAppends(TypeChanges(s, t), SizeChanges(s, t));
  }

  /** What the changes of a column are worth: with the scratch column they give the
      target's back, and read backwards they give the scratch column back from it. */
  lemma ChangesAreExact(s: Column, t: Column)
    requires s.name == t.name
    ensures Patched(s, ColumnChanges(s, t)).Bare() == t.Bare()
    ensures Patched(t, Reversed(ColumnChanges(s, t))).Bare() == s.Bare()
  {
    ChangesRebuildTarget(s, t);
    SwappedChanges(s, t);
    ChangesRebuildTarget(t, s);
  }

  // ----- Swapping the schemas -----

  lemma ChangesReversible(s: Column, t: Column)
    ensures ColumnChanges(s, t) == [] <==> ColumnChanges(t, s) == []
  {
  }

  lemma ColumnsMirrored(kind: Kind, s: map<string, Column>, t: map<string, Column>, n: string)
    ensures Differs(kind, s, t, ColumnChanges, n) <==> Differs(kind.Mirror(), t, s, ColumnChanges, n)
  {
    if n in s && n in t {
      ChangesReversible(s[n], t[n]);
    }
  }

  lemma TableMirrored(kind: Kind, obj: Object, s: Table, t: Table, n: string)
    ensures TableDiffers(kind, obj, s, t, n) <==> TableDiffers(kind.Mirror(), obj, t, s, n)
  {
    ColumnsMirrored(kind, ByKey(s.columns, ColumnName), ByKey(t.columns, ColumnName), n);
  }

  /** Swapping the arguments reports the same objects, missing and extra exchanged. */
  lemma CompareIsMirrored(scratch: seq<Table>, target: seq<Table>, kind: Kind, obj: Object, table: string, name: string)
    ensures Reports(FindingsOf(scratch, target), kind, obj, table, name) <==>
            Reports(FindingsOf(target, scratch), kind.Mirror(), obj, table, name)
  {
    var s, t := ByKey(scratch, TableIdent), ByKey(target, TableIdent);
    FindingsAreTheDifferences(scratch, target, kind, obj, table, name);
    FindingsAreTheDifferences(target, scratch, kind.Mirror(), obj, table, name);
    if table in s && table in t {
      TableMirrored(kind, obj, s[table], t[table], name);
    }
  }

  // ----- Tables that share an identifier -----

  /** No two different tables have the same identifier. */
  ghost predicate Distinguished(tables: seq<Table>) {
    forall a, b :: a in tables && b in tables && a.Ident() == b.Ident() ==> a.schema == b.schema && a.name == b.name
  }

  function TableKey(t: Table): (string, string) {
    (t.schema, t.name)
  }

  /** The schema with every table under its own schema and name. */
  ghost function ShapesByKey(tables: seq<Table>): map<(string, string), Shape> {
    if tables == [] then map[]
    else ShapesByKey(tables[..|tables| - 1])[TableKey(tables[|tables| - 1]) := tables[|tables| - 1].Bare()]
  }

  lemma ShapesStep(init: seq<Table>, last: Table)
    ensures Shapes(init + [last]) == Shapes(init)[last.Ident() := last.Bare()]
    ensures ShapesByKey(init + [last]) == ShapesByKey(init)[TableKey(last) := last.Bare()]
  {
    assert (init + [last])[..|init|] == init;
  }

  lemma {:induction false} ShapesAgree(tables: seq<Table>, t: Table)
    requires forall a :: a in tables ==> (a.Ident() == t.Ident() <==> TableKey(a) == TableKey(t))
    ensures TableKey(t) in ShapesByKey(tables) <==> t.Ident() in Shapes(tables)
    ensures t.Ident() in Shapes(tables) ==> Shapes(tables)[t.Ident()] == ShapesByKey(tables)[TableKey(t)]
    decreases |tables|
  {
    if tables != [] {
      var init, last := tables[..|tables| - 1], tables[|tables| - 1];
      assert tables == init + [last];
      ShapesAgree(init, t);
      ShapesStep(init, last);
    }
  }

  lemma {:induction false} ShapesCome(tables: seq<Table>)
    ensures forall k :: k in Shapes(tables) ==> exists t :: t in tables && t.Ident() == k
    ensures forall k :: k in ShapesByKey(tables) ==> exists t :: t in tables && TableKey(t) == k
    decreases |tables|
  {
    if tables != [] {
      var init, last := tables[..|tables| - 1], tables[|tables| - 1];
      assert tables == init + [last];
      ShapesCome(init);
      ShapesStep(init, last);
      assert last in tables;
    }
  }

  lemma ShapesAgreeOn(tables: seq<Table>, all: seq<Table>, t: Table)
    requires Distinguished(all) && t in all && forall a :: a in tables ==> a in all
    ensures TableKey(t) in ShapesByKey(tables) <==> t.Ident() in Shapes(tables)
    ensures t.Ident() in Shapes(tables) ==> Shapes(tables)[t.Ident()] == ShapesByKey(tables)[TableKey(t)]
  {
    ShapesAgree(tables, t);
  }

  /** When identifiers tell the tables apart, nothing is reported exactly when the same
      tables have the same structure. */
  lemma DistinguishedIsExact(scratch: seq<Table>, target: seq<Table>)
    requires Distinguished(scratch + target)
    ensures FindingsOf(scratch, target) == [] <==> ShapesByKey(scratch) == ShapesByKey(target)
  {
    NoFindingsMeansSameShape(scratch, target);
    if ShapesByKey(scratch) == ShapesByKey(target) {
      forall k
        ensures k in Shapes(scratch) <==> k in Shapes(target)
        ensures k in Shapes(scratch) ==> Shapes(scratch)[k] == Shapes(target)[k]
      {
        IdentAgrees(scratch, target, k);
      }
      assert Shapes(scratch) == Shapes(target);
    }
    if Shapes(scratch) == Shapes(target) {
      forall k
        ensures k in ShapesByKey(scratch) <==> k in ShapesByKey(target)
        ensures k in ShapesByKey(scratch) ==> ShapesByKey(scratch)[k] == ShapesByKey(target)[k]
      {
        KeyAgrees(scratch, target, k);
      }
      assert ShapesByKey(scratch) == ShapesByKey(target);
    }
  }

  lemma IdentAgrees(scratch: seq<Table>, target: seq<Table>, k: string)
    requires Distinguished(scratch + target) && ShapesByKey(scratch) == ShapesByKey(target)
    ensures k in Shapes(scratch) <==> k in Shapes(target)
    ensures k in Shapes(scratch) ==> Shapes(scratch)[k] == Shapes(target)[k]
  {
    ShapesCome(scratch);
    ShapesCome(target);
    if k in Shapes(scratch) || k in Shapes(target) {
      var t :| t in scratch + target && t.Ident() == k;
      ShapesAgreeOn(scratch, scratch + target, t);
      ShapesAgreeOn(target, scratch + target, t);
    }
  }

  lemma KeyAgrees(scratch: seq<Table>, target: seq<Table>, k: (string, string))
    requires Distinguished(scratch + target) && Shapes(scratch) == Shapes(target)
    ensures k in ShapesByKey(scratch) <==> k in ShapesByKey(target)
    ensures k in ShapesByKey(scratch) ==> ShapesByKey(scratch)[k] == ShapesByKey(target)[k]
  {
    ShapesCome(scratch);
    ShapesCome(target);
    if k in ShapesByKey(scratch) || k in ShapesByKey(target) {
      var t :| t in scratch + target && TableKey(t) == k;
      ShapesAgreeOn(scratch, scratch + target, t);
      ShapesAgreeOn(target, scratch + target, t);
    }
  }

  /** Two different tables with one identifier are not told apart: with equal contents
      the comparison of the one with the other reports nothing. */
  lemma SharedIdentIsMissed(a: Table, b: Table)
    requires a.Ident() == b.Ident() && TableKey(a) != TableKey(b) && a.Bare() == b.Bare()
    ensures FindingsOf([a], [b]) == [] && ShapesByKey([a]) != ShapesByKey([b])
  {
    NoFindingsMeansSameShape([a], [b]);
    ShapesStep([], a);
    ShapesStep([], b);
    assert [] + [a] == [a] && [] + [b] == [b];
    assert TableKey(a) in ShapesByKey([a]) && TableKey(a) !in ShapesByKey([b]);
  }

  lemma FirstDot(a: string, x: string)
    requires '.' !in a
    ensures (a + "." + x)[|a|] == '.' && forall i :: 0 <= i < |a| ==> (a + "." + x)[i] != '.'
    ensures (a + "." + x)[..|a|] == a && (a + "." + x)[|a| + 1..] == x
  {
    forall i | 0 <= i < |a|
      ensures (a + "." + x)[i] != '.'
    {
      assert a[i] in a;
    }
  }

  lemma IdentSplits(a: string, b: string, x: string, y: string)
    requires '.' !in a && '.' !in b && a + "." + x == b + "." + y
    ensures a == b && x == y
  {
    FirstDot(a, x);
    FirstDot(b, y);
  }

  /** Schemas that are named, without a dot, tell their tables apart. */
  lemma DotlessSchemasDistinguish(tables: seq<Table>)
    requires forall t :: t in tables ==> t.schema != "" && '.' !in t.schema
    ensures Distinguished(tables)
  {
    forall a, b | a in tables && b in tables && a.Ident() == b.Ident()
      ensures TableKey(a) == TableKey(b)
    {
      IdentSplits(a.schema, b.schema, a.name, b.name);
    }
  }

  /** An identifier that two tables share. */
  lemma DottedNamesCollide(columns: seq<Column>)
    ensures var a, b := Table("a.b", "c", "", columns, [], [], []), Table("a", "b.c", "", columns, [], [], []);
            FindingsOf([a], [b]) == [] && ShapesByKey([a]) != ShapesByKey([b])
  {
    var a, b := Table("a.b", "c", "", columns, [], [], []), Table("a", "b.c", "", columns, [], [], []);
    assert a.Ident() == b.Ident() == "a.b.c";
    SharedIdentIsMissed(a, b);
  }

  // ----- Notes -----

  /** The columns of a table without their generated names, positions kept. */
  ghost function Placed(columns: map<string, Column>): map<string, Column> {
    map n | n in columns :: columns[n].(pyName := "", pythonType := "")
  }

  lemma MovedMeans(a: map<string, Column>, b: map<string, Column>, names: seq<string>)
    requires BareColumns(a) == BareColumns(b) && forall n :: n in names <==> n in a
    ensures Moved(a, b, names) <==> Placed(a) != Placed(b)
  {
    assert BareColumns(a).Keys == a.Keys && BareColumns(b).Keys == b.Keys;
    assert Placed(a).Keys == a.Keys && Placed(b).Keys == b.Keys;
    forall n | n in a
      ensures Placed(a)[n] == Placed(b)[n] <==> a[n].ordinalPosition == b[n].ordinalPosition
    {
      assert BareColumns(a)[n] == BareColumns(b)[n];
      assert a[n].Bare() == b[n].Bare();
    }
  }

  /** A table is noted if and only if it has as many columns on both sides, its columns
      are the same but for their positions, and some position differs. */
  lemma NotesShowMovedColumns(table: string, s: Table, t: Table)
    ensures var a, b := ByKey(s.columns, ColumnName), ByKey(t.columns, ColumnName);
            Reordered(table, s, t) <==>
              |s.columns| == |t.columns| && BareColumns(a) == BareColumns(b) && Placed(a) != Placed(b)
  {
    var a, b := ByKey(s.columns, ColumnName), ByKey(t.columns, ColumnName);
    NoColumnFindings(table, s, t);
    if BareColumns(a) == BareColumns(b) {
      MovedAmong(s, t);
    }
  }

  lemma NoColumnFindings(table: string, s: Table, t: Table)
    ensures ColumnFindings(table, s, t) == [] <==>
            BareColumns(ByKey(s.columns, ColumnName)) == BareColumns(ByKey(t.columns, ColumnName))
  {
    ColumnMeans(table, s, t);
    SameColumns(s.columns, t.columns);
  }

  lemma MovedAmong(s: Table, t: Table)
    requires BareColumns(ByKey(s.columns, ColumnName)) == BareColumns(ByKey(t.columns, ColumnName))
    ensures Moved(ByKey(s.columns, ColumnName), ByKey(t.columns, ColumnName), ColumnOrder(s, t)) <==>
            Placed(ByKey(s.columns, ColumnName)) != Placed(ByKey(t.columns, ColumnName))
  {
    var a, b := ByKey(s.columns, ColumnName), ByKey(t.columns, ColumnName);
    ColumnOrderMeans(s, t);
    assert BareColumns(a).Keys == a.Keys && BareColumns(b).Keys == b.Keys;
    MovedMeans(a, b, ColumnOrder(s, t));
  }
}
