/** What the changes in a finding are worth: they give back either side of the comparison
    from the other. Source: internal/diff/compare.go. */
module Changes {
  import opened Diff
  import opened Comparison

  // ----- Indexes, foreign keys and checks -----

  function Rebuilt<T>(x: T, changes: seq<Change>, apply: (T, Change) -> T): T {
    if changes == [] then x
    else apply(Rebuilt(x, changes[..|changes| - 1], apply), changes[|changes| - 1])
  }

  lemma RebuiltWhen<T>(x: T, init: seq<Change>, differs: bool, change: Change, apply: (T, Change) -> T)
    ensures var before := Rebuilt(x, init, apply);
            Rebuilt(x, init + When(differs, change), apply) == if differs then apply(before, change) else before
  {
    var changes := init + When(differs, change);
    if differs {
      assert changes[..|changes| - 1] == init;
    } else {
      assert changes == init;
    }
  }

  function IndexAfter(i: Index, change: Change): Index {
    match change
    case Unique(_, t) => i.(unique := t)
    case Columns(_, t) => i.(columns := t)
    case _ => i
  }

  function ForeignKeyAfter(k: ForeignKey, change: Change): ForeignKey {
    match change
    case RefSchema(_, t) => k.(refSchema := t)
    case RefTable(_, t) => k.(refTable := t)
    case Columns(_, t) => k.(columns := t)
    case RefColumns(_, t) => k.(refColumns := t)
    case _ => k
  }

  function CheckAfter(c: Check, change: Change): Check {
    match change
    case Expression(_, t) => c.(expression := t)
    case _ => c
  }

  /** Both sides of the change are given, and they differ. */
  predicate Genuine(change: Change) {
    Reverse(change) != change
  }

  lemma WhenGenuine(differs: bool, change: Change)
    requires differs ==> Genuine(change)
    ensures AllGenuine(When(differs, change))
  {
  }

  ghost predicate AllGenuine(changes: seq<Change>) {
    forall c :: c in changes ==> Genuine(c)
  }

  lemma BothGenuine(a: seq<Change>, b: seq<Change>)
    requires AllGenuine(a) && AllGenuine(b)
    ensures AllGenuine(a + b)
  {
  }

  lemma IndexRebuilt(s: Index, t: Index)
    requires s.name == t.name
    ensures Rebuilt(s, IndexChanges(s, t), IndexAfter) == t
  {
    var w := When(s.unique != t.unique, Unique(s.unique, t.unique));
    assert [] + w == w;
    RebuiltWhen(s, [], s.unique != t.unique, Unique(s.unique, t.unique), IndexAfter);
    var x := Rebuilt(s, w, IndexAfter);
    assert x == s.(unique := t.unique);
    RebuiltWhen(s, w, s.columns != t.columns, Columns(s.columns, t.columns), IndexAfter);
  }

  lemma IndexSwapped(s: Index, t: Index)
    ensures IndexChanges(t, s) == Reversed(IndexChanges(s, t)) && AllGenuine(IndexChanges(s, t))
  {
    var unique, columns := Unique(s.unique, t.unique), Columns(s.columns, t.columns);
    var w1, w2 := When(s.unique != t.unique, unique), When(s.columns != t.columns, columns);
    ReversedAppends(w1, w2);
    ReversedWhen(s.unique != t.unique, unique);
    ReversedWhen(s.columns != t.columns, columns);
    WhenGenuine(s.unique != t.unique, unique);
    WhenGenuine(s.columns != t.columns, columns);
    BothGenuine(w1, w2);
  }

  /** The first two changes of a foreign key, and the other two on top of them. */
  lemma RefsRebuilt(s: ForeignKey, t: ForeignKey, w1: seq<Change>, w2: seq<Change>)
    requires w1 == When(s.refSchema != t.refSchema, RefSchema(s.refSchema, t.refSchema))
    requires w2 == When(s.refTable != t.refTable, RefTable(s.refTable, t.refTable))
    ensures Rebuilt(s, w1 + w2, ForeignKeyAfter) == s.(refSchema := t.refSchema, refTable := t.refTable)
  {
    assert [] + w1 == w1;
    RebuiltWhen(s, [], s.refSchema != t.refSchema, RefSchema(s.refSchema, t.refSchema), ForeignKeyAfter);
    RebuiltWhen(s, w1, s.refTable != t.refTable, RefTable(s.refTable, t.refTable), ForeignKeyAfter);
  }

  lemma ColumnsRebuilt(b: ForeignKey, init: seq<Change>, from: seq<string>, to: seq<string>)
    requires Rebuilt(b, init, ForeignKeyAfter).columns == from
    ensures Rebuilt(b, init + When(from != to, Columns(from, to)), ForeignKeyAfter) ==
            Rebuilt(b, init, ForeignKeyAfter).(columns := to)
  {
    RebuiltWhen(b, init, from != to, Columns(from, to), ForeignKeyAfter);
  }

  lemma RefColumnsRebuilt(b: ForeignKey, init: seq<Change>, from: seq<string>, to: seq<string>)
    requires Rebuilt(b, init, ForeignKeyAfter).refColumns == from
    ensures Rebuilt(b, init + When(from != to, RefColumns(from, to)), ForeignKeyAfter) ==
            Rebuilt(b, init, ForeignKeyAfter).(refColumns := to)
  {
    RebuiltWhen(b, init, from != to, RefColumns(from, to), ForeignKeyAfter);
  }

  lemma ForeignKeyRebuilt(s: ForeignKey, t: ForeignKey)
    requires s.name == t.name
    ensures Rebuilt(s, ForeignKeyChanges(s, t), ForeignKeyAfter) == t
  {
    var w1 := When(s.refSchema != t.refSchema, RefSchema(s.refSchema, t.refSchema));
    var w2 := When(s.refTable != t.refTable, RefTable(s.refTable, t.refTable));
    var w3 := When(s.columns != t.columns, Columns(s.columns, t.columns));
    var w4 := When(s.refColumns != t.refColumns, RefColumns(s.refColumns, t.refColumns));
    RefsRebuilt(s, t, w1, w2);
    ColumnsRebuilt(s, w1 + w2, s.columns, t.columns);
    RefColumnsRebuilt(s, w1 + w2 + w3, s.refColumns, t.refColumns);
    assert ForeignKeyChanges(s, t) == w1 + w2 + w3 + w4;
  }

  lemma ForeignKeySwapped(s: ForeignKey, t: ForeignKey)
    ensures ForeignKeyChanges(t, s) == Reversed(ForeignKeyChanges(s, t)) && AllGenuine(ForeignKeyChanges(s, t))
  {
    var schema, table := RefSchema(s.refSchema, t.refSchema), RefTable(s.refTable, t.refTable);
    var columns, refs := Columns(s.columns, t.columns), RefColumns(s.refColumns, t.refColumns);
    var w1, w2 := When(s.refSchema != t.refSchema, schema), When(s.refTable != t.refTable, table);
    var w3, w4 := When(s.columns != t.columns, columns), When(s.refColumns != t.refColumns, refs);
    ReversedAppends(w1 + w2 + w3, w4);
    ReversedAppends(w1 + w2, w3);
    ReversedAppends(w1, w2);
    ReversedWhen(s.refSchema != t.refSchema, schema);
    ReversedWhen(s.refTable != t.refTable, table);
    ReversedWhen(s.columns != t.columns, columns);
    ReversedWhen(s.refColumns != t.refColumns, refs);
    WhenGenuine(s.refSchema != t.refSchema, schema);
    WhenGenuine(s.refTable != t.refTable, table);
    WhenGenuine(s.columns != t.columns, columns);
    WhenGenuine(s.refColumns != t.refColumns, refs);
    BothGenuine(w1, w2);
    BothGenuine(w1 + w2, w3);
    BothGenuine(w1 + w2 + w3, w4);
  }

  lemma CheckRebuilt(s: Check, t: Check)
    requires s.name == t.name
    ensures Rebuilt(s, CheckChanges(s, t), CheckAfter) == t
    ensures CheckChanges(t, s) == Reversed(CheckChanges(s, t)) && AllGenuine(CheckChanges(s, t))
  {
    var w := When(s.expression != t.expression, Expression(s.expression, t.expression));
    assert [] + w == w;
    RebuiltWhen(s, [], s.expression != t.expression, Expression(s.expression, t.expression), CheckAfter);
    ReversedWhen(s.expression != t.expression, Expression(s.expression, t.expression));
    WhenGenuine(s.expression != t.expression, Expression(s.expression, t.expression));
  }

  /** The changes reported of an index rebuild the target's from the scratch one, and read
      backwards the scratch one from the target's; each of them is a difference. */
  lemma IndexChangesAreExact(s: Index, t: Index)
    requires s.name == t.name
    ensures Rebuilt(s, IndexChanges(s, t), IndexAfter) == t
    ensures Rebuilt(t, Reversed(IndexChanges(s, t)), IndexAfter) == s
    ensures AllGenuine(IndexChanges(s, t))
  {
    IndexRebuilt(s, t);
    IndexRebuilt(t, s);
    IndexSwapped(s, t);
  }

  /** The same for a foreign key. */
  lemma ForeignKeyChangesAreExact(s: ForeignKey, t: ForeignKey)
    requires s.name == t.name
    ensures Rebuilt(s, ForeignKeyChanges(s, t), ForeignKeyAfter) == t
    ensures Rebuilt(t, Reversed(ForeignKeyChanges(s, t)), ForeignKeyAfter) == s
    ensures AllGenuine(ForeignKeyChanges(s, t))
  {
    ForeignKeyRebuilt(s, t);
    ForeignKeyRebuilt(t, s);
    ForeignKeySwapped(s, t);
  }

  /** The same for a check. */
  lemma CheckChangesAreExact(s: Check, t: Check)
    requires s.name == t.name
    ensures Rebuilt(s, CheckChanges(s, t), CheckAfter) == t
    ensures Rebuilt(t, Reversed(CheckChanges(s, t)), CheckAfter) == s
    ensures AllGenuine(CheckChanges(s, t))
  {
    CheckRebuilt(s, t);
    CheckRebuilt(t, s);
  }

  /** Of a column too every reported change is a difference. */
  lemma ColumnChangesAreGenuine(s: Column, t: Column)
    ensures AllGenuine(ColumnChanges(s, t))
  {
    TypesGenuine(s, t);
    SizesGenuine(s, t);
    ValuesGenuine(s, t);
    BothGenuine(TypeChanges(s, t), SizeChanges(s, t));
    BothGenuine(TypeChanges(s, t) + SizeChanges(s, t), ValueChanges(s, t));
  }

  lemma TypesGenuine(s: Column, t: Column)
    ensures AllGenuine(TypeChanges(s, t))
  {
    WhenGenuine(s.dataType != t.dataType, DataType(s.dataType, t.dataType));
    WhenGenuine(s.isNullable != t.isNullable, Nullable(s.isNullable, t.isNullable));
  }

  lemma SizesGenuine(s: Column, t: Column)
    ensures AllGenuine(SizeChanges(s, t))
  {
    WhenGenuine(s.maxLength != t.maxLength, MaxLength(s.maxLength, t.maxLength));
    WhenGenuine(s.precision != t.precision, Precision(s.precision, t.precision));
    WhenGenuine(s.scale != t.scale, Scale(s.scale, t.scale));
  }

  lemma ValuesGenuine(s: Column, t: Column)
    ensures AllGenuine(ValueChanges(s, t))
  {
    WhenGenuine(s.defaultValue != t.defaultValue, Default(s.defaultValue, t.defaultValue));
    WhenGenuine(s.isPrimaryKey != t.isPrimaryKey, PrimaryKey(s.isPrimaryKey, t.isPrimaryKey));
  }

  /** Which attributes of a column are compared: all but its position and the generated
      names. */
  lemma ColumnsCompared(s: Column, t: Column)
    requires s.name == t.name
    ensures ColumnChanges(s, t) == [] <==>
            && s.dataType == t.dataType && s.isNullable == t.isNullable
            && s.maxLength == t.maxLength && s.precision == t.precision && s.scale == t.scale
            && s.defaultValue == t.defaultValue && s.isPrimaryKey == t.isPrimaryKey
  {
    NoColumnChanges(s, t);
  }

  // ----- The detail of a finding -----

  /** The detail tells the two objects of that name apart, exactly. */
  ghost predicate TellsApart(f: Finding, s: Table, t: Table) {
    match f.obj
    case TableObject => f.detail == []
    case ColumnObject =>
      && f.name in ByKey(s.columns, ColumnName) && f.name in ByKey(t.columns, ColumnName)
      && var a, b := ByKey(s.columns, ColumnName)[f.name], ByKey(t.columns, ColumnName)[f.name];
         Patched(a, f.detail).Bare() == b.Bare() && Patched(b, Reversed(f.detail)).Bare() == a.Bare()
    case IndexObject =>
      && f.name in ByKey(s.indexes, IndexName) && f.name in ByKey(t.indexes, IndexName)
      && var a, b := ByKey(s.indexes, IndexName)[f.name], ByKey(t.indexes, IndexName)[f.name];
         Rebuilt(a, f.detail, IndexAfter) == b && Rebuilt(b, Reversed(f.detail), IndexAfter) == a
    case ForeignKeyObject =>
      && f.name in ByKey(s.foreignKeys, ForeignKeyName) && f.name in ByKey(t.foreignKeys, ForeignKeyName)
      && var a, b := ByKey(s.foreignKeys, ForeignKeyName)[f.name], ByKey(t.foreignKeys, ForeignKeyName)[f.name];
         Rebuilt(a, f.detail, ForeignKeyAfter) == b && Rebuilt(b, Reversed(f.detail), ForeignKeyAfter) == a
    case CheckObject =>
      && f.name in ByKey(s.checks, CheckName) && f.name in ByKey(t.checks, CheckName)
      && var a, b := ByKey(s.checks, CheckName)[f.name], ByKey(t.checks, CheckName)[f.name];
         Rebuilt(a, f.detail, CheckAfter) == b && Rebuilt(b, Reversed(f.detail), CheckAfter) == a
  }

  lemma KeyDetail<T>(table: string, obj: Object, s: map<string, T>, t: map<string, T>, diff: (T, T) -> seq<Change>,
                     f: Finding)
    requires f in KeyFindings(table, obj, s, t, diff, f.name)
    ensures f.kind == Changed ==> f.name in s && f.name in t && f.detail == diff(s[f.name], t[f.name])
    ensures f.kind != Changed ==> f.detail == []
  {
  }

  lemma ListedDetail<T>(table: string, obj: Object, s: map<string, T>, t: map<string, T>,
                        diff: (T, T) -> seq<Change>, f: Finding)
    requires f in ListedFindings(table, obj, s, t, diff)
    ensures f.kind == Changed ==> f.name in s && f.name in t && f.detail == diff(s[f.name], t[f.name])
    ensures f.kind != Changed ==> f.detail == []
  {
    ListedMeans(table, obj, s, t, diff);
    KeyDetail(table, obj, s, t, diff, f);
  }

  lemma PartDetail(table: string, s: Table, t: Table, f: Finding)
    requires f in PartFor(f.obj, table, s, t)
    ensures if f.kind == Changed then TellsApart(f, s, t) else f.detail == []
  {
    match f.obj
    case TableObject =>
    case ColumnObject => ColumnDetail(table, s, t, f);
    case IndexObject => IndexDetail(table, s, t, f);
    case ForeignKeyObject => ForeignKeyDetail(table, s, t, f);
    case CheckObject => CheckDetail(table, s, t, f);
  }

  lemma ColumnDetail(table: string, s: Table, t: Table, f: Finding)
    requires f in ColumnFindings(table, s, t) && f.obj == ColumnObject
    ensures if f.kind == Changed then TellsApart(f, s, t) else f.detail == []
  {
    var m, n := ByKey(s.columns, ColumnName), ByKey(t.columns, ColumnName);
    ByKeyMeans(s.columns, ColumnName);
    ByKeyMeans(t.columns, ColumnName);
    ColumnMeans(table, s, t);
    KeyDetail(table, ColumnObject, m, n, ColumnChanges, f);
    if f.kind == Changed {
      ChangesAreExact(m[f.name], n[f.name]);
    }
  }

  lemma IndexDetail(table: string, s: Table, t: Table, f: Finding)
    requires f in IndexFindings(table, s, t) && f.obj == IndexObject
    ensures if f.kind == Changed then TellsApart(f, s, t) else f.detail == []
  {
    var m, n := ByKey(s.indexes, IndexName), ByKey(t.indexes, IndexName);
    ByKeyMeans(s.indexes, IndexName);
    ByKeyMeans(t.indexes, IndexName);
    ListedDetail(table, IndexObject, m, n, IndexChanges, f);
    if f.kind == Changed {
      IndexChangesAreExact(m[f.name], n[f.name]);
    }
  }

  lemma ForeignKeyDetail(table: string, s: Table, t: Table, f: Finding)
    requires f in ForeignKeyFindings(table, s, t) && f.obj == ForeignKeyObject
    ensures if f.kind == Changed then TellsApart(f, s, t) else f.detail == []
  {
    var m, n := ByKey(s.foreignKeys, ForeignKeyName), ByKey(t.foreignKeys, ForeignKeyName);
    ByKeyMeans(s.foreignKeys, ForeignKeyName);
    ByKeyMeans(t.foreignKeys, ForeignKeyName);
    ListedDetail(table, ForeignKeyObject, m, n, ForeignKeyChanges, f);
    if f.kind == Changed {
      ForeignKeyChangesAreExact(m[f.name], n[f.name]);
    }
  }

  lemma CheckDetail(table: string, s: Table, t: Table, f: Finding)
    requires f in CheckFindings(table, s, t) && f.obj == CheckObject
    ensures if f.kind == Changed then TellsApart(f, s, t) else f.detail == []
  {
    var m, n := ByKey(s.checks, CheckName), ByKey(t.checks, CheckName);
    ByKeyMeans(s.checks, CheckName);
    ByKeyMeans(t.checks, CheckName);
    ListedDetail(table, CheckObject, m, n, CheckChanges, f);
    if f.kind == Changed {
      CheckChangesAreExact(m[f.name], n[f.name]);
    }
  }

  /** Every finding that reports a change holds changes that rebuild either object from the
      other; every other finding holds none. */
  lemma DetailsAreExact(scratch: seq<Table>, target: seq<Table>, f: Finding)
    requires f in FindingsOf(scratch, target)
    ensures var s, t := ByKey(scratch, TableIdent), ByKey(target, TableIdent);
            if f.kind == Changed then
              f.table in s && f.table in t && TellsApart(f, s[f.table], t[f.table])
            else f.detail == []
  {
    var s, t := ByKey(scratch, TableIdent), ByKey(target, TableIdent);
    FindingsOfMean(scratch, target);
    if f.table in s && f.table in t {
      FindingsByObject(f.table, s[f.table], t[f.table], f);
      PartDetail(f.table, s[f.table], t[f.table], f);
    }
  }
}
