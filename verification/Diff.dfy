/** The structural comparison of two introspected schemas.
    Sources: internal/diff/compare.go, internal/generate/introspect.go. */
module Diff {
  import opened Names

  // ----- The schemas -----

  /** A nullable value; the number of an invalid one is compared too, as Go does. */
  datatype NullInt = NullInt(value: int, valid: bool)

  datatype NullString = NullString(text: string, valid: bool)

  datatype Column = Column(
    name: string, pyName: string, dataType: string, pythonType: string, isNullable: bool,
    maxLength: NullInt, precision: NullInt, scale: NullInt, ordinalPosition: int,
    defaultValue: NullString, isPrimaryKey: bool)
  {
    /** The column without its position and its generated names. */
    function Bare(): Column {
      this.(pyName := "", pythonType := "", ordinalPosition := 0)
    }
  }

  datatype Index = Index(name: string, columns: seq<string>, unique: bool)

  datatype ForeignKey = ForeignKey(name: string, columns: seq<string>, refSchema: string, refTable: string,
                                   refColumns: seq<string>)

  datatype Check = Check(name: string, expression: string)

  datatype Table = Table(
    schema: string, name: string, className: string, columns: seq<Column>, indexes: seq<Index>,
    foreignKeys: seq<ForeignKey>, checks: seq<Check>)
  {
    function Ident(): string {
      if schema != "" then schema + "." + name else name
    }

    /** What the table is, whatever the order of its lists and the generated names. */
    function Bare(): Shape {
      Shape(BareColumns(ByKey(columns, ColumnName)), ByKey(indexes, IndexName), ByKey(foreignKeys, ForeignKeyName),
            ByKey(checks, CheckName))
    }
  }

  datatype Shape = Shape(
    columns: map<string, Column>, indexes: map<string, Index>,
    foreignKeys: map<string, ForeignKey>, checks: map<string, Check>)

  function BareColumns(columns: map<string, Column>): map<string, Column> {
    map n | n in columns :: columns[n].Bare()
  }

  function ColumnName(c: Column): string { c.name }
  function IndexName(i: Index): string { i.name }
  function ForeignKeyName(f: ForeignKey): string { f.name }
  function CheckName(c: Check): string { c.name }
  function TableIdent(t: Table): string { t.Ident() }

  // ----- The findings -----

  datatype Kind = Missing | Extra | Changed {
    function Mirror(): Kind {
      match this
      case Missing => Extra
      case Extra => Missing
      case Changed => Changed
    }
  }

  datatype Object = TableObject | ColumnObject | IndexObject | ForeignKeyObject | CheckObject

  /** One attribute and its two values. */
  datatype Change =
    | DataType(s: string, t: string)
    | Nullable(sNull: bool, tNull: bool)
    | MaxLength(sInt: NullInt, tInt: NullInt)
    | Precision(sInt: NullInt, tInt: NullInt)
    | Scale(sInt: NullInt, tInt: NullInt)
    | Default(sDefault: NullString, tDefault: NullString)
    | PrimaryKey(sKey: bool, tKey: bool)
    | Unique(sUnique: bool, tUnique: bool)
    | Columns(sColumns: seq<string>, tColumns: seq<string>)
    | RefSchema(s: string, t: string)
    | RefTable(s: string, t: string)
    | RefColumns(sColumns: seq<string>, tColumns: seq<string>)
    | Expression(s: string, t: string)

  /** The detail of a missing or an extra object says nothing more than its kind. */
  datatype Finding = Finding(kind: Kind, obj: Object, table: string, name: string, detail: seq<Change>)

  // ----- Maps by name -----

  /** A later duplicate replaces an earlier one. */
  function ByKey<T>(items: seq<T>, key: T -> string): map<string, T> {
    if items == [] then map[]
    else ByKey(items[..|items| - 1], key)[key(items[|items| - 1]) := items[|items| - 1]]
  }

  method IndexBy<T>(items: seq<T>, key: T -> string) returns (m: map<string, T>)
    ensures m == ByKey(items, key)
  {
    m := map[];
    for i := 0 to |items|
      invariant m == ByKey(items[..i], key)
    {
      assert items[..i + 1][..i] == items[..i];
      m := m[key(items[i]) := items[i]];
    }
    assert items[..|items|] == items;
  }

  lemma {:induction false} ByKeyMeans<T>(items: seq<T>, key: T -> string)
    ensures var m := ByKey(items, key);
            && (forall k :: k in m ==> m[k] in items && key(m[k]) == k)
            && (forall x :: x in items ==> key(x) in m)
  {
    if items != [] {
      var init, last := items[..|items| - 1], items[|items| - 1];
      ByKeyMeans(init, key);
      assert forall x :: x in items <==> x in init || x == last;
    }
  }

  // ----- What a comparison reports -----

  function When(differs: bool, c: Change): (r: seq<Change>)
    ensures r == [] <==> !differs
  {
    if differs then [c] else []
  }

  function TypeChanges(s: Column, t: Column): seq<Change> {
    When(s.dataType != t.dataType, DataType(s.dataType, t.dataType)) +
    When(s.isNullable != t.isNullable, Nullable(s.isNullable, t.isNullable))
  }

  function SizeChanges(s: Column, t: Column): seq<Change> {
    When(s.maxLength != t.maxLength, MaxLength(s.maxLength, t.maxLength)) +
    When(s.precision != t.precision, Precision(s.precision, t.precision)) +
    When(s.scale != t.scale, Scale(s.scale, t.scale))
  }

  function ValueChanges(s: Column, t: Column): seq<Change> {
    When(s.defaultValue != t.defaultValue, Default(s.defaultValue, t.defaultValue)) +
    When(s.isPrimaryKey != t.isPrimaryKey, PrimaryKey(s.isPrimaryKey, t.isPrimaryKey))
  }

  function ColumnChanges(s: Column, t: Column): seq<Change> {
    TypeChanges(s, t) + SizeChanges(s, t) + ValueChanges(s, t)
  }

  function IndexChanges(s: Index, t: Index): seq<Change> {
    When(s.unique != t.unique, Unique(s.unique, t.unique)) +
    When(s.columns != t.columns, Columns(s.columns, t.columns))
  }

  function ForeignKeyChanges(s: ForeignKey, t: ForeignKey): seq<Change> {
    When(s.refSchema != t.refSchema, RefSchema(s.refSchema, t.refSchema)) +
    When(s.refTable != t.refTable, RefTable(s.refTable, t.refTable)) +
    When(s.columns != t.columns, Columns(s.columns, t.columns)) +
    When(s.refColumns != t.refColumns, RefColumns(s.refColumns, t.refColumns))
  }

  function CheckChanges(s: Check, t: Check): seq<Change> {
    When(s.expression != t.expression, Expression(s.expression, t.expression))
  }

  /** The finding about one key of two maps, or none. */
  function KeyFindings<T>(table: string, obj: Object, s: map<string, T>, t: map<string, T>,
                          diff: (T, T) -> seq<Change>, k: string): seq<Finding> {
    if k in s && k !in t then [Finding(Missing, obj, table, k, [])]
    else if k !in s && k in t then [Finding(Extra, obj, table, k, [])]
    else if k in s && k in t && diff(s[k], t[k]) != [] then [Finding(Changed, obj, table, k, diff(s[k], t[k]))]
    else []
  }

  function KeyedFindings<T>(table: string, obj: Object, s: map<string, T>, t: map<string, T>,
                            diff: (T, T) -> seq<Change>, keys: seq<string>): seq<Finding> {
    if keys == [] then []
    else
      KeyedFindings(table, obj, s, t, diff, keys[..|keys| - 1]) +
      KeyFindings(table, obj, s, t, diff, keys[|keys| - 1])
  }

  /** The columns in the order they are reported: the scratch table's, then the ones only
      the target has. */
  function ColumnOrder(s: Table, t: Table): seq<string> {
    ColumnNames(s.columns) + OtherNames(t.columns, ByKey(s.columns, ColumnName).Keys)
  }

  function ColumnNames(columns: seq<Column>): (names: seq<string>) {
    if columns == [] then [] else ColumnNames(columns[..|columns| - 1]) + [columns[|columns| - 1].name]
  }

  function OtherNames(columns: seq<Column>, known: set<string>): seq<string> {
    if columns == [] then []
    else
      var rest, last := OtherNames(columns[..|columns| - 1], known), columns[|columns| - 1].name;
      if last in known then rest else rest + [last]
  }

  function ColumnFindings(table: string, s: Table, t: Table): seq<Finding> {
    KeyedFindings(table, ColumnObject, ByKey(s.columns, ColumnName), ByKey(t.columns, ColumnName), ColumnChanges,
                  ColumnOrder(s, t))
  }

  ghost function ListedFindings<T>(table: string, obj: Object, s: map<string, T>, t: map<string, T>,
                                   diff: (T, T) -> seq<Change>): seq<Finding> {
    KeyedFindings(table, obj, s, t, diff, Listing(s.Keys + t.Keys))
  }

  ghost function IndexFindings(table: string, s: Table, t: Table): seq<Finding> {
    ListedFindings(table, IndexObject, ByKey(s.indexes, IndexName), ByKey(t.indexes, IndexName), IndexChanges)
  }

  ghost function ForeignKeyFindings(table: string, s: Table, t: Table): seq<Finding> {
    ListedFindings(table, ForeignKeyObject, ByKey(s.foreignKeys, ForeignKeyName), ByKey(t.foreignKeys, ForeignKeyName),
                   ForeignKeyChanges)
  }

  ghost function CheckFindings(table: string, s: Table, t: Table): seq<Finding> {
    ListedFindings(table, CheckObject, ByKey(s.checks, CheckName), ByKey(t.checks, CheckName), CheckChanges)
  }

  ghost function TableFindings(table: string, s: Table, t: Table): seq<Finding> {
    ColumnFindings(table, s, t) + IndexFindings(table, s, t) +
    ForeignKeyFindings(table, s, t) + CheckFindings(table, s, t)
  }

  /** Some column stands at two positions. */
  ghost predicate Moved(s: map<string, Column>, t: map<string, Column>, names: seq<string>) {
    exists n :: n in names && n in s && n in t && s[n].ordinalPosition != t[n].ordinalPosition
  }

  /** The columns differ in their positions only. */
  ghost predicate Reordered(table: string, s: Table, t: Table) {
    && ColumnFindings(table, s, t) == [] && |s.columns| == |t.columns|
    && Moved(ByKey(s.columns, ColumnName), ByKey(t.columns, ColumnName), ColumnOrder(s, t))
  }

  ghost function IdentFindings(s: map<string, Table>, t: map<string, Table>, k: string): seq<Finding> {
    if k in s && k in t then TableFindings(k, s[k], t[k])
    else if k in s then [Finding(Missing, TableObject, k, "", [])]
    else if k in t then [Finding(Extra, TableObject, k, "", [])]
    else []
  }

  ghost function Findings(s: map<string, Table>, t: map<string, Table>, keys: seq<string>): seq<Finding> {
    if keys == [] then []
    else Findings(s, t, keys[..|keys| - 1]) + IdentFindings(s, t, keys[|keys| - 1])
  }

  /** The tables to note: one informational line each, never a finding. */
  ghost function Notes(s: map<string, Table>, t: map<string, Table>, keys: seq<string>): seq<string> {
    if keys == [] then []
    else
      var k := keys[|keys| - 1];
      Notes(s, t, keys[..|keys| - 1]) + if k in s && k in t && Reordered(k, s[k], t[k]) then [k] else []
  }

  // ----- The code -----

  lemma KeyedStep<T>(table: string, obj: Object, s: map<string, T>, t: map<string, T>, diff: (T, T) -> seq<Change>,
                     keys: seq<string>, i: nat)
    requires i < |keys|
    ensures KeyedFindings(table, obj, s, t, diff, keys[..i + 1]) ==
            KeyedFindings(table, obj, s, t, diff, keys[..i]) + KeyFindings(table, obj, s, t, diff, keys[i])
  {
    assert keys[..i + 1][..i] == keys[..i];
  }

  method DiffKeyed<T>(table: string, obj: Object, s: map<string, T>, t: map<string, T>, diff: (T, T) -> seq<Change>)
    returns (findings: seq<Finding>)
    ensures findings == ListedFindings(table, obj, s, t, diff)
  {
    findings := [];
    var keys := SortedKeys(s, t);
    for i := 0 to |keys|
      invariant findings == KeyedFindings(table, obj, s, t, diff, keys[..i])
    {
      KeyedStep(table, obj, s, t, diff, keys, i);
      var more := DiffKey(table, obj, s, t, diff, keys[i]);
      findings := findings + more;
    }
    assert keys[..|keys|] == keys;
  }

  method DiffKey<T>(table: string, obj: Object, s: map<string, T>, t: map<string, T>, diff: (T, T) -> seq<Change>,
                    name: string)
    returns (findings: seq<Finding>)
    ensures findings == KeyFindings(table, obj, s, t, diff, name)
  {
    findings := [];
    if name in s && name !in t {
      findings := [Finding(Missing, obj, table, name, [])];
    } else if name !in s && name in t {
      findings := [Finding(Extra, obj, table, name, [])];
    } else if name in s && name in t {
      var diffs := diff(s[name], t[name]);
      if |diffs| > 0 {
        findings := [Finding(Changed, obj, table, name, diffs)];
      }
    }
  }

  method OrderColumns(s: Table, t: Table, known: set<string>) returns (names: seq<string>)
    requires known == ByKey(s.columns, ColumnName).Keys
    ensures names == ColumnOrder(s, t)
  {
    names := [];
    for i := 0 to |s.columns|
      invariant names == ColumnNames(s.columns[..i])
    {
      assert s.columns[..i + 1][..i] == s.columns[..i];
      names := names + [s.columns[i].name];
    }
    assert s.columns[..|s.columns|] == s.columns;
    for i := 0 to |t.columns|
      invariant names == ColumnNames(s.columns) + OtherNames(t.columns[..i], known)
    {
      assert t.columns[..i + 1][..i] == t.columns[..i];
      if t.columns[i].name !in known {
        names := names + [t.columns[i].name];
      }
    }
    assert t.columns[..|t.columns|] == t.columns;
  }

  /** One column: what differs, and whether it moved. */
  method CompareColumn(table: string, name: string, sCols: map<string, Column>, tCols: map<string, Column>)
    returns (findings: seq<Finding>, moved: bool)
    ensures findings == KeyFindings(table, ColumnObject, sCols, tCols, ColumnChanges, name)
    ensures moved <==> Moved(sCols, tCols, [name])
  {
    findings, moved := [], false;
    assert name in [name];
    if name in sCols && name !in tCols {
      findings := [Finding(Missing, ColumnObject, table, name, [])];
    } else if name !in sCols && name in tCols {
      findings := [Finding(Extra, ColumnObject, table, name, [])];
    } else if name in sCols && name in tCols {
      var diffs := ColumnChanges(sCols[name], tCols[name]);
      if |diffs| > 0 {
        findings := [Finding(Changed, ColumnObject, table, name, diffs)];
      }
      moved := sCols[name].ordinalPosition != tCols[name].ordinalPosition;
    }
  }

  method CompareColumns(table: string, s: Table, t: Table) returns (findings: seq<Finding>, reordered: bool)
    ensures findings == ColumnFindings(table, s, t)
    ensures reordered <==> Reordered(table, s, t)
  {
    var sCols := IndexBy(s.columns, ColumnName);
    var tCols := IndexBy(t.columns, ColumnName);
    var names := OrderColumns(s, t, sCols.Keys);
    var hasColDiff, ordinalDiff := false, false;
    findings := [];
    for i := 0 to |names|
      invariant findings == KeyedFindings(table, ColumnObject, sCols, tCols, ColumnChanges, names[..i])
      invariant hasColDiff <==> findings != []
      invariant ordinalDiff <==> Moved(sCols, tCols, names[..i])
    {
      KeyedStep(table, ColumnObject, sCols, tCols, ColumnChanges, names, i);
      var more, moved := CompareColumn(table, names[i], sCols, tCols);
      MovedStep(sCols, tCols, names, i);
      if more != [] {
        hasColDiff := true;
      }
      if moved {
        ordinalDiff := true;
      }
      findings := findings + more;
    }
    assert names[..|names|] == names;
    reordered := !hasColDiff && ordinalDiff && |s.columns| == |t.columns|;
  }

  lemma MovedStep(s: map<string, Column>, t: map<string, Column>, names: seq<string>, i: nat)
    requires i < |names|
    ensures Moved(s, t, names[..i + 1]) <==> Moved(s, t, names[..i]) || Moved(s, t, [names[i]])
  {
    assert forall n :: n in names[..i + 1] <==> n in names[..i] || n in [names[i]];
  }

  method CompareTable(table: string, s: Table, t: Table) returns (findings: seq<Finding>, notes: seq<string>)
    ensures findings == TableFindings(table, s, t)
    ensures notes == if Reordered(table, s, t) then [table] else []
  {
    var columns, reordered := CompareColumns(table, s, t);
    notes := if reordered then [table] else [];
    var sIndexes := IndexBy(s.indexes, IndexName);
    var tIndexes := IndexBy(t.indexes, IndexName);
    var indexes := DiffKeyed(table, IndexObject, sIndexes, tIndexes, IndexChanges);
    var sKeys := IndexBy(s.foreignKeys, ForeignKeyName);
    var tKeys := IndexBy(t.foreignKeys, ForeignKeyName);
    var foreignKeys := DiffKeyed(table, ForeignKeyObject, sKeys, tKeys, ForeignKeyChanges);
    var sChecks := IndexBy(s.checks, CheckName);
    var tChecks := IndexBy(t.checks, CheckName);
    var checks := DiffKeyed(table, CheckObject, sChecks, tChecks, CheckChanges);
    findings := columns + indexes + foreignKeys + checks;
  }

  /** Every structural difference, table by table in ascending order, and the tables
      whose columns only changed places. */
  method Compare(scratch: seq<Table>, target: seq<Table>) returns (findings: seq<Finding>, notes: seq<string>)
    ensures findings == FindingsOf(scratch, target)
    ensures notes == NotesOf(scratch, target)
    ensures findings == [] <==> Shapes(scratch) == Shapes(target)
  {
    var s := IndexBy(scratch, TableIdent);
    var t := IndexBy(target, TableIdent);
    findings, notes := CompareMaps(s, t);
    NoFindingsMeansSameShape(scratch, target);
  }

  lemma CompareStep(s: map<string, Table>, t: map<string, Table>, keys: seq<string>, i: nat)
    requires i < |keys|
    ensures Findings(s, t, keys[..i + 1]) == Findings(s, t, keys[..i]) + IdentFindings(s, t, keys[i])
    ensures Notes(s, t, keys[..i + 1]) ==
            Notes(s, t, keys[..i]) +
            if keys[i] in s && keys[i] in t && Reordered(keys[i], s[keys[i]], t[keys[i]]) then [keys[i]] else []
  {
    assert keys[..i + 1][..i] == keys[..i];
  }

  method CompareMaps(s: map<string, Table>, t: map<string, Table>) returns (findings: seq<Finding>, notes: seq<string>)
    ensures findings == Findings(s, t, Listing(s.Keys + t.Keys))
    ensures notes == Notes(s, t, Listing(s.Keys + t.Keys))
  {
    findings, notes := [], [];
    var keys := SortedKeys(s, t);
    for i := 0 to |keys|
      invariant findings == Findings(s, t, keys[..i])
      invariant notes == Notes(s, t, keys[..i])
    {
      CompareStep(s, t, keys, i);
      var more, moreNotes := CompareIdent(s, t, keys[i]);
      findings := findings + more;
      notes := notes + moreNotes;
    }
    assert keys[..|keys|] == keys;
  }

  method CompareIdent(s: map<string, Table>, t: map<string, Table>, k: string)
    returns (findings: seq<Finding>, notes: seq<string>)
    ensures findings == IdentFindings(s, t, k)
    ensures notes == if k in s && k in t && Reordered(k, s[k], t[k]) then [k] else []
  {
    findings, notes := [], [];
    if k in s && k !in t {
      findings := [Finding(Missing, TableObject, k, "", [])];
    } else if k !in s && k in t {
      findings := [Finding(Extra, TableObject, k, "", [])];
    } else if k in s && k in t {
      findings, notes := CompareTable(k, s[k], t[k]);
    }
  }

  ghost function FindingsOf(scratch: seq<Table>, target: seq<Table>): seq<Finding> {
    var s, t := ByKey(scratch, TableIdent), ByKey(target, TableIdent);
    Findings(s, t, Listing(s.Keys + t.Keys))
  }

  ghost function NotesOf(scratch: seq<Table>, target: seq<Table>): seq<string> {
    var s, t := ByKey(scratch, TableIdent), ByKey(target, TableIdent);
    Notes(s, t, Listing(s.Keys + t.Keys))
  }

  /** A schema up to the order of its lists, column positions and generated names. */
  function Shapes(tables: seq<Table>): map<string, Shape> {
    Bares(ByKey(tables, TableIdent))
  }

  // ----- No finding means the same structure -----

  lemma {:induction false} KeyedMeans<T>(table: string, obj: Object, s: map<string, T>, t: map<string, T>,
                                         diff: (T, T) -> seq<Change>, keys: seq<string>)
    ensures forall f :: f in KeyedFindings(table, obj, s, t, diff, keys) <==>
                        f.name in keys && f in KeyFindings(table, obj, s, t, diff, f.name)
    decreases |keys|
  {
    if keys != [] {
      var init, last := keys[..|keys| - 1], keys[|keys| - 1];
      KeyedMeans(table, obj, s, t, diff, init);
      assert forall k :: k in keys <==> k in init || k == last;
    }
  }

  ghost predicate Same<T>(s: map<string, T>, t: map<string, T>, diff: (T, T) -> seq<Change>) {
    s.Keys == t.Keys && forall k :: k in s.Keys ==> diff(s[k], t[k]) == []
  }

  /** A finding about one of the keys is among the findings about all of them. */
  lemma KeyShows<T>(table: string, obj: Object, s: map<string, T>, t: map<string, T>, diff: (T, T) -> seq<Change>,
                    keys: seq<string>, k: string)
    requires k in keys
    ensures KeyFindings(table, obj, s, t, diff, k) != [] ==> KeyedFindings(table, obj, s, t, diff, keys) != []
  {
    KeyedMeans(table, obj, s, t, diff, keys);
    if KeyFindings(table, obj, s, t, diff, k) != [] {
      var f := KeyFindings(table, obj, s, t, diff, k)[0];
      assert f.name == k && f in KeyedFindings(table, obj, s, t, diff, keys);
    }
  }

  lemma SameShowsNothing<T>(table: string, obj: Object, s: map<string, T>, t: map<string, T>,
                            diff: (T, T) -> seq<Change>, keys: seq<string>)
    requires Same(s, t, diff)
    ensures KeyedFindings(table, obj, s, t, diff, keys) == []
    decreases |keys|
  {
    if keys != [] {
      SameShowsNothing(table, obj, s, t, diff, keys[..|keys| - 1]);
    }
  }

  lemma NothingShownIsSame<T>(table: string, obj: Object, s: map<string, T>, t: map<string, T>,
                              diff: (T, T) -> seq<Change>, keys: seq<string>)
    requires forall k :: k in s || k in t ==> k in keys
    requires KeyedFindings(table, obj, s, t, diff, keys) == []
    ensures Same(s, t, diff)
  {
    forall k | k in s || k in t
      ensures k in s && k in t && diff(s[k], t[k]) == []
    {
      KeyShows(table, obj, s, t, diff, keys, k);
    }
  }

  lemma NoKeyedFindings<T>(table: string, obj: Object, s: map<string, T>, t: map<string, T>,
                           diff: (T, T) -> seq<Change>, keys: seq<string>)
    requires forall k :: k in keys <==> k in s || k in t
    ensures KeyedFindings(table, obj, s, t, diff, keys) == [] <==> Same(s, t, diff)
  {
    if Same(s, t, diff) {
      SameShowsNothing(table, obj, s, t, diff, keys);
    }
    if KeyedFindings(table, obj, s, t, diff, keys) == [] {
      NothingShownIsSame(table, obj, s, t, diff, keys);
    }
  }

  lemma ListedMeans<T>(table: string, obj: Object, s: map<string, T>, t: map<string, T>, diff: (T, T) -> seq<Change>)
    ensures ListedFindings(table, obj, s, t, diff) == [] <==> Same(s, t, diff)
    ensures forall f :: f in ListedFindings(table, obj, s, t, diff) <==>
            f in KeyFindings(table, obj, s, t, diff, f.name)
  {
    var keys := Listing(s.Keys + t.Keys);
    assert forall k :: k in keys <==> k in Elements(keys);
    NoKeyedFindings(table, obj, s, t, diff, keys);
    KeyedMeans(table, obj, s, t, diff, keys);
  }

  lemma {:induction false} OtherNamesMean(columns: seq<Column>, known: set<string>)
    ensures forall n :: n in OtherNames(columns, known) <==> n in ColumnNames(columns) && n !in known
  {
    if columns != [] {
      OtherNamesMean(columns[..|columns| - 1], known);
    }
  }

  lemma {:induction false} ColumnNamesMean(columns: seq<Column>)
    ensures forall n :: n in ColumnNames(columns) <==> n in ByKey(columns, ColumnName)
  {
    if columns != [] {
      ColumnNamesMean(columns[..|columns| - 1]);
    }
  }

  lemma ColumnOrderMeans(s: Table, t: Table)
    ensures forall n :: n in ColumnOrder(s, t) <==>
            n in ByKey(s.columns, ColumnName) || n in ByKey(t.columns, ColumnName)
  {
    ColumnNamesMean(s.columns);
    ColumnNamesMean(t.columns);
    OtherNamesMean(t.columns, ByKey(s.columns, ColumnName).Keys);
  }

  lemma ColumnMeans(table: string, s: Table, t: Table)
    ensures ColumnFindings(table, s, t) == [] <==>
            Same(ByKey(s.columns, ColumnName), ByKey(t.columns, ColumnName), ColumnChanges)
    ensures forall f :: f in ColumnFindings(table, s, t) <==>
                        f in KeyFindings(table, ColumnObject, ByKey(s.columns, ColumnName),
                                         ByKey(t.columns, ColumnName), ColumnChanges, f.name)
  {
    ColumnOrderMeans(s, t);
    NoKeyedFindings(table, ColumnObject, ByKey(s.columns, ColumnName), ByKey(t.columns, ColumnName), ColumnChanges,
                    ColumnOrder(s, t));
    KeyedMeans(table, ColumnObject, ByKey(s.columns, ColumnName), ByKey(t.columns, ColumnName), ColumnChanges,
               ColumnOrder(s, t));
  }

  lemma NoColumnChanges(s: Column, t: Column)
    requires s.name == t.name
    ensures ColumnChanges(s, t) == [] <==> s.Bare() == t.Bare()
  {
  }

  lemma BareMapsAgree(a: map<string, Column>, b: map<string, Column>)
    ensures BareColumns(a) == BareColumns(b) <==>
            a.Keys == b.Keys && forall n :: n in a.Keys ==> a[n].Bare() == b[n].Bare()
  {
    var a', b' := BareColumns(a), BareColumns(b);
    assert a'.Keys == a.Keys && b'.Keys == b.Keys;
    if a' == b' {
      forall n | n in a.Keys
        ensures a[n].Bare() == b[n].Bare()
      {
        assert a'[n] == b'[n];
      }
    }
  }

  lemma SameBareColumns(a: map<string, Column>, b: map<string, Column>)
    requires forall n :: n in a ==> a[n].name == n
    requires forall n :: n in b ==> b[n].name == n
    ensures Same(a, b, ColumnChanges) <==> BareColumns(a) == BareColumns(b)
  {
    BareMapsAgree(a, b);
    forall n | n in a && n in b
      ensures ColumnChanges(a[n], b[n]) == [] <==> a[n].Bare() == b[n].Bare()
    {
      NoColumnChanges(a[n], b[n]);
    }
  }

  lemma SameColumns(s: seq<Column>, t: seq<Column>)
    ensures Same(ByKey(s, ColumnName), ByKey(t, ColumnName), ColumnChanges) <==>
            BareColumns(ByKey(s, ColumnName)) == BareColumns(ByKey(t, ColumnName))
  {
    ByKeyMeans(s, ColumnName);
    ByKeyMeans(t, ColumnName);
    SameBareColumns(ByKey(s, ColumnName), ByKey(t, ColumnName));
  }

  lemma SameByName<T(!new)>(s: seq<T>, t: seq<T>, key: T -> string, diff: (T, T) -> seq<Change>)
    requires forall x: T, y: T :: key(x) == key(y) ==> (diff(x, y) == [] <==> x == y)
    ensures Same(ByKey(s, key), ByKey(t, key), diff) <==> ByKey(s, key) == ByKey(t, key)
  {
    ByKeyMeans(s, key);
    ByKeyMeans(t, key);
  }

  /** A table has no finding exactly when it is the same table up to the order of its
      lists, its column positions and the generated names. */
  lemma NoTableFindings(table: string, s: Table, t: Table)
    ensures TableFindings(table, s, t) == [] <==> s.Bare() == t.Bare()
  {
    ColumnMeans(table, s, t);
    SameColumns(s.columns, t.columns);
    ListedMeans(table, IndexObject, ByKey(s.indexes, IndexName), ByKey(t.indexes, IndexName), IndexChanges);
    SameByName(s.indexes, t.indexes, IndexName, IndexChanges);
    ListedMeans(table, ForeignKeyObject, ByKey(s.foreignKeys, ForeignKeyName), ByKey(t.foreignKeys, ForeignKeyName),
                ForeignKeyChanges);
    SameByName(s.foreignKeys, t.foreignKeys, ForeignKeyName, ForeignKeyChanges);
    ListedMeans(table, CheckObject, ByKey(s.checks, CheckName), ByKey(t.checks, CheckName), CheckChanges);
    SameByName(s.checks, t.checks, CheckName, CheckChanges);
  }

  lemma {:induction false} KeyedTable<T>(table: string, obj: Object, s: map<string, T>, t: map<string, T>,
                                         diff: (T, T) -> seq<Change>, keys: seq<string>)
    ensures forall f :: f in KeyedFindings(table, obj, s, t, diff, keys) ==> f.table == table && f.obj == obj
    decreases |keys|
  {
    if keys != [] {
      KeyedTable(table, obj, s, t, diff, keys[..|keys| - 1]);
    }
  }

  lemma ListedTable<T>(table: string, obj: Object, s: map<string, T>, t: map<string, T>, diff: (T, T) -> seq<Change>)
    ensures forall f :: f in ListedFindings(table, obj, s, t, diff) ==> f.table == table && f.obj == obj
  {
    KeyedTable(table, obj, s, t, diff, Listing(s.Keys + t.Keys));
  }

  lemma OthersTable(table: string, s: Table, t: Table)
    ensures forall f :: f in IndexFindings(table, s, t) ==> f.table == table && f.obj == IndexObject
    ensures forall f :: f in ForeignKeyFindings(table, s, t) ==> f.table == table && f.obj == ForeignKeyObject
    ensures forall f :: f in CheckFindings(table, s, t) ==> f.table == table && f.obj == CheckObject
  {
    ListedTable(table, IndexObject, ByKey(s.indexes, IndexName), ByKey(t.indexes, IndexName), IndexChanges);
    ListedTable(table, ForeignKeyObject, ByKey(s.foreignKeys, ForeignKeyName), ByKey(t.foreignKeys, ForeignKeyName),
                ForeignKeyChanges);
    ListedTable(table, CheckObject, ByKey(s.checks, CheckName), ByKey(t.checks, CheckName), CheckChanges);
  }

  lemma TableOfFinding(table: string, s: Table, t: Table)
    ensures forall f :: f in TableFindings(table, s, t) ==> f.table == table
  {
    KeyedTable(table, ColumnObject, ByKey(s.columns, ColumnName), ByKey(t.columns, ColumnName), ColumnChanges,
               ColumnOrder(s, t));
    OthersTable(table, s, t);
  }

  lemma {:induction false} FindingsMean(s: map<string, Table>, t: map<string, Table>, keys: seq<string>)
    ensures forall f :: f in Findings(s, t, keys) <==> f.table in keys && f in IdentFindings(s, t, f.table)
    decreases |keys|
  {
    if keys != [] {
      var init, last := keys[..|keys| - 1], keys[|keys| - 1];
      FindingsMean(s, t, init);
      if last in s && last in t {
        TableOfFinding(last, s[last], t[last]);
      }
      assert forall k :: k in keys <==> k in init || k == last;
    }
  }

  lemma FindingsOfMean(scratch: seq<Table>, target: seq<Table>)
    ensures var s, t := ByKey(scratch, TableIdent), ByKey(target, TableIdent);
            forall f :: f in FindingsOf(scratch, target) <==> f in IdentFindings(s, t, f.table)
  {
    var s, t := ByKey(scratch, TableIdent), ByKey(target, TableIdent);
    var keys := Listing(s.Keys + t.Keys);
    assert forall k :: k in keys <==> k in Elements(keys);
    FindingsMean(s, t, keys);
  }

  lemma IdentFindingsMean(s: map<string, Table>, t: map<string, Table>, k: string)
    ensures IdentFindings(s, t, k) == [] <==> (k in s <==> k in t) && (k in s && k in t ==> s[k].Bare() == t[k].Bare())
    ensures forall f :: f in IdentFindings(s, t, k) ==> f.table == k
  {
    if k in s && k in t {
      NoTableFindings(k, s[k], t[k]);
      TableOfFinding(k, s[k], t[k]);
    }
  }

  ghost predicate SameTables(s: map<string, Table>, t: map<string, Table>) {
    && s.Keys == t.Keys
    && forall k :: k in s.Keys ==> s[k].Bare() == t[k].Bare()
  }

  lemma IdentShows(scratch: seq<Table>, target: seq<Table>, k: string)
    ensures var s, t := ByKey(scratch, TableIdent), ByKey(target, TableIdent);
            IdentFindings(s, t, k) != [] ==> FindingsOf(scratch, target) != []
  {
    var s, t := ByKey(scratch, TableIdent), ByKey(target, TableIdent);
    IdentFindingsMean(s, t, k);
    FindingsOfMean(scratch, target);
    if IdentFindings(s, t, k) != [] {
      var f := IdentFindings(s, t, k)[0];
      assert f in IdentFindings(s, t, k) && f.table == k;
      assert f in FindingsOf(scratch, target);
    }
  }

  lemma {:induction false} SameTablesShowNothing(s: map<string, Table>, t: map<string, Table>, keys: seq<string>)
    requires SameTables(s, t)
    ensures Findings(s, t, keys) == []
    decreases |keys|
  {
    if keys != [] {
      SameTablesShowNothing(s, t, keys[..|keys| - 1]);
      IdentFindingsMean(s, t, keys[|keys| - 1]);
    }
  }

  lemma NoFindings(scratch: seq<Table>, target: seq<Table>)
    ensures FindingsOf(scratch, target) == [] <==> SameTables(ByKey(scratch, TableIdent), ByKey(target, TableIdent))
  {
    var s, t := ByKey(scratch, TableIdent), ByKey(target, TableIdent);
    if SameTables(s, t) {
      SameTablesShowNothing(s, t, Listing(s.Keys + t.Keys));
    }
    if FindingsOf(scratch, target) == [] {
      forall k | k in s || k in t
        ensures k in s && k in t && s[k].Bare() == t[k].Bare()
      {
        IdentShows(scratch, target, k);
        IdentFindingsMean(s, t, k);
      }
    }
  }

  function Bares(tables: map<string, Table>): map<string, Shape> {
    map k | k in tables :: tables[k].Bare()
  }

  lemma SameBares(s: map<string, Table>, t: map<string, Table>)
    ensures SameTables(s, t) <==> Bares(s) == Bares(t)
  {
    assert Bares(s).Keys == s.Keys && Bares(t).Keys == t.Keys;
    if Bares(s) == Bares(t) {
      forall k | k in s.Keys
        ensures s[k].Bare() == t[k].Bare()
      {
        assert Bares(s)[k] == Bares(t)[k];
      }
    }
  }

  /** `Compare` reports nothing if and only if the two schemas are equal up to the order
      of their lists, column positions and generated names. */
  lemma NoFindingsMeansSameShape(scratch: seq<Table>, target: seq<Table>)
    ensures FindingsOf(scratch, target) == [] <==> Shapes(scratch) == Shapes(target)
  {
    NoFindings(scratch, target);
    SameBares(ByKey(scratch, TableIdent), ByKey(target, TableIdent));
  }
}
