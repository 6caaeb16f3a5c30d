/** The order in which the findings are reported. Source: internal/diff/compare.go. */
module FindingOrder {
  import opened Names
  import opened Diff

  function Rank(obj: Object): nat {
    match obj
    case TableObject => 0
    case ColumnObject => 1
    case IndexObject => 2
    case ForeignKeyObject => 3
    case CheckObject => 4
  }

  /** Inside one table: columns, then indexes, foreign keys and checks, each of the last
      three by name; and among the columns those of the target alone come last. */
  predicate Precedes(f: Finding, g: Finding) {
    || Rank(f.obj) < Rank(g.obj)
    || (f.obj == g.obj && if f.obj == ColumnObject then f.kind == Extra ==> g.kind == Extra else Less(f.name, g.name))
  }

  ghost predicate Ordered(fs: seq<Finding>) {
    forall i, j :: 0 <= i < j < |fs| ==> Precedes(fs[i], fs[j])
  }

  lemma Appended(a: seq<Finding>, b: seq<Finding>)
    requires Ordered(a) && Ordered(b) && forall f, g :: f in a && g in b ==> Precedes(f, g)
    ensures Ordered(a + b)
  {
    forall i, j | 0 <= i < j < |a + b|
      ensures Precedes((a + b)[i], (a + b)[j])
    {
      if i < |a| <= j {
        assert a[i] in a && b[j - |a|] in b;
      }
    }
  }

  lemma {:induction false} KeyedByName<T>(table: string, obj: Object, s: map<string, T>, t: map<string, T>,
                                          diff: (T, T) -> seq<Change>, keys: seq<string>)
    requires Ascending(keys) && obj != ColumnObject
    ensures Ordered(KeyedFindings(table, obj, s, t, diff, keys))
    ensures forall f :: f in KeyedFindings(table, obj, s, t, diff, keys) ==> f.name in keys && f.obj == obj
    decreases |keys|
  {
    if keys != [] {
      var init, last := keys[..|keys| - 1], keys[|keys| - 1];
      KeyedByName(table, obj, s, t, diff, init);
      var a, b := KeyedFindings(table, obj, s, t, diff, init), KeyFindings(table, obj, s, t, diff, last);
      forall f, g | f in a && g in b
        ensures Precedes(f, g)
      {
        var i :| 0 <= i < |init| && init[i] == f.name;
        assert Less(keys[i], keys[|keys| - 1]);
      }
      Appended(a, b);
    }
  }

  lemma ListedByName<T>(table: string, obj: Object, s: map<string, T>, t: map<string, T>,
                        diff: (T, T) -> seq<Change>)
    requires obj != ColumnObject
    ensures Ordered(ListedFindings(table, obj, s, t, diff))
  {
    KeyedByName(table, obj, s, t, diff, Listing(s.Keys + t.Keys));
  }

  /** Of names the scratch table has, no column is extra; of others, every one is. */
  lemma {:induction false} KeyedKinds(table: string, s: map<string, Column>, t: map<string, Column>,
                                      keys: seq<string>, known: bool)
    requires forall k :: k in keys ==> (k in s <==> known)
    ensures forall f :: f in KeyedFindings(table, ColumnObject, s, t, ColumnChanges, keys) ==>
              f.obj == ColumnObject && (f.kind == Extra <==> !known)
    decreases |keys|
  {
    if keys != [] {
      assert keys[|keys| - 1] in keys;
      KeyedKinds(table, s, t, keys[..|keys| - 1], known);
    }
  }

  lemma {:induction false} KeyedAppends(table: string, s: map<string, Column>, t: map<string, Column>,
                                        a: seq<string>, b: seq<string>)
    ensures KeyedFindings(table, ColumnObject, s, t, ColumnChanges, a + b) ==
            KeyedFindings(table, ColumnObject, s, t, ColumnChanges, a) +
            KeyedFindings(table, ColumnObject, s, t, ColumnChanges, b)
    decreases |b|
  {
    if b == [] {
      assert a + b == a;
    } else {
      assert (a + b)[..|a + b| - 1] == a + b[..|b| - 1];
      KeyedAppends(table, s, t, a, b[..|b| - 1]);
    }
  }

  lemma ColumnsOrdered(table: string, s: Table, t: Table)
    ensures Ordered(ColumnFindings(table, s, t))
    ensures forall f :: f in ColumnFindings(table, s, t) ==> f.obj == ColumnObject
  {
    var m, n := ByKey(s.columns, ColumnName), ByKey(t.columns, ColumnName);
    var own, others := ColumnNames(s.columns), OtherNames(t.columns, m.Keys);
    ColumnNamesMean(s.columns);
    OtherNamesMean(t.columns, m.Keys);
    KeyedAppends(table, m, n, own, others);
    KeyedKinds(table, m, n, own, true);
    KeyedKinds(table, m, n, others, false);
    var a := KeyedFindings(table, ColumnObject, m, n, ColumnChanges, own);
    var b := KeyedFindings(table, ColumnObject, m, n, ColumnChanges, others);
    forall i, j | 0 <= i < j < |a|
      ensures Precedes(a[i], a[j])
    {
      assert a[i] in a && a[j] in a;
    }
    forall i, j | 0 <= i < j < |b|
      ensures Precedes(b[i], b[j])
    {
      assert b[i] in b && b[j] in b;
    }
    Appended(a, b);
  }

  lemma TableOrdered(table: string, s: Table, t: Table)
    ensures Ordered(TableFindings(table, s, t))
  {
    var columns, indexes := ColumnFindings(table, s, t), IndexFindings(table, s, t);
    var keys, checks := ForeignKeyFindings(table, s, t), CheckFindings(table, s, t);
    ColumnsOrdered(table, s, t);
    OthersTable(table, s, t);
    ListedByName(table, IndexObject, ByKey(s.indexes, IndexName), ByKey(t.indexes, IndexName), IndexChanges);
    ListedByName(table, ForeignKeyObject, ByKey(s.foreignKeys, ForeignKeyName), ByKey(t.foreignKeys, ForeignKeyName),
                 ForeignKeyChanges);
    ListedByName(table, CheckObject, ByKey(s.checks, CheckName), ByKey(t.checks, CheckName), CheckChanges);
    Appended(columns, indexes);
    Appended(columns + indexes, keys);
    Appended(columns + indexes + keys, checks);
  }

  /** All findings: tables by identifier, and inside a table as above. */
  ghost predicate AllOrdered(fs: seq<Finding>) {
    forall i, j :: 0 <= i < j < |fs| ==>
      Less(fs[i].table, fs[j].table) || (fs[i].table == fs[j].table && Precedes(fs[i], fs[j]))
  }

  lemma {:induction false} FindingsOrdered(s: map<string, Table>, t: map<string, Table>, keys: seq<string>)
    requires Ascending(keys)
    ensures AllOrdered(Findings(s, t, keys))
    ensures forall f :: f in Findings(s, t, keys) ==> f.table in keys
    decreases |keys|
  {
    if keys != [] {
      var init, last := keys[..|keys| - 1], keys[|keys| - 1];
      FindingsOrdered(s, t, init);
      var a, b := Findings(s, t, init), IdentFindings(s, t, last);
      IdentFindingsMean(s, t, last);
      if last in s && last in t {
        TableOrdered(last, s[last], t[last]);
      }
      LastOrdered(a, b, init, last);
    }
  }

  lemma LastOrdered(a: seq<Finding>, b: seq<Finding>, init: seq<string>, last: string)
    requires AllOrdered(a) && Ordered(b) && Ascending(init + [last])
    requires (forall f :: f in a ==> f.table in init) && forall g :: g in b ==> g.table == last
    ensures AllOrdered(a + b)
  {
    var all := a + b;
    forall i, j | 0 <= i < j < |all|
      ensures Less(all[i].table, all[j].table) || (all[i].table == all[j].table && Precedes(all[i], all[j]))
    {
      if i < |a| <= j {
        assert a[i] in a && b[j - |a|] in b;
        var k :| 0 <= k < |init| && init[k] == a[i].table;
        assert Less((init + [last])[k], (init + [last])[|init|]);
      } else if |a| <= i {
        assert b[i - |a|] in b && b[j - |a|] in b;
      }
    }
  }

  /** The comparison reports table by table in ascending order, and inside a table columns,
      indexes, foreign keys and checks in this order. */
  lemma CompareIsOrdered(scratch: seq<Table>, target: seq<Table>)
    ensures AllOrdered(FindingsOf(scratch, target))
  {
    var s, t := ByKey(scratch, TableIdent), ByKey(target, TableIdent);
    FindingsOrdered(s, t, Listing(s.Keys + t.Keys));
  }
}
