/** Strings in the order `sort.Strings` puts them, and the one ascending listing of a
    finite set of names. */
module Names {

  predicate Less(a: string, b: string) {
    b != [] && (a == [] || a[0] < b[0] || (a[0] == b[0] && Less(a[1..], b[1..])))
  }

  lemma {:induction false} LessIsTotal(a: string, b: string)
    ensures Less(a, b) || a == b || Less(b, a)
    ensures !(Less(a, b) && Less(b, a)) && !Less(a, a)
  {
    if a != [] {
      LessIsIrreflexive(a);
      if b != [] {
        LessIsTotal(a[1..], b[1..]);
        assert a[0] == b[0] && a[1..] == b[1..] ==> [a[0]] + a[1..] == [b[0]] + b[1..];
      }
    }
  }

  lemma {:induction false} LessIsIrreflexive(a: string)
    ensures !Less(a, a)
  {
    if a != [] {
      LessIsIrreflexive(a[1..]);
    }
  }

  lemma {:induction false} LessIsTransitive(a: string, b: string, c: string)
    requires Less(a, b) && Less(b, c)
    ensures Less(a, c)
  {
    if a != [] && a[0] == b[0] && b[0] == c[0] {
      LessIsTransitive(a[1..], b[1..], c[1..]);
    }
  }

  /** The two agree up to the end of the first, or up to a place where it is smaller. */
  ghost predicate FirstDifference(a: string, b: string, k: nat) {
    k <= |a| && k < |b| && a[..k] == b[..k] && (k == |a| || a[k] < b[k])
  }

  lemma {:induction false} LessMeans(a: string, b: string)
    ensures Less(a, b) <==> exists k :: FirstDifference(a, b, k)
  {
    FirstsAgree(a, b);
    if a == [] {
      assert b != [] ==> FirstDifference(a, b, 0);
    } else if b != [] && a[0] < b[0] {
      assert FirstDifference(a, b, 0);
    } else if b != [] && a[0] == b[0] {
      LessMeans(a[1..], b[1..]);
      if k: nat :| FirstDifference(a[1..], b[1..], k) {
        assert a[..k + 1] == [a[0]] + a[1..][..k] && b[..k + 1] == [b[0]] + b[1..][..k];
        assert FirstDifference(a, b, k + 1);
      }
      if k: nat :| FirstDifference(a, b, k) {
        assert k > 0 && a[1..][..k - 1] == a[..k][1..] && b[1..][..k - 1] == b[..k][1..];
        assert FirstDifference(a[1..], b[1..], k - 1);
      }
    }
  }

  lemma FirstsAgree(a: string, b: string)
    ensures forall k: nat :: FirstDifference(a, b, k) && k > 0 ==> a[0] == b[0]
  {
    forall k: nat | FirstDifference(a, b, k) && k > 0
      ensures a[0] == b[0]
    {
      assert a[..k][0] == a[0] && b[..k][0] == b[0];
    }
  }

  ghost predicate Ascending(names: seq<string>) {
    forall i, j :: 0 <= i < j < |names| ==> Less(names[i], names[j])
  }

  function Elements(names: seq<string>): set<string> {
    set n | n in names
  }

  function Insert(names: seq<string>, n: string): (r: seq<string>)
    ensures forall m :: m in r <==> m in names || m == n
  {
    if names == [] then [n]
    else if Less(n, names[0]) then [n] + names
    else [names[0]] + Insert(names[1..], n)
  }

  lemma {:induction false} InsertKeepsOrder(names: seq<string>, n: string)
    requires Ascending(names) && n !in names
    ensures Ascending(Insert(names, n))
  {
    if names != [] {
      var r := Insert(names, n);
      if Less(n, names[0]) {
        forall j | 0 < j < |r|
          ensures Less(n, r[j])
        {
          if j > 1 {
            LessIsTransitive(n, names[0], names[j - 1]);
          }
        }
      } else {
        LessIsTotal(n, names[0]);
        InsertKeepsOrder(names[1..], n);
        forall j | 0 < j < |r|
          ensures Less(names[0], r[j])
        {
          assert r[j] in Insert(names[1..], n);
        }
      }
    }
  }

  lemma HasHead(names: seq<string>)
    requires names != []
    ensures exists x :: x in names
  {
    assert names[0] in names;
  }

  lemma {:induction false} AscendingUnique(r: seq<string>, t: seq<string>)
    requires Ascending(r) && Ascending(t)
    requires forall x :: x in r <==> x in t
    ensures r == t
  {
    if r == [] {
      if t != [] {
        HasHead(t);
      }
    } else {
      assert r[0] in t && t[0] in r;
      LessIsTotal(r[0], t[0]);
      LessIsIrreflexive(r[0]);
      assert r[0] == t[0];
      forall x
        ensures x in r[1..] <==> x in t[1..]
      {
        if x in r[1..] {
          assert x in r && x != r[0];
        }
        if x in t[1..] {
          assert x in t && x != t[0];
        }
      }
      AscendingUnique(r[1..], t[1..]);
    }
  }

  lemma HasListing(s: set<string>)
    ensures exists r :: Ascending(r) && Elements(r) == s
  {
    if s == {} {
      assert Ascending([]) && Elements([]) == {};
    } else {
      var n :| n in s;
      HasListing(s - {n});
      var r :| Ascending(r) && Elements(r) == s - {n};
      assert forall x :: x in r <==> x in Elements(r);
      InsertKeepsOrder(r, n);
      assert Elements(Insert(r, n)) == s;
    }
  }

  /** The names of `s` in ascending order. */
  ghost function Listing(s: set<string>): (r: seq<string>)
    ensures Ascending(r) && Elements(r) == s
  {
    HasListing(s);
    var r :| Ascending(r) && Elements(r) == s;
    r
  }

  /** The union of two key sets in ascending order, whatever order the maps are walked in. */
  method SortedKeys<T, U>(a: map<string, T>, b: map<string, U>) returns (keys: seq<string>)
    ensures keys == Listing(a.Keys + b.Keys)
  {
    var seen := a.Keys + b.Keys;
    keys := [];
    ghost var taken := {};
    while seen != {}
      invariant Ascending(keys) && Elements(keys) == taken
      invariant taken !! seen && taken + seen == a.Keys + b.Keys
      decreases seen
    {
      var k :| k in seen;
      assert k !in Elements(keys);
      InsertKeepsOrder(keys, k);
      keys := Insert(keys, k);
      assert Elements(keys) == taken + {k};
      taken := taken + {k};
      seen := seen - {k};
    }
    ghost var all := Listing(a.Keys + b.Keys);
    assert forall x :: x in keys <==> x in Elements(keys);
    assert forall x :: x in all <==> x in Elements(all);
    AscendingUnique(keys, all);
  }
}
