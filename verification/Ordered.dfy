/** Finite sets of versions and the one strictly ascending sequence that lists each. */
module Ordered {

  ghost predicate Ascending(s: seq<nat>) {
    forall i, j :: 0 <= i < j < |s| ==> s[i] < s[j]
  }

  function Elements(s: seq<nat>): set<nat> {
    set x | x in s
  }

  lemma LeastOf(s: set<nat>) returns (m: nat)
    requires s != {}
    ensures m in s && forall x :: x in s ==> m <= x
  {
    m :| m in s;
    if s != {m} {
      var n := LeastOf(s - {m});
      assert forall x :: x in s ==> x == m || x in s - {m};
      m := if m < n then m else n;
    }
  }

  lemma HasMin(s: set<nat>)
    requires s != {}
    ensures exists m :: m in s && forall x :: x in s ==> m <= x
  {
    var m := LeastOf(s);
  }

  function Min(s: set<nat>): (m: nat)
    requires s != {}
    ensures m in s && forall x :: x in s ==> m <= x
  {
    HasMin(s);
    var m :| m in s && forall x :: x in s ==> m <= x;
    m
  }

  lemma MostOf(s: set<nat>) returns (m: nat)
    requires s != {}
    ensures m in s && forall x :: x in s ==> x <= m
  {
    m :| m in s;
    if s != {m} {
      var n := MostOf(s - {m});
      assert forall x :: x in s ==> x == m || x in s - {m};
      m := if m > n then m else n;
    }
  }

  lemma HasMax(s: set<nat>)
    requires s != {}
    ensures exists m :: m in s && forall x :: x in s ==> x <= m
  {
    var m := MostOf(s);
  }

  function Max(s: set<nat>): (m: nat)
    requires s != {}
    ensures m in s && forall x :: x in s ==> x <= m
  {
    HasMax(s);
    var m :| m in s && forall x :: x in s ==> x <= m;
    m
  }

  /** The elements of `s` in ascending order. */
  function Sorted(s: set<nat>): (r: seq<nat>)
    ensures Ascending(r)
    ensures forall x :: x in r <==> x in s
  {
    if s == {} then []
    else
      var m := Min(s);
      var rest := Sorted(s - {m});
      assert forall x :: x in rest ==> m < x;
      [m] + rest
  }

  lemma {:induction false} SortedLength(s: set<nat>)
    ensures |Sorted(s)| == |s|
  {
    if s != {} {
      SortedLength(s - {Min(s)});
    }
  }

  lemma HasHead(s: seq<nat>)
    requires s != []
    ensures exists x :: x in s
  {
    assert s[0] in s;
  }

  /** An ascending sequence is determined by its elements. */
  lemma {:induction false} SortedUnique(r: seq<nat>, t: seq<nat>)
    requires Ascending(r) && Ascending(t)
    requires forall x :: x in r <==> x in t
    ensures r == t
  {
    if r == [] {
      if t != [] {
        HasHead(t);
      }
    } else {
      assert r[0] in t;
      assert t[0] in r;
      assert r[0] == t[0];
      forall x
        ensures x in r[1..] <==> x in t[1..]
      {
        if x in r[1..] {
          assert x in r && x != r[0];
        }
        if x in t[1..] {
          assert x in t && x != t[0];
        }
      }
      SortedUnique(r[1..], t[1..]);
    }
  }

  /** A set that is extended above its maximum is listed by appending. */
  lemma SortedPush(s: set<nat>, v: nat)
    requires forall x :: x in s ==> x < v
    ensures Sorted(s + {v}) == Sorted(s) + [v]
  {
    var pushed := Sorted(s) + [v];
    assert Ascending(pushed) by {
      forall i, j | 0 <= i < j < |pushed|
        ensures pushed[i] < pushed[j]
      {
        assert pushed[i] in Sorted(s);
      }
    }
    SortedUnique(Sorted(s + {v}), pushed);
  }

  lemma SortedPop(s: set<nat>, v: nat)
    requires v in s && forall x :: x in s && x != v ==> x < v
    ensures Sorted(s) == Sorted(s - {v}) + [v]
  {
    assert s - {v} + {v} == s;
    SortedPush(s - {v}, v);
  }

  lemma MaxIsLast(s: set<nat>)
    requires s != {}
    ensures Sorted(s) != [] && Max(s) == Sorted(s)[|Sorted(s)| - 1]
  {
    var r := Sorted(s);
    assert Max(s) in r;
    assert r[|r| - 1] in s;
  }
}
