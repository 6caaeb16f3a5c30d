/** Dollar-quote tags, as PostgreSQL's documentation section 4.1.2.4 describes them and
    as both scanners recognise them. Sources: internal/engine/postgresengine/ddl.go,
    internal/dump/dump.go. */
module Dollar {

  /** The scanners work on bytes; a byte is shown as the character with its code. */
  type byte = c: char | c as int < 0x100 witness ' '

  type Text = seq<byte>

  predicate IsIdentStart(b: byte) {
    b == '_' || 'A' <= b <= 'Z' || 'a' <= b <= 'z'
  }

  predicate IsIdentPart(b: byte) {
    IsIdentStart(b) || '0' <= b <= '9'
  }

  /** `$$`, or `$name$` where name is an identifier. */
  predicate IsTag(t: Text) {
    && |t| >= 2 && t[0] == '$' && t[|t| - 1] == '$'
    && (forall i :: 1 <= i < |t| - 1 ==> IsIdentPart(t[i]))
    && (|t| > 2 ==> IsIdentStart(t[1]))
  }

  /** The end of the identifier characters from `k` on. */
  function PartsEnd(s: Text, k: nat): (j: nat)
    requires k <= |s|
    ensures k <= j <= |s|
    ensures forall i :: k <= i < j ==> IsIdentPart(s[i])
    ensures j < |s| ==> !IsIdentPart(s[j])
    decreases |s| - k
  {
    if k < |s| && IsIdentPart(s[k]) then PartsEnd(s, k + 1) else k
  }

  /** The end of the tag that starts at `i`, or `i` when none does. */
  function TagEnd(s: Text, i: nat): (j: nat)
    requires i <= |s|
    ensures i <= j <= |s|
  {
    if i == |s| || s[i] != '$' then i
    else
      var k := if i + 1 < |s| && IsIdentStart(s[i + 1]) then PartsEnd(s, i + 2) else i + 1;
      if k < |s| && s[k] == '$' then k + 1 else i
  }

  /** The tag that starts at `i`, or "". */
  function TagAt(s: Text, i: nat): Text
    requires i <= |s|
  {
    s[i..TagEnd(s, i)]
  }

  lemma TagAtMeans(s: Text, i: nat)
    requires i <= |s| && TagAt(s, i) != []
    ensures IsTag(TagAt(s, i)) && StartsAt(s, i, TagAt(s, i))
  {
  }

  /** At most one tag starts at a position, and TagAt finds it. */
  lemma TagAtFinds(s: Text, i: nat, t: Text)
    requires i <= |s| && IsTag(t) && StartsAt(s, i, t)
    ensures TagAt(s, i) == t
  {
    assert s[i + 0] == t[0] && s[i + (|t| - 1)] == t[|t| - 1];
    assert !IsIdentPart('$');
    if |t| > 2 {
      assert s[i + 1] == t[1];
      forall x | i + 1 <= x < i + |t| - 1
        ensures IsIdentPart(s[x])
      {
        assert s[i + (x - i)] == t[x - i];
      }
      assert PartsEnd(s, i + 2) == i + |t| - 1;
    }
    assert TagEnd(s, i) == i + |t|;
    assert s[i..i + |t|] == t;
  }

  predicate StartsAt(s: Text, i: nat, t: Text) {
    i + |t| <= |s| && forall k :: 0 <= k < |t| ==> s[i + k] == t[k]
  }

  lemma SliceStarts(s: Text, i: nat, t: Text)
    requires i + |t| <= |s|
    ensures StartsAt(s, i, t) <==> s[i..i + |t|] == t
  {
    if StartsAt(s, i, t) {
      assert s[i..i + |t|] == t;
    } else {
      var k :| 0 <= k < |t| && s[i + k] != t[k];
      assert s[i..i + |t|][k] != t[k];
    }
  }

  /** `strings.Index` from `from` on: the first occurrence of `t`, or none. */
  method Index(s: Text, from: nat, t: Text) returns (found: bool, at: nat)
    requires from <= |s|
    ensures found ==> from <= at && StartsAt(s, at, t) && forall k :: from <= k < at ==> !StartsAt(s, k, t)
    ensures !found ==> forall k :: from <= k ==> !StartsAt(s, k, t)
  {
    at := from;
    while at + |t| <= |s|
      invariant from <= at
      invariant forall k :: from <= k < at ==> !StartsAt(s, k, t)
    {
      SliceStarts(s, at, t);
      if s[at..at + |t|] == t {
        return true, at;
      }
      at := at + 1;
    }
    return false, at;
  }

  /** `strings.IndexByte` from `from` on. */
  method IndexByte(s: Text, from: nat, b: byte) returns (found: bool, at: nat)
    requires from <= |s|
    ensures found ==> from <= at < |s| && s[at] == b && forall k :: from <= k < at ==> s[k] != b
    ensures !found ==> forall k :: from <= k < |s| ==> s[k] != b
  {
    at := from;
    while at < |s|
      invariant from <= at <= |s|
      invariant forall k :: from <= k < at ==> s[k] != b
    {
      if s[at] == b {
        return true, at;
      }
      at := at + 1;
    }
    return false, at;
  }
}
