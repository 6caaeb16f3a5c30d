/** The automaton of module Mask with PostgreSQL's identifiers and dollar quotes, as its
    sections 4.1.1 and 4.1.2.4 describe them: a dollar sign or an E inside an identifier is
    part of it and opens nothing, and a tag has the letters of an identifier.
    Source: internal/engine/postgresengine/ddl.go. */
module Words {
  import opened Dollar
  import opened Mask

  /** A letter or underscore; the letters outside ASCII are bytes from 0x80 on. */
  predicate IsWordStart(b: byte) {
    IsIdentStart(b) || b as int >= 0x80
  }

  predicate IsWordPart(b: byte) {
    IsWordStart(b) || '0' <= b <= '9' || b == '$'
  }

  // ----- Tags -----

  /** A tag is an identifier without dollar signs, or nothing, between two of them. */
  predicate IsWordTag(t: Text) {
    && |t| >= 2 && t[0] == '$' && t[|t| - 1] == '$'
    && (forall k :: 1 <= k < |t| - 1 ==> IsWordPart(t[k]) && t[k] != '$')
    && (|t| > 2 ==> IsWordStart(t[1]))
  }

  /** The end of the identifier characters from `k` on, dollar signs aside. */
  function LettersEnd(s: Text, k: nat): (j: nat)
    requires k <= |s|
    ensures k <= j <= |s|
    ensures forall x :: k <= x < j ==> IsWordPart(s[x]) && s[x] != '$'
    ensures j < |s| ==> s[j] == '$' || !IsWordPart(s[j])
    decreases |s| - k
  {
    if k < |s| && IsWordPart(s[k]) && s[k] != '$' then LettersEnd(s, k + 1) else k
  }

  /** The end of the tag that starts at `i`, or `i` when none does. */
  function WordTagEnd(s: Text, i: nat): (j: nat)
    requires i <= |s|
    ensures i <= j <= |s|
  {
    if i == |s| || s[i] != '$' then i
    else
      var k := LettersEnd(s, i + 1);
      if k < |s| && s[k] == '$' && (k == i + 1 || IsWordStart(s[i + 1])) then k + 1 else i
  }

  /** The tag that starts at `i` for PostgreSQL, or "". */
  function WordTagAt(s: Text, i: nat): Text
    requires i <= |s|
  {
    s[i..WordTagEnd(s, i)]
  }

  lemma WordTagAtMeans(s: Text, i: nat)
    requires i <= |s| && WordTagAt(s, i) != []
    ensures IsWordTag(WordTagAt(s, i)) && StartsAt(s, i, WordTagAt(s, i))
  {
  }

  /** At most one tag starts at a position, and WordTagAt finds it. */
  lemma WordTagAtFinds(s: Text, i: nat, t: Text)
    requires i <= |s| && IsWordTag(t) && StartsAt(s, i, t)
    ensures WordTagAt(s, i) == t
  {
    assert s[i + 0] == t[0] && s[i + (|t| - 1)] == t[|t| - 1];
    forall x | i + 1 <= x < i + |t| - 1
      ensures IsWordPart(s[x]) && s[x] != '$'
    {
      assert s[i + (x - i)] == t[x - i];
    }
    assert LettersEnd(s, i + 1) == i + |t| - 1;
    assert |t| > 2 ==> s[i + 1] == t[1];
    assert WordTagEnd(s, i) == i + |t|;
    assert s[i..i + |t|] == t;
  }

  /** The code's tags are PostgreSQL's, where it finds one. */
  lemma TagIsWordTag(s: Text, i: nat)
    requires i <= |s| && TagAt(s, i) != []
    ensures WordTagAt(s, i) == TagAt(s, i)
  {
    TagAtMeans(s, i);
    WordTagAtFinds(s, i, TagAt(s, i));
  }

  /** It misses exactly those with a letter outside ASCII. */
  lemma MissedTags(s: Text, i: nat)
    requires i <= |s| && WordTagAt(s, i) != []
    ensures TagAt(s, i) == [] <==> exists k :: 0 <= k < |WordTagAt(s, i)| && WordTagAt(s, i)[k] as int >= 0x80
  {
    var t := WordTagAt(s, i);
    WordTagAtMeans(s, i);
    if TagAt(s, i) != [] {
      TagAtMeans(s, i);
      TagIsWordTag(s, i);
    } else if forall k :: 0 <= k < |t| ==> t[k] as int < 0x80 {
      assert IsTag(t);
      TagAtFinds(s, i, t);
    }
  }

  // ----- The automaton -----

  datatype WordMode = Word | In(mode: Mode) {
    /** The mode of the automaton that knows no identifiers. */
    function Base(): Mode {
      if Word? then Code else mode
    }
  }

  function WordStep(src: Text, i: nat, m: WordMode): (bool, WordMode)
    requires i < |src|
  {
    if m.Word? && IsWordPart(src[i]) then (false, Word)
    else if m.Base() == Code && IsWordStart(src[i]) && !EscapeOpens(src, i) then (false, Word)
    else if m.Base() == Code && WordTagAt(src, i) != [] then
      var tag := WordTagAt(src, i);
      (true, In(Held(|tag| - 1, true, Body(tag))))
    else
      var r := Step(src, i, m.Base());
      (r.0, In(r.1))
  }

  function WordModeAt(src: Text, i: nat): WordMode
    requires i <= |src|
  {
    if i == 0 then In(Code) else WordStep(src, i - 1, WordModeAt(src, i - 1)).1
  }

  function WordOut(src: Text, i: nat): byte
    requires i < |src|
  {
    if WordStep(src, i, WordModeAt(src, i)).0 && src[i] != '\n' then ' ' else src[i]
  }

  function WordMaskText(src: Text): (out: Text)
    ensures |out| == |src|
    ensures forall i :: 0 <= i < |src| ==> out[i] == WordOut(src, i)
  {
    seq(|src|, i requires 0 <= i < |src| => WordOut(src, i))
  }

  /** Inside an identifier nothing looks like an opening to the scanner, and in code it
      finds PostgreSQL's tags. */
  predicate CleanIn(src: Text, i: nat, m: WordMode)
    requires i < |src|
  {
    match m
    case Word => TagAt(src, i) == [] && !EscapeOpens(src, i)
    case In(base) => base == Code ==> TagAt(src, i) == WordTagAt(src, i)
  }

  predicate CleanAt(src: Text, i: nat)
    requires i < |src|
  {
    CleanIn(src, i, WordModeAt(src, i))
  }

  ghost predicate Clean(src: Text, n: nat)
    requires n <= |src|
  {
    forall i :: 0 <= i < n ==> CleanAt(src, i)
  }

  /** There one character means the same to both automata. */
  lemma StepsAgree(src: Text, i: nat, m: WordMode)
    requires i < |src| && CleanIn(src, i, m)
    ensures var r := WordStep(src, i, m); Step(src, i, m.Base()) == (r.0, r.1.Base())
  {
    if m.Base() == Code && WordTagAt(src, i) != [] {
      assert src[i] == '$';
    }
  }

  /** Elsewhere one of them masks what the other keeps. */
  lemma StepsDiffer(src: Text, i: nat, m: WordMode)
    requires i < |src| && !CleanIn(src, i, m)
    ensures m.Base() == Code && src[i] != '\n' && src[i] != ' '
    ensures Step(src, i, Code).0 != WordStep(src, i, m).0
  {
    if TagAt(src, i) != [] {
      assert src[i] == '$';
      TagIsWordTag(src, i);
    }
  }

  lemma SameStep(src: Text, i: nat)
    requires i < |src| && CleanAt(src, i) && ModeAt(src, i) == WordModeAt(src, i).Base()
    ensures ModeAt(src, i + 1) == WordModeAt(src, i + 1).Base()
    ensures Out(src, i) == WordOut(src, i)
  {
    StepsAgree(src, i, WordModeAt(src, i));
  }

  lemma {:induction false} SameModes(src: Text, n: nat)
    requires n <= |src| && Clean(src, n)
    ensures ModeAt(src, n) == WordModeAt(src, n).Base()
  {
    if n > 0 {
      var k := n - 1;
      SameModes(src, k);
      SameStep(src, k);
    }
  }

  lemma SameOut(src: Text, i: nat)
    requires i < |src| && Clean(src, |src|)
    ensures Out(src, i) == WordOut(src, i)
  {
    SameModes(src, i);
    SameStep(src, i);
  }

  lemma DiffersAt(src: Text, i: nat)
    requires i < |src| && !CleanAt(src, i) && ModeAt(src, i) == WordModeAt(src, i).Base()
    ensures Out(src, i) != WordOut(src, i)
  {
    StepsDiffer(src, i, WordModeAt(src, i));
  }

  lemma {:induction false} SomeDifference(src: Text, n: nat)
    requires n <= |src| && !Clean(src, n)
    ensures exists i :: 0 <= i < n && Out(src, i) != WordOut(src, i)
  {
    if Clean(src, n - 1) {
      SameModes(src, n - 1);
      DiffersAt(src, n - 1);
    } else {
      SomeDifference(src, n - 1);
    }
  }

  /** The scanner masks what PostgreSQL's rules for identifiers and dollar quotes say if and
      only if no tag and no E-quote stands inside an identifier and no tag in code has a
      letter outside ASCII. */
  lemma MaskingIsExact(src: Text)
    ensures MaskText(src) == WordMaskText(src) <==> Clean(src, |src|)
  {
    if Clean(src, |src|) {
      forall i | 0 <= i < |src|
        ensures Out(src, i) == WordOut(src, i)
      {
        SameOut(src, i);
      }
    } else {
      SomeDifference(src, |src|);
      var i :| 0 <= i < |src| && Out(src, i) != WordOut(src, i);
      assert MaskText(src)[i] != WordMaskText(src)[i];
    }
  }

  /** In particular when no tag and no E-quote follows an identifier character and no tag
      has a letter outside ASCII. */
  lemma SeparatedIsExact(src: Text)
    requires forall i :: 0 < i < |src| && IsWordPart(src[i - 1]) ==> TagAt(src, i) == [] && !EscapeOpens(src, i)
    requires forall i :: 0 <= i < |src| && TagAt(src, i) == [] ==> WordTagAt(src, i) == []
    ensures MaskText(src) == WordMaskText(src)
  {
    forall i | 0 <= i < |src|
      ensures CleanAt(src, i)
    {
      if WordModeAt(src, i).Word? {
        assert i > 0 && IsWordPart(src[i - 1]);
      } else if TagAt(src, i) != [] {
        TagIsWordTag(src, i);
      }
    }
    MaskingIsExact(src);
  }

  /** An identifier in code stays as it is, dollar signs and all, and what follows it is
      read as behind an identifier. */
  lemma {:induction false} IdentifierStays(src: Text, i: nat, word: Text, k: nat)
    requires StartsAt(src, i, word) && 0 < k <= |word| && i < |src|
    requires WordModeAt(src, i) == In(Code) && IsWordStart(word[0]) && !EscapeOpens(src, i)
    requires forall j :: 0 <= j < |word| ==> IsWordPart(word[j])
    ensures WordModeAt(src, i + k) == Word && WordOut(src, i + k - 1) == word[k - 1]
  {
    assert src[i + (k - 1)] == word[k - 1];
    if k > 1 {
      IdentifierStays(src, i, word, k - 1);
    }
  }

  /** The tag does not come again from `i` on. */
  ghost predicate NoMore(src: Text, i: nat, tag: Text) {
    forall k :: i <= k < |src| ==> !StartsAt(src, k, tag)
  }

  /** What an opening inside an identifier costs: the scanner masks everything from the tag
      on when the tag does not come again, and the identifier keeps its dollar sign. */
  lemma GluedTagIsMasked(src: Text, i: nat, tag: Text)
    requires i < |src| && Clean(src, i) && WordModeAt(src, i).Word?
    requires IsTag(tag) && StartsAt(src, i, tag) && NoMore(src, i + |tag|, tag)
    ensures AllMasked(src, i, |src|)
    ensures Out(src, i) == ' ' && WordOut(src, i) == '$'
  {
    assert ModeAt(src, i) == Code by {
      SameModes(src, i);
    }
    OpensAt(src, i, tag);
    NeverClosed(src, i, i + |tag|, tag);
    WordKeeps(src, i, WordModeAt(src, i));
  }

  lemma OpensAt(src: Text, i: nat, tag: Text)
    requires i < |src| && ModeAt(src, i) == Code && IsTag(tag) && StartsAt(src, i, tag)
    ensures i + |tag| <= |src| && ModeAt(src, i + |tag|) == Body(tag) && src[i] == '$'
    ensures AllMasked(src, i, i + |tag|)
  {
    TagAtFinds(src, i, tag);
    assert src[i] == tag[0];
    BodyOpens(src, i, tag);
  }

  lemma NeverClosed(src: Text, i: nat, m: nat, tag: Text)
    requires i < m <= |src| && ModeAt(src, m) == Body(tag) && AllMasked(src, i, m) && NoMore(src, m, tag)
    ensures AllMasked(src, i, |src|) && Masked(src, i)
  {
    BodyUnclosed(src, i, m, tag);
  }

  lemma WordKeeps(src: Text, i: nat, m: WordMode)
    requires i < |src| && m.Word? && IsWordPart(src[i])
    ensures WordStep(src, i, m) == (false, Word)
  {
  }

  const GLUED: Text := ['a', '$', 'b', '$', ' ', 'c']

  /** `a$b$ c`, an identifier and a name. */
  lemma GluedExample()
    ensures Out(GLUED, 1) == ' ' && WordOut(GLUED, 1) == '$'
  {
    assert WordModeAt(GLUED, 1) == Word && ModeAt(GLUED, 1) == Code;
    assert PartsEnd(GLUED, 3) == 3;
    assert TagEnd(GLUED, 1) == 4;
    assert TagAt(GLUED, 1) != [];
  }

  /** What a tag with a letter outside ASCII costs: PostgreSQL is in a body after it, and
      the scanner keeps it and is still in code. */
  lemma MissedTagIsCode(src: Text, i: nat, tag: Text)
    requires i < |src| && Clean(src, i) && WordModeAt(src, i) == In(Code)
    requires IsWordTag(tag) && StartsAt(src, i, tag) && exists k :: 0 <= k < |tag| && tag[k] as int >= 0x80
    ensures Out(src, i) == '$' && WordOut(src, i) == ' ' && ModeAt(src, i + 1) == Code
    ensures i + |tag| <= |src| && WordModeAt(src, i + |tag|) == In(Body(tag))
  {
    assert WordTagAt(src, i) == tag && TagAt(src, i) == [] by {
      WordTagAtFinds(src, i, tag);
      MissedTags(src, i);
    }
    assert ModeAt(src, i) == Code by {
      SameModes(src, i);
    }
    MissedOpens(src, i, tag);
  }

  lemma MissedOpens(src: Text, i: nat, tag: Text)
    requires i < |src| && ModeAt(src, i) == Code && WordModeAt(src, i) == In(Code)
    requires TagAt(src, i) == [] && tag == WordTagAt(src, i) && tag != []
    ensures Out(src, i) == '$' && WordOut(src, i) == ' ' && ModeAt(src, i + 1) == Code
    ensures i + |tag| <= |src| && WordModeAt(src, i + |tag|) == In(Body(tag))
  {
    MissedStep(src, i, WordModeAt(src, i));
    WordHoldEnds(src, i + 1, |tag| - 1, Body(tag));
  }

  lemma MissedStep(src: Text, i: nat, m: WordMode)
    requires i < |src| && m == In(Code) && TagAt(src, i) == [] && WordTagAt(src, i) != []
    ensures src[i] == '$' && |WordTagAt(src, i)| >= 2 && Step(src, i, Code) == (false, Code)
    ensures WordStep(src, i, m) == (true, In(Hold(|WordTagAt(src, i)| - 1, true, Body(WordTagAt(src, i)))))
  {
    assert src[i] == '$';
  }

  lemma {:induction false} WordHoldEnds(src: Text, i: nat, n: nat, after: Mode)
    requires n > 0 && i + n <= |src| && WordModeAt(src, i) == In(Hold(n, true, after))
    ensures WordModeAt(src, i + n) == In(after)
    decreases n
  {
    WordHoldStep(src, i, n, after);
    if n > 1 {
      WordHoldEnds(src, i + 1, n - 1, after);
    }
  }

  lemma WordHoldStep(src: Text, i: nat, n: nat, after: Mode)
    requires i < |src| && n > 0 && WordModeAt(src, i) == In(Hold(n, true, after))
    ensures WordModeAt(src, i + 1) == In(Held(n - 1, true, after))
  {
  }

  const WIDE: Text := ['$', '\U{E9}', '$', ' ', 'x', ' ', '$', '\U{E9}', '$']

  lemma WideScanned()
    ensures ModeAt(WIDE, 3) == Code && Out(WIDE, 4) == 'x'
  {
    assert TagEnd(WIDE, 0) == 0 && TagEnd(WIDE, 2) == 2;
    assert TagAt(WIDE, 0) == [] && TagAt(WIDE, 2) == [];
    assert ModeAt(WIDE, 1) == Code && ModeAt(WIDE, 2) == Code;
    NoDollarStep(WIDE, 3);
    NoDollarStep(WIDE, 4);
  }

  lemma NoDollarStep(src: Text, i: nat)
    requires i < |src| && ModeAt(src, i) == Code && (src[i] == ' ' || src[i] == 'x') && i + 1 < |src|
    requires src[i + 1] != '\''
    ensures ModeAt(src, i + 1) == Code && Out(src, i) == src[i]
  {
    assert TagAt(src, i) == [];
  }

  /** A dollar quote whose tag is the letter with code 0xE9. */
  lemma WideExample()
    ensures Out(WIDE, 4) == 'x' && WordOut(WIDE, 4) == ' '
  {
    var tag: Text := ['$', '\U{E9}', '$'];
    assert tag[1] as int >= 0x80;
    MissedTagIsCode(WIDE, 0, tag);
    WideScanned();
    InsideBody(WIDE, 3, tag);
    InsideBody(WIDE, 4, tag);
  }

  lemma InsideBody(src: Text, i: nat, tag: Text)
    requires i < |src| && WordModeAt(src, i) == In(Body(tag)) && tag != [] && src[i] != tag[0] && src[i] != '\n'
    ensures WordModeAt(src, i + 1) == In(Body(tag)) && WordOut(src, i) == ' '
  {
    assert src[i + 0] != tag[0];
  }
}
