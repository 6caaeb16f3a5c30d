/** Cutting a text at its line breaks and joining the lines again. */
module Lines {

  /** `strings.Split` at a one-element separator: there is always at least one line. */
  function Split<T(==)>(s: seq<T>, sep: T): (lines: seq<seq<T>>)
    ensures |lines| > 0
    ensures forall l :: l in lines ==> sep !in l
  {
    if s == [] then [[]]
    else
      var rest := Split(s[1..], sep);
      if s[0] == sep then [[]] + rest else [[s[0]] + rest[0]] + rest[1..]
  }

  function Join<T>(lines: seq<seq<T>>, sep: T): seq<T> {
    if lines == [] then [] else if |lines| == 1 then lines[0] else lines[0] + [sep] + Join(lines[1..], sep)
  }

  lemma {:induction false} JoinSplit<T>(s: seq<T>, sep: T)
    ensures Join(Split(s, sep), sep) == s
  {
    if s != [] {
      JoinSplit(s[1..], sep);
      var rest := Split(s[1..], sep);
      if s[0] == sep {
        assert Split(s, sep)[1..] == rest;
      } else {
        assert Split(s, sep)[1..] == rest[1..];
      }
    }
  }

  lemma {:induction false} SplitLine<T>(l: seq<T>, rest: seq<T>, sep: T)
    requires sep !in l
    ensures Split(l + [sep] + rest, sep) == [l] + Split(rest, sep)
  {
    if l == [] {
      assert (l + [sep] + rest)[1..] == rest;
    } else {
      assert (l + [sep] + rest)[1..] == l[1..] + [sep] + rest;
      SplitLine(l[1..], rest, sep);
      assert [l[0]] + l[1..] == l;
    }
  }

  lemma {:induction false} SplitOneLine<T>(l: seq<T>, sep: T)
    requires sep !in l
    ensures Split(l, sep) == [l]
  {
    if l != [] {
      SplitOneLine(l[1..], sep);
      assert [l[0]] + l[1..] == l;
    }
  }

  lemma {:induction false} SplitJoin<T>(lines: seq<seq<T>>, sep: T)
    requires lines != [] && forall l :: l in lines ==> sep !in l
    ensures Split(Join(lines, sep), sep) == lines
  {
    if |lines| == 1 {
      SplitOneLine(lines[0], sep);
    } else {
      SplitJoin(lines[1..], sep);
      SplitLine(lines[0], Join(lines[1..], sep), sep);
    }
  }

  /** A character that is not in the text is in none of its lines. */
  lemma {:induction false} SplitCharacters<T>(s: seq<T>, sep: T, b: T)
    requires b !in s
    ensures forall l :: l in Split(s, sep) ==> b !in l
  {
    if s != [] {
      SplitCharacters(s[1..], sep, b);
      var rest := Split(s[1..], sep);
      assert s[0] in s && rest[0] in rest;
    }
  }
}
