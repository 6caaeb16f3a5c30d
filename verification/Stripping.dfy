/** Which lines the strip of module Psql drops, in terms of where they stand in the text:
    in code, in a dollar body, or in a literal, comment or quoted name.
    Source: internal/dump/dump.go. */
module Stripping {
  import opened Dollar
  import opened Mask
  import opened Lines
  import opened Psql
  import opened Tracker

  // ----- Lines with their breaks -----

  function Ended(lines: seq<Text>): Text {
    if lines == [] then [] else lines[0] + [NL] + Ended(lines[1..])
  }

  lemma {:induction false} EndedIsJoined(lines: seq<Text>)
    requires lines != []
    ensures Ended(lines) == Join(lines, NL) + [NL]
  {
    if |lines| > 1 {
      EndedIsJoined(lines[1..]);
    }
  }

  lemma {:induction false} EndedAppends(a: seq<Text>, b: seq<Text>)
    ensures Ended(a + b) == Ended(a) + Ended(b)
  {
    if a == [] {
      assert a + b == b;
    } else {
      assert (a + b)[1..] == a[1..] + b;
      EndedAppends(a[1..], b);
    }
  }

  lemma EndsWithBreak(lines: seq<Text>)
    requires lines != []
    ensures Ended(lines) != [] && Ended(lines)[|Ended(lines)| - 1] == NL
  {
    EndedIsJoined(lines);
  }

  /** The last line break changes nothing for the tracker. */
  lemma TrackEnded(lines: seq<Text>)
    ensures Track(Ended(lines), 0, []) == Track(Join(lines, NL), 0, [])
  {
    if lines != [] {
      EndedIsJoined(lines);
      var text := Join(lines, NL);
      TrackTwoLines(text, [], 0, []);
      assert text + [NL] + [] == Ended(lines);
    }
  }

  // ----- A line break ends what is in progress -----

  /** What follows a line break does not matter before it. */
  lemma StepStops(a: Text, b: Text, i: nat, m: Mode)
    requires i <= |a| && Sensible(m)
    ensures Step(a + [NL] + b, i, m) == Step(a + [NL], i, m)
  {
    var s, t := a + [NL] + b, a + [NL];
    assert s[i] == t[i] && (i < |a| ==> s[i + 1] == t[i + 1]);
    assert t == a + [NL] + [];
    TagStops(a, b, i);
    TagStops(a, [], i);
    if m.Body? {
      TagBound(a, b, i, m.tag);
      TagBound(a, [], i, m.tag);
    }
  }

  lemma {:induction false} ModesStop(a: Text, b: Text, i: nat)
    requires i <= |a| + 1
    ensures ModeAt(a + [NL] + b, i) == ModeAt(a + [NL], i)
  {
    if i > 0 {
      var k := i - 1;
      ModesStop(a, b, k);
      ModesAreSensible(a + [NL], k);
      StepStops(a, b, k, ModeAt(a + [NL], k));
    }
  }

  /** No line break stands inside a token that is not hidden. */
  ghost predicate Unbroken(src: Text, i: nat, m: Mode) {
    m.Hold? && !Hidden(m) ==> forall k :: i <= k < i + m.n && k < |src| ==> src[k] != NL
  }

  lemma StepUnbroken(src: Text, i: nat, m: Mode)
    requires i < |src| && Sensible(m) && Unbroken(src, i, m)
    ensures Unbroken(src, i + 1, Step(src, i, m).1)
  {
    if m == Code && TagAt(src, i) != [] {
      TagAtMeans(src, i);
      NoBreakInTag(src, i, TagAt(src, i));
    } else if m.Body? && StartsAt(src, i, m.tag) {
      NoBreakInTag(src, i, m.tag);
    }
  }

  lemma NoBreakInTag(src: Text, i: nat, tag: Text)
    requires IsTag(tag) && StartsAt(src, i, tag)
    ensures forall k :: i <= k < i + |tag| ==> src[k] != NL
  {
    forall k | i <= k < i + |tag|
      ensures src[k] != NL
    {
      assert src[i + (k - i)] == tag[k - i];
    }
  }

  lemma {:induction false} AlwaysUnbroken(src: Text, i: nat)
    requires i <= |src|
    ensures Unbroken(src, i, ModeAt(src, i))
  {
    if i > 0 {
      var k := i - 1;
      AlwaysUnbroken(src, k);
      ModesAreSensible(src, k);
      StepUnbroken(src, k, ModeAt(src, k));
    }
  }

  /** So a line starts in code, in a body, or in a literal, block comment or quoted name. */
  lemma AfterBreak(src: Text, i: nat)
    requires i < |src| && src[i] == NL
    ensures var m := ModeAt(src, i + 1); m == Code || m.Body? || m.Block? || m.Literal? || m.Name?
  {
    AlwaysUnbroken(src, i);
    AlwaysFits(src, i);
    ModesAreSensible(src, i);
    BreakStep(src, i, ModeAt(src, i));
  }

  lemma BreakStep(src: Text, i: nat, m: Mode)
    requires i < |src| && src[i] == NL && Sensible(m) && Fits(src, i, m) && Unbroken(src, i, m)
    ensures var m' := Step(src, i, m).1; m' == Code || m'.Body? || m'.Block? || m'.Literal? || m'.Name?
  {
    assert TagAt(src, i) == [];
  }

  // ----- Where a line stands -----

  /** The lines kept of those before line `i`. */
  function Before(lines: seq<Text>, i: nat): seq<Text>
    requires i <= |lines|
  {
    StripLines(lines[..i], [])
  }

  /** The stripped text, with its last line ended. */
  function Stripped(lines: seq<Text>): Text {
    Ended(StripLines(lines, []))
  }

  predicate Dropped(lines: seq<Text>, i: nat)
    requires i < |lines|
  {
    Before(lines, i + 1) == Before(lines, i)
  }

  lemma StandsInside(lines: seq<Text>, i: nat) returns (rest: Text)
    requires i <= |lines|
    ensures Stripped(lines) == Ended(Before(lines, i)) + rest
  {
    assert lines == lines[..i] + lines[i..];
    StripSplits(lines[..i], lines[i..], []);
    var after := StripLines(lines[i..], TrackLines(Before(lines, i), []));
    EndedAppends(Before(lines, i), after);
    rest := Ended(after);
  }

  /** The mode of the stripped text where line `i` stands, or would stand. */
  function StartMode(lines: seq<Text>, i: nat): Mode
    requires i <= |lines|
  {
    var text, at := Stripped(lines), |Ended(Before(lines, i))|;
    if at <= |text| then ModeAt(text, at) else Code
  }

  /** Up to there the text reads the same without what comes after. */
  lemma PrefixModes(lines: seq<Text>, i: nat, k: nat)
    requires i <= |lines| && k <= |Ended(Before(lines, i))|
    ensures k <= |Stripped(lines)| && ModeAt(Stripped(lines), k) == ModeAt(Ended(Before(lines, i)), k)
    ensures TagAt(Stripped(lines), k) == [] ==> TagAt(Ended(Before(lines, i)), k) == []
  {
    var rest := StandsInside(lines, i);
    var kept := Before(lines, i);
    if kept != [] {
      EndedIsJoined(kept);
      var a := Join(kept, NL);
      assert a + [NL] + rest == Stripped(lines) && a + [NL] == Ended(kept);
      ModesStop(a, rest, k);
      if k <= |a| {
        TagStops(a, rest, k);
        TagStops(a, [], k);
        assert a + [NL] + [] == Ended(kept);
      }
    }
  }

  lemma StartModes(lines: seq<Text>, i: nat)
    requires i <= |lines|
    ensures var m := StartMode(lines, i); m == Code || m.Body? || m.Block? || m.Literal? || m.Name?
    ensures var before := Ended(Before(lines, i)); StartMode(lines, i) == ModeAt(before, |before|)
  {
    var before := Ended(Before(lines, i));
    PrefixModes(lines, i, |before|);
    if Before(lines, i) != [] {
      EndsWithBreak(Before(lines, i));
      AfterBreak(before, |before| - 1);
    }
  }

  lemma NoneHiddenBefore(lines: seq<Text>, i: nat)
    requires i <= |lines| && NoHiddenTags(Stripped(lines), 0, |Stripped(lines)|)
    ensures var before := Ended(Before(lines, i)); NoHiddenTags(before, 0, |before|)
  {
    var before := Ended(Before(lines, i));
    forall k | 0 <= k < |before|
      ensures !HiddenTag(before, k)
    {
      PrefixModes(lines, i, k);
      var rest := StandsInside(lines, i);
      assert !HiddenTag(Stripped(lines), k);
    }
  }

  // ----- What is dropped -----

  /** When no literal, comment or quoted name of the stripped text holds a tag, a line is
      dropped exactly when it is a meta-command and does not stand in a dollar body. */
  lemma FateByMode(lines: seq<Text>, i: nat)
    requires i < |lines| && NoHiddenTags(Stripped(lines), 0, |Stripped(lines)|)
    ensures Dropped(lines, i) <==> MetaCommand(lines[i]) && !StartMode(lines, i).Body?
  {
    var before := Ended(Before(lines, i));
    LineFate(lines, i);
    TrackEnded(Before(lines, i));
    NoneHiddenBefore(lines, i);
    TrackerAgrees(before);
    StartModes(lines, i);
    ModesAreSensible(before, |before|);
  }

  /** Then the strip drops exactly the meta-commands that stand in code if and only if no
      line of a literal, block comment or quoted name starts with a backslash. */
  lemma StripIsExact(lines: seq<Text>)
    requires NoHiddenTags(Stripped(lines), 0, |Stripped(lines)|)
    ensures (forall i :: 0 <= i < |lines| ==>
               (Dropped(lines, i) <==> MetaCommand(lines[i]) && StartMode(lines, i) == Code))
            <==> (forall i :: 0 <= i < |lines| && MetaCommand(lines[i]) ==> !Hidden(StartMode(lines, i)))
  {
    forall i | 0 <= i < |lines|
      ensures (Dropped(lines, i) <==> MetaCommand(lines[i]) && StartMode(lines, i) == Code)
              <==> (MetaCommand(lines[i]) ==> !Hidden(StartMode(lines, i)))
    {
      FateByMode(lines, i);
      StartModes(lines, i);
    }
  }

  // ----- Where it goes wrong -----

  /** After a line comment that leaves the tracker in a body, a meta-command is kept,
      although it stands in code. */
  lemma CommentKeepsMeta(comment: Text, meta: Text)
    requires |comment| >= 2 && comment[0] == '-' && comment[1] == '-' && NL !in comment
    requires Track(comment, 0, []) != [] && MetaCommand(meta)
    ensures StripLines([comment, meta], []) == [comment, meta]
    ensures StartMode([comment, meta], 1) == Code
  {
    var lines := [comment, meta];
    assert !MetaCommand(comment);
    assert lines[1..] == [meta] && lines[..1] == [comment];
    assert StripLines([meta], Track(comment, 0, [])) == [meta];
    assert StripLines([comment], []) == [comment];
    StartModes(lines, 1);
    var text := comment + [NL];
    assert Ended([comment]) == text;
    assert ModeAt(text, 1) == Line;
    LineRun(text, 1, |comment|);
    assert ModeAt(text, |text|) == Code;
  }

  /** Two dollar signs beside each other and no others leave a body open. */
  lemma PairOpens(line: Text, at: nat)
    requires at + 1 < |line|
    requires forall k :: 0 <= k < |line| ==> (line[k] == '$' <==> k == at || k == at + 1)
    ensures Track(line, 0, []) == ['$', '$']
  {
    var tag: Text := ['$', '$'];
    CodeSkips(line, 0, at);
    TagAtFinds(line, at, tag);
    TagMoves(line, at, tag);
    forall k | at + 2 <= k < |line|
      ensures !StartsAt(line, k, tag)
    {
      assert line[k + 0] != tag[0];
    }
    BodySkips(line, at + 2, |line|, tag);
    assert Move(line, at, []) == (at + 2, tag);
  }

  const HEADER: Text := "-- Name: a$$b; Type: TABLE"

  const UNRESTRICT: Text := "\\unrestrict x"

  lemma HeaderDollars()
    ensures |HEADER| == 26 && forall k :: 0 <= k < |HEADER| ==> (HEADER[k] == '$' <==> k == 10 || k == 11)
  {
  }

  lemma HeaderLine()
    ensures |HEADER| == 26 && HEADER[0] == '-' && HEADER[1] == '-' && NL !in HEADER
  {
  }

  /** A header that pg_dump writes for a table named `a$$b`, and the line it ends with. */
  lemma HeaderKeepsMeta()
    ensures StripLines([HEADER, UNRESTRICT], []) == [HEADER, UNRESTRICT]
    ensures StartMode([HEADER, UNRESTRICT], 1) == Code && MetaCommand(UNRESTRICT)
  {
    HeaderDollars();
    HeaderLine();
    PairOpens(HEADER, 10);
    CommentKeepsMeta(HEADER, UNRESTRICT);
  }

  /** A literal of two lines whose second one starts with a backslash loses that line. */
  lemma LiteralLosesLine()
    ensures StripLines([['\''], ['\\', '\'']], []) == [['\'']]
    ensures StartMode([['\''], ['\\', '\'']], 1) == Literal(false)
  {
    var first: Text, second: Text := ['\''], ['\\', '\''];
    var lines := [first, second];
    assert lines[1..] == [second] && lines[..1] == [first] && [second][1..] == [];
    assert TagAt(first, 0) == [] && Track(first, 0, []) == [];
    assert StripLines([second], []) == [];
    assert StripLines([first], []) == [first];
    StartModes(lines, 1);
    var text := first + [NL];
    assert Ended([first]) == text;
    assert ModeAt(text, 1) == Literal(false);
  }
}
