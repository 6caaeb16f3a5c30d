/** Stripping psql meta-commands from a dump line by line, against tracking dollar quotes
    over the whole text. Source: internal/dump/dump.go. */
module Psql {
  import opened Dollar
  import opened Lines

  const NL: byte := '\n'

  /** One move of the tracker: how far it goes and the tag open after it. */
  function Move(s: Text, i: nat, open: Text): (m: (nat, Text))
    requires i < |s|
    ensures m.0 > i
  {
    if open != [] then
      if StartsAt(s, i, open) then (i + |open|, []) else (i + 1, open)
    else
      var tag := TagAt(s, i);
      if tag != [] then (i + |tag|, tag) else (i + 1, [])
  }

  /** The dollar tag open at the end of `s`, given the one open at `i` ("" for none). */
  function Track(s: Text, i: nat, open: Text): Text
    decreases |s| - i
  {
    if i >= |s| then open else
      var m := Move(s, i, open);
      Track(s, m.0, m.1)
  }

  predicate OpenTag(open: Text) {
    open == [] || IsTag(open)
  }

  lemma {:induction false} TrackIsTag(s: Text, i: nat, open: Text)
    requires OpenTag(open)
    ensures OpenTag(Track(s, i, open))
    decreases |s| - i
  {
    if i < |s| {
      if open != [] {
        TrackIsTag(s, i + 1, open);
        TrackIsTag(s, i + |open|, []);
      } else if TagAt(s, i) != [] {
        TagAtMeans(s, i);
        TrackIsTag(s, i + |TagAt(s, i)|, TagAt(s, i));
      } else {
        TrackIsTag(s, i + 1, []);
      }
    }
  }

  // ----- A line break separates the lines for the tracker -----

  lemma {:induction false} PartsStop(a: Text, b: Text, k: nat)
    requires k <= |a|
    ensures PartsEnd(a + ['\n'] + b, k) == PartsEnd(a, k)
    decreases |a| - k
  {
    var s := a + ['\n'] + b;
    assert s[|a|] == '\n';
    if k < |a| && IsIdentPart(a[k]) {
      assert s[k] == a[k];
      PartsStop(a, b, k + 1);
    }
  }

  lemma TagStops(a: Text, b: Text, i: nat)
    requires i <= |a|
    ensures TagAt(a + ['\n'] + b, i) == TagAt(a, i)
  {
    var s := a + ['\n'] + b;
    assert s[|a|] == '\n' && forall k :: 0 <= k < |a| ==> s[k] == a[k];
    if i + 2 <= |a| {
      PartsStop(a, b, i + 2);
    }
    assert TagEnd(s, i) == TagEnd(a, i);
    assert s[i..TagEnd(a, i)] == a[i..TagEnd(a, i)];
  }

  lemma TagBound(a: Text, b: Text, i: nat, tag: Text)
    requires i <= |a| && IsTag(tag)
    ensures StartsAt(a + ['\n'] + b, i, tag) <==> StartsAt(a, i, tag)
  {
    var s := a + ['\n'] + b;
    assert s[|a|] == '\n' && forall k :: 0 <= k < |a| ==> s[k] == a[k];
    if |a| < i + |tag| <= |s| {
      assert tag[|a| - i] != '\n' && s[i + (|a| - i)] == '\n';
    }
  }

  lemma StartShifts(a: Text, b: Text, k: nat, t: Text)
    ensures StartsAt(a + b, |a| + k, t) <==> StartsAt(b, k, t)
  {
    if k + |t| <= |b| {
      assert (a + b)[|a| + k..|a| + k + |t|] == b[k..k + |t|];
      SliceStarts(a + b, |a| + k, t);
      SliceStarts(b, k, t);
    }
  }

  /** Whatever precedes it, a suffix is tracked the same. */
  lemma {:induction false} TrackShifts(a: Text, b: Text, k: nat, open: Text)
    requires k <= |b|
    ensures Track(a + b, |a| + k, open) == Track(b, k, open)
    decreases |b| - k
  {
    if k < |b| {
      MoveShifts(a, b, k, open);
      var m := Move(b, k, open);
      MoveBound(b, k, open);
      TrackShifts(a, b, m.0, m.1);
    }
  }

  lemma MoveBound(s: Text, i: nat, open: Text)
    requires i < |s|
    ensures Move(s, i, open).0 <= |s|
  {
  }

  lemma MoveShifts(a: Text, b: Text, k: nat, open: Text)
    requires k < |b|
    ensures |a| + k < |a + b|
    ensures Move(a + b, |a| + k, open) == (|a| + Move(b, k, open).0, Move(b, k, open).1)
  {
    if open != [] {
      StartShifts(a, b, k, open);
    } else {
      TagShifts(a, b, k);
    }
  }

  lemma {:induction false} PartsShift(a: Text, b: Text, k: nat)
    requires k <= |b|
    ensures PartsEnd(a + b, |a| + k) == |a| + PartsEnd(b, k)
    decreases |b| - k
  {
    if k < |b| {
      assert (a + b)[|a| + k] == b[k];
      if IsIdentPart(b[k]) {
        PartsShift(a, b, k + 1);
      }
    }
  }

  lemma TagShifts(a: Text, b: Text, k: nat)
    requires k <= |b|
    ensures TagAt(a + b, |a| + k) == TagAt(b, k)
  {
    TagEndShifts(a, b, k);
    SliceShifts(a, b, k, TagEnd(b, k));
  }

  lemma TagEndShifts(a: Text, b: Text, k: nat)
    requires k <= |b|
    ensures TagEnd(a + b, |a| + k) == |a| + TagEnd(b, k)
  {
    assert k < |b| ==> (a + b)[|a| + k] == b[k];
    assert k + 1 < |b| ==> (a + b)[|a| + k + 1] == b[k + 1];
    if k + 2 <= |b| {
      PartsShift(a, b, k + 2);
      assert PartsEnd(b, k + 2) < |b| ==> (a + b)[|a| + PartsEnd(b, k + 2)] == b[PartsEnd(b, k + 2)];
    }
  }

  lemma SliceShifts(a: Text, b: Text, i: nat, j: nat)
    requires i <= j <= |b|
    ensures (a + b)[|a| + i..|a| + j] == b[i..j]
  {
  }

  /** Tracking two lines as one text is tracking the second from the state after the
      first. */
  lemma {:induction false} TrackTwoLines(a: Text, b: Text, i: nat, open: Text)
    requires i <= |a| && OpenTag(open)
    ensures Track(a + ['\n'] + b, i, open) == Track(b, 0, Track(a, i, open))
    decreases |a| - i
  {
    if i == |a| {
      TrackAtBreak(a, b, open);
    } else {
      MoveStops(a, b, i, open);
      var m := Move(a, i, open);
      TrackTwoLines(a, b, m.0, m.1);
    }
  }

  lemma TrackAtBreak(a: Text, b: Text, open: Text)
    requires OpenTag(open)
    ensures Track(a + ['\n'] + b, |a|, open) == Track(b, 0, open)
  {
    BreakMoves(a, b, open);
    TrackShifts(a + ['\n'], b, 0, open);
  }

  /** Within a line the tracker does not see what follows the line break. */
  lemma MoveStops(a: Text, b: Text, i: nat, open: Text)
    requires i < |a| && OpenTag(open)
    ensures Move(a + ['\n'] + b, i, open) == Move(a, i, open)
    ensures Move(a, i, open).0 <= |a| && OpenTag(Move(a, i, open).1)
  {
    if open != [] {
      TagBound(a, b, i, open);
    } else {
      TagStops(a, b, i);
      if TagAt(a, i) != [] {
        TagAtMeans(a, i);
      }
    }
  }

  /** The line break itself opens and closes nothing. */
  lemma BreakMoves(a: Text, b: Text, open: Text)
    requires OpenTag(open)
    ensures Track(a + ['\n'] + b, |a|, open) == Track(a + ['\n'] + b, |a| + 1, open)
  {
    var s := a + ['\n'] + b;
    assert s[|a|] == '\n';
    if open != [] {
      assert s[|a| + 0] == '\n' && open[0] == '$';
    }
    assert Move(s, |a|, open) == (|a| + 1, open);
  }

  // ----- Lines -----

  /** The tag open after tracking line by line. */
  function TrackLines(lines: seq<Text>, open: Text): Text
    decreases |lines|
  {
    if lines == [] then open else TrackLines(lines[1..], Track(lines[0], 0, open))
  }

  /** Line-wise tracking is tracking of the whole text. */
  lemma {:induction false} LinewiseIsWhole(lines: seq<Text>, open: Text)
    requires OpenTag(open)
    ensures TrackLines(lines, open) == Track(Join(lines, NL), 0, open)
    decreases |lines|
  {
    if |lines| == 1 {
      assert TrackLines(lines[1..], Track(lines[0], 0, open)) == Track(lines[0], 0, open);
    } else if |lines| > 1 {
      TrackIsTag(lines[0], 0, open);
      LinewiseIsWhole(lines[1..], Track(lines[0], 0, open));
      TrackTwoLines(lines[0], Join(lines[1..], NL), 0, open);
    }
  }

  // ----- Stripping -----

  /** The first character of the line that is not a space or tab is a backslash. */
  predicate MetaCommand(line: Text) {
    line != [] && (line[0] == '\\' || ((line[0] == ' ' || line[0] == '\t') && MetaCommand(line[1..])))
  }

  /** Only blanks and tabs before a backslash. */
  lemma {:induction false} MetaCommandMeans(line: Text)
    ensures MetaCommand(line) <==>
            exists k :: && 0 <= k < |line| && line[k] == '\\'
                        && forall j :: 0 <= j < k ==> line[j] == ' ' || line[j] == '\t'
  {
    if line != [] {
      MetaCommandMeans(line[1..]);
      if MetaCommand(line[1..]) && (line[0] == ' ' || line[0] == '\t') {
        var k :| && 0 <= k < |line[1..]| && line[1..][k] == '\\'
                 && forall j :: 0 <= j < k ==> line[1..][j] == ' ' || line[1..][j] == '\t';
        assert line[k + 1] == '\\';
        forall j | 0 <= j < k + 1
          ensures line[j] == ' ' || line[j] == '\t'
        {
          assert j == 0 || line[j] == line[1..][j - 1];
        }
      }
      if k :| 0 <= k < |line| && line[k] == '\\' && forall j :: 0 <= j < k ==> line[j] == ' ' || line[j] == '\t' {
        if k > 0 {
          assert line[1..][k - 1] == '\\';
          assert forall j :: 0 <= j < k - 1 ==> line[1..][j] == line[j + 1];
        }
      }
    }
  }

  function StripLines(lines: seq<Text>, open: Text): (kept: seq<Text>)
    ensures forall l :: l in kept ==> l in lines
    decreases |lines|
  {
    if lines == [] then []
    else if open == [] && MetaCommand(lines[0]) then StripLines(lines[1..], open)
    else [lines[0]] + StripLines(lines[1..], Track(lines[0], 0, open))
  }

  function Strip(s: Text): Text {
    Join(StripLines(Split(s, NL), []), NL)
  }

  lemma {:induction false} StripSplits(a: seq<Text>, b: seq<Text>, open: Text)
    ensures StripLines(a + b, open) == StripLines(a, open) + StripLines(b, TrackLines(StripLines(a, open), open))
    decreases |a|
  {
    if a == [] {
      assert a + b == b;
    } else {
      assert (a + b)[1..] == a[1..] + b;
      if open == [] && MetaCommand(a[0]) {
        StripSplits(a[1..], b, open);
      } else {
        StripSplits(a[1..], b, Track(a[0], 0, open));
        assert StripLines(a, open)[1..] == StripLines(a[1..], Track(a[0], 0, open));
      }
    }
  }

  /** What happens to one line: it is dropped exactly when it is a meta-command and no
      dollar body is open in the text kept before it; the lines kept stay in order. */
  lemma LineFate(lines: seq<Text>, i: nat)
    requires i < |lines|
    ensures var before := StripLines(lines[..i], []);
            StripLines(lines[..i + 1], []) ==
            if MetaCommand(lines[i]) && Track(Join(before, NL), 0, []) == [] then before else before + [lines[i]]
  {
    assert lines[..i + 1] == lines[..i] + [lines[i]];
    StripSplits(lines[..i], [lines[i]], []);
    LinewiseIsWhole(StripLines(lines[..i], []), []);
  }

  lemma {:induction false} StripLinesTwice(lines: seq<Text>, open: Text)
    ensures StripLines(StripLines(lines, open), open) == StripLines(lines, open)
    decreases |lines|
  {
    if lines != [] {
      if open == [] && MetaCommand(lines[0]) {
        StripLinesTwice(lines[1..], open);
      } else {
        StripLinesTwice(lines[1..], Track(lines[0], 0, open));
        assert StripLines(lines, open)[1..] == StripLines(lines[1..], Track(lines[0], 0, open));
      }
    }
  }

  /** Stripping twice is stripping once. */
  lemma StripIsIdempotent(s: Text)
    ensures Strip(Strip(s)) == Strip(s)
  {
    var kept := StripLines(Split(s, NL), []);
    if kept == [] {
      assert Split([], NL) == [[]] && StripLines([[]], []) == [[]];
    } else {
      SplitJoin(kept, NL);
      StripLinesTwice(Split(s, NL), []);
    }
  }

  lemma {:induction false} NoMetaWithoutBackslash(line: Text)
    requires '\\' !in line
    ensures !MetaCommand(line)
  {
    if line != [] {
      NoMetaWithoutBackslash(line[1..]);
    }
  }

  lemma {:induction false} StripsNothing(lines: seq<Text>, open: Text)
    requires forall l :: l in lines ==> !MetaCommand(l)
    ensures StripLines(lines, open) == lines
    decreases |lines|
  {
    if lines != [] {
      StripsNothing(lines[1..], Track(lines[0], 0, open));
    }
  }

  /** Without a backslash the full pass changes nothing, so the early return is exact. */
  lemma FastPath(s: Text)
    requires '\\' !in s
    ensures Strip(s) == s
  {
    SplitCharacters<byte>(s, NL, '\\');
    forall l | l in Split(s, NL)
      ensures !MetaCommand(l)
    {
      NoMetaWithoutBackslash(l);
    }
    StripsNothing(Split(s, NL), []);
    JoinSplit(s, NL);
  }

  // ----- The code -----

  /** The recogniser of this file: it differs in form from the masker's and finds the
      same tags. */
  method DollarTagAt(s: Text, i: nat) returns (tag: Text)
    requires i <= |s|
    ensures tag == TagAt(s, i)
  {
    if i == |s| || s[i] != '$' {
      return [];
    }
    var k := i + 1;
    while k < |s|
      invariant i < k <= |s|
      invariant k > i + 1 ==> IsIdentStart(s[i + 1]) && PartsEnd(s, i + 2) == PartsEnd(s, k)
    {
      var c := s[k];
      if c == '$' {
        return s[i..k + 1];
      }
      var isIdent := c == '_' || 'a' <= c <= 'z' || 'A' <= c <= 'Z' || ('0' <= c <= '9' && k > i + 1);
      if !isIdent {
        return [];
      }
      k := k + 1;
    }
    return [];
  }

  lemma CloseMoves(s: Text, i: nat, open: Text)
    requires IsTag(open) && StartsAt(s, i, open)
    ensures Track(s, i, open) == Track(s, i + |open|, [])
  {
    assert Move(s, i, open) == (i + |open|, []);
  }

  lemma {:induction false} BodySkips(s: Text, i: nat, j: nat, open: Text)
    requires open != [] && i <= j <= |s|
    requires forall k :: i <= k < j ==> !StartsAt(s, k, open)
    ensures Track(s, i, open) == Track(s, j, open)
    decreases j - i
  {
    if i < j {
      BodySkips(s, i + 1, j, open);
    }
  }

  lemma {:induction false} CodeSkips(s: Text, i: nat, j: nat)
    requires i <= j <= |s|
    requires forall k :: i <= k < j ==> s[k] != '$'
    ensures Track(s, i, []) == Track(s, j, [])
    decreases j - i
  {
    if i < j {
      CodeSkips(s, i + 1, j);
    }
  }

  /** Jumps past the closing tag, if there is one. */
  method CloseTag(line: Text, i: nat, open: Text) returns (found: bool, next: nat)
    requires i < |line| && IsTag(open)
    ensures found ==> i < next && Track(line, i, open) == Track(line, next, [])
    ensures !found ==> Track(line, i, open) == open
  {
    var idx;
    found, idx := Index(line, i, open);
    next := idx + |open|;
    if found {
      BodySkips(line, i, idx, open);
      CloseMoves(line, idx, open);
    } else {
      BodySkips(line, i, |line|, open);
    }
  }

  lemma MoveFrom(line: Text, i: nat)
    requires i < |line|
    ensures var tag := TagAt(line, i);
            && OpenTag(tag)
            && Track(line, i, []) == (if tag == [] then Track(line, i + 1, []) else Track(line, i + |tag|, tag))
  {
    if TagAt(line, i) != [] {
      TagAtMeans(line, i);
    }
  }

  /** Jumps past the next opening tag, or past a dollar sign that opens none. */
  method OpenTagAfter(line: Text, i: nat) returns (found: bool, next: nat, tag: Text)
    requires i < |line|
    ensures found ==> i < next && OpenTag(tag) && Track(line, i, []) == Track(line, next, tag)
    ensures !found ==> Track(line, i, []) == []
  {
    var idx;
    found, idx := IndexByte(line, i, '$');
    CodeSkips(line, i, if found then idx else |line|);
    next, tag := idx, [];
    if found {
      tag := DollarTagAt(line, idx);
      MoveFrom(line, idx);
      if tag == [] {
        next := idx + 1;
      } else {
        next := idx + |tag|;
      }
    }
  }

  /** The tag still open at the end of the line, found by jumping from tag to tag. */
  method TrackDollarQuote(line: Text, initial: Text) returns (open: Text)
    requires OpenTag(initial)
    ensures open == Track(line, 0, initial)
  {
    open := initial;
    var i := 0;
    while i < |line|
      invariant Track(line, i, open) == Track(line, 0, initial)
      invariant OpenTag(open)
      decreases |line| - i
    {
      var found;
      if open != [] {
        found, i := CloseTag(line, i, open);
        if !found {
          return;
        }
        open := [];
      } else {
        found, i, open := OpenTagAfter(line, i);
        if !found {
          return [];
        }
      }
    }
  }

  /** `strings.HasPrefix(strings.TrimLeft(line, " \t"), "\\")`. */
  method LeadsWithBackslash(line: Text) returns (meta: bool)
    ensures meta == MetaCommand(line)
  {
    var i := 0;
    while i < |line| && (line[i] == ' ' || line[i] == '\t')
      invariant i <= |line|
      invariant MetaCommand(line) == MetaCommand(line[i..])
    {
      assert line[i..][1..] == line[i + 1..];
      i := i + 1;
    }
    meta := i < |line| && line[i] == '\\';
  }

  /** Drops the meta-command lines outside dollar bodies; a text without a backslash is
      returned as it is. */
  method StripPsqlMetaCommands(sqlText: Text) returns (stripped: Text)
    ensures stripped == Strip(sqlText)
  {
    if '\\' !in sqlText {
      FastPath(sqlText);
      return sqlText;
    }
    var lines := Split(sqlText, NL);
    var kept: seq<Text> := [];
    var dollarTag: Text := [];
    for i := 0 to |lines|
      invariant OpenTag(dollarTag)
      invariant kept + StripLines(lines[i..], dollarTag) == StripLines(lines, [])
    {
      var line := lines[i];
      assert lines[i..][0] == line && lines[i..][1..] == lines[i + 1..];
      var meta := LeadsWithBackslash(line);
      if dollarTag == [] && meta {
        continue;
      }
      TrackIsTag(line, 0, dollarTag);
      var rest := StripLines(lines[i + 1..], Track(line, 0, dollarTag));
      assert kept + ([line] + rest) == kept + [line] + rest;
      dollarTag := TrackDollarQuote(line, dollarTag);
      kept := kept + [line];
    }
    assert kept + [] == kept;
    stripped := Join(kept, NL);
  }
}
