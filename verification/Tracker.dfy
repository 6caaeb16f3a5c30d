/** The line tracker of module Psql against the automaton of module Mask: when its open
    tag is the one the whole text is in. Sources: internal/dump/dump.go,
    internal/engine/postgresengine/ddl.go. */
module Tracker {
  import opened Dollar
  import opened Mask
  import opened Psql

  /** The tag of the body a mode is in, "" when it is in none. */
  function TagOf(m: Mode): Text {
    if m.Body? then m.tag else []
  }

  /** In a comment, a literal or a quoted name, where a tag opens nothing. */
  predicate Hidden(m: Mode) {
    match m
    case Hold(_, _, after) => after.Block? || after.Literal? || after.Name?
    case _ => m.Line? || m.Block? || m.Literal? || m.Name?
  }

  /** A tag stands at `k` where it opens nothing. */
  predicate HiddenTag(src: Text, k: nat)
    requires k <= |src|
  {
    Hidden(ModeAt(src, k)) && TagAt(src, k) != []
  }

  /** No literal, comment or quoted name between `i` and `j` holds a tag. */
  ghost predicate NoHiddenTags(src: Text, i: nat, j: nat)
    requires j <= |src|
  {
    forall k :: i <= k < j ==> !HiddenTag(src, k)
  }

  // ----- Stopping the tracker on the way -----

  /** The tag the tracker has open when it is stopped at `j`: after the moves that start
      before it. */
  function TrackTo(s: Text, i: nat, open: Text, j: nat): Text
    decreases |s| - i
  {
    if i >= |s| || i >= j then open else
      var m := Move(s, i, open);
      TrackTo(s, m.0, m.1, j)
  }

  lemma {:induction false} TrackToEnd(s: Text, i: nat, open: Text)
    ensures TrackTo(s, i, open, |s|) == Track(s, i, open)
    decreases |s| - i
  {
    if i < |s| {
      var m := Move(s, i, open);
      TrackToEnd(s, m.0, m.1);
    }
  }

  /** The tracker's moves lead from `i` to `next`, wherever it is stopped later. */
  ghost predicate Leads(s: Text, i: nat, open: Text, next: nat, after: Text) {
    i <= next && forall j :: next <= j ==> TrackTo(s, i, open, j) == TrackTo(s, next, after, j)
  }

  lemma Leading(s: Text, i: nat, open: Text, m: nat, between: Text, next: nat, after: Text)
    requires Leads(s, i, open, m, between) && Leads(s, m, between, next, after)
    ensures Leads(s, i, open, next, after)
  {
  }

  lemma OneMove(s: Text, i: nat, open: Text)
    requires i < |s|
    ensures Leads(s, i, open, Move(s, i, open).0, Move(s, i, open).1)
  {
  }

  // ----- The moves of the tracker beside those of the automaton -----

  /** One character that opens and closes nothing for the tracker. */
  lemma Passes(src: Text, i: nat)
    requires i < |src| && TagAt(src, i) == []
    ensures Leads(src, i, [], i + 1, [])
  {
    OneMove(src, i, []);
  }

  lemma NoDollarNoTag(src: Text, i: nat)
    requires i <= |src| && (i == |src| || src[i] != '$')
    ensures TagAt(src, i) == []
  {
  }

  lemma TagMoves(src: Text, i: nat, tag: Text)
    requires i < |src| && tag == TagAt(src, i) && tag != []
    ensures i + |tag| <= |src| && IsTag(tag) && StartsAt(src, i, tag)
    ensures Leads(src, i, [], i + |tag|, tag)
  {
    TagAtMeans(src, i);
    OneMove(src, i, []);
  }

  lemma BodyMoves(src: Text, i: nat, tag: Text)
    requires i < |src| && tag != [] && !StartsAt(src, i, tag)
    ensures Leads(src, i, tag, i + 1, tag)
  {
    OneMove(src, i, tag);
  }

  /** Where the automaton is after the token at `i`: at the next place that is not inside
      a token. */
  ghost predicate Boundary(src: Text, i: nat) {
    i <= |src| && !ModeAt(src, i).Hold?
  }

  /** One step outside bodies that opens none: it stays outside, and if it starts a token
      of two characters, the second one is no dollar sign or stands in a hidden place. */
  lemma QuietStep(src: Text, i: nat)
    requires Boundary(src, i) && i < |src| && !ModeAt(src, i).Body?
    requires ModeAt(src, i) == Code ==> TagAt(src, i) == []
    ensures var m := ModeAt(src, i + 1);
            && !m.Body?
            && (m.Hold? ==> m.n == 1 && !m.after.Hold? && !m.after.Body?)
            && (m.Hold? && i + 1 < |src| && src[i + 1] == '$' ==> Hidden(m))
  {
  }

  /** The mode after the first character of such a token. */
  predicate Quiet(src: Text, i: nat, m: Mode)
    requires i <= |src|
  {
    && ModeAt(src, i) == m && !m.Body?
    && (m.Hold? ==> m.n == 1 && !m.after.Hold? && !m.after.Body?)
    && (m.Hold? && i < |src| && src[i] == '$' ==> Hidden(m))
  }

  lemma QuietFirst(src: Text, i: nat) returns (m: Mode)
    requires Boundary(src, i) && i < |src| && !ModeAt(src, i).Body? && TagAt(src, i) == []
    ensures Quiet(src, i + 1, m) && Leads(src, i, [], i + 1, [])
  {
    Passes(src, i);
    QuietStep(src, i);
    m := ModeAt(src, i + 1);
  }

  /** Over the second character, if the token has one. */
  lemma QuietRest(src: Text, i: nat, j: nat, m: Mode) returns (next: nat, after: Mode)
    requires i <= j && Boundary(src, j) && NoHiddenTags(src, i, j) && Quiet(src, i, m)
    ensures i <= next <= j && ModeAt(src, next) == after && !after.Hold? && !after.Body?
    ensures Leads(src, i, [], next, [])
  {
    if m.Hold? {
      SecondIsNoTag(src, i, j);
      Passes(src, i);
      HoldStep(src, i);
      next, after := i + 1, m.after;
    } else {
      next, after := i, m;
    }
  }

  /** Outside code and bodies a token is one or two characters, and the tracker passes
      over both. */
  lemma QuietToken(src: Text, i: nat, j: nat) returns (next: nat, after: Mode)
    requires Boundary(src, i) && Boundary(src, j) && i < j && !ModeAt(src, i).Body?
    requires ModeAt(src, i) == Code ==> TagAt(src, i) == []
    requires NoHiddenTags(src, i, j)
    ensures i < next <= j && ModeAt(src, next) == after && !after.Hold? && !after.Body?
    ensures Leads(src, i, [], next, [])
  {
    assert !HiddenTag(src, i);
    assert ModeAt(src, i) != Code ==> Hidden(ModeAt(src, i));
    var m := QuietFirst(src, i);
    next, after := QuietRest(src, i + 1, j, m);
    Leading(src, i, [], i + 1, [], next, []);
  }

  lemma SecondIsNoTag(src: Text, i: nat, j: nat)
    requires i < j <= |src| && NoHiddenTags(src, i, j)
    requires src[i] == '$' ==> Hidden(ModeAt(src, i))
    ensures TagAt(src, i) == []
  {
    assert !HiddenTag(src, i);
    if src[i] != '$' {
      NoDollarNoTag(src, i);
    }
  }

  lemma InsideToken(src: Text, i: nat, d: nat)
    requires i + d <= |src| && ModeAt(src, i).Hold? && d < ModeAt(src, i).n
    ensures ModeAt(src, i + d).Hold?
  {
    HoldAt(src, i, d);
  }

  /** A place between two boundaries is not inside a tag. */
  lemma TagFits(src: Text, i: nat, k: nat, j: nat)
    requires i < j <= |src| && Boundary(src, j) && i + 1 + k <= |src|
    requires ModeAt(src, i + 1).Hold? && k == ModeAt(src, i + 1).n > 0
    ensures i + 1 + k <= j
  {
    if j < i + 1 + k {
      InsideToken(src, i + 1, j - (i + 1));
    }
  }

  lemma ClosesBefore(src: Text, i: nat, j: nat, tag: Text)
    requires Boundary(src, j) && i < j && ModeAt(src, i) == Body(tag) && IsTag(tag) && StartsAt(src, i, tag)
    ensures i < i + |tag| <= j && ModeAt(src, i + |tag|) == Code
  {
    DollarCloses(src, i, tag);
    TagEnds(src, i, tag);
    TagFits(src, i, |tag| - 1, j);
  }

  lemma CloseToken(src: Text, i: nat, j: nat, tag: Text) returns (next: nat)
    requires Boundary(src, j) && i < j && ModeAt(src, i) == Body(tag) && IsTag(tag) && StartsAt(src, i, tag)
    ensures i < next <= j && ModeAt(src, next) == Code && Leads(src, i, tag, next, [])
  {
    next := i + |tag|;
    ClosesBefore(src, i, j, tag);
    OneMove(src, i, tag);
  }

  lemma InBody(src: Text, i: nat, tag: Text)
    requires i < |src| && ModeAt(src, i) == Body(tag) && tag != [] && !StartsAt(src, i, tag)
    ensures ModeAt(src, i + 1) == Body(tag) && Leads(src, i, tag, i + 1, tag)
  {
    BodyMoves(src, i, tag);
  }

  lemma TagIsTag(src: Text, i: nat)
    requires i <= |src| && ModeAt(src, i).Body?
    ensures IsTag(ModeAt(src, i).tag)
  {
    ModesAreSensible(src, i);
  }

  lemma BodyToken(src: Text, i: nat, j: nat, tag: Text) returns (next: nat, after: Mode)
    requires Boundary(src, j) && i < j && ModeAt(src, i) == Body(tag) && IsTag(tag)
    ensures i < next <= j && ModeAt(src, next) == after && !after.Hold?
    ensures Leads(src, i, tag, next, TagOf(after))
  {
    if StartsAt(src, i, tag) {
      next := CloseToken(src, i, j, tag);
      after := Code;
    } else {
      InBody(src, i, tag);
      next, after := i + 1, Body(tag);
    }
  }

  lemma OpenToken(src: Text, i: nat, j: nat, tag: Text)
    requires Boundary(src, j) && i < j && ModeAt(src, i) == Code && tag == TagAt(src, i) && tag != []
    ensures i + |tag| <= j && ModeAt(src, i + |tag|) == Body(tag)
  {
    BodyOpens(src, i, tag);
    TagStarts(src, i, tag);
    TagFits(src, i, |tag| - 1, j);
  }

  lemma OpeningToken(src: Text, i: nat, j: nat) returns (next: nat)
    requires Boundary(src, j) && i < j && ModeAt(src, i) == Code && TagAt(src, i) != []
    ensures i < next <= j && Boundary(src, next)
    ensures Leads(src, i, [], next, TagOf(ModeAt(src, next)))
  {
    next := i + |TagAt(src, i)|;
    OpenToken(src, i, j, TagAt(src, i));
    OpenMoves(src, i, TagAt(src, i), next);
  }

  lemma OpenMoves(src: Text, i: nat, tag: Text, next: nat)
    requires i < |src| && tag == TagAt(src, i) && tag != [] && next == i + |tag| <= |src|
    requires ModeAt(src, next) == Body(tag)
    ensures Leads(src, i, [], next, TagOf(ModeAt(src, next)))
  {
    TagMoves(src, i, tag);
  }

  /** From one boundary to a later one the tracker follows the automaton, when nothing
      hidden between them looks like a tag. */
  lemma {:induction false} TrackerFollows(src: Text, i: nat, j: nat)
    requires i <= j && Boundary(src, i) && Boundary(src, j) && NoHiddenTags(src, i, j)
    ensures Leads(src, i, TagOf(ModeAt(src, i)), j, TagOf(ModeAt(src, j)))
    decreases j - i
  {
    if i < j {
      var next := NextToken(src, i, j);
      TrackerFollows(src, next, j);
      Leading(src, i, TagOf(ModeAt(src, i)), next, TagOf(ModeAt(src, next)), j, TagOf(ModeAt(src, j)));
    }
  }

  lemma NextToken(src: Text, i: nat, j: nat) returns (next: nat)
    requires i < j && Boundary(src, i) && Boundary(src, j) && NoHiddenTags(src, i, j)
    ensures i < next <= j && Boundary(src, next)
    ensures Leads(src, i, TagOf(ModeAt(src, i)), next, TagOf(ModeAt(src, next)))
  {
    if ModeAt(src, i).Body? {
      TagIsTag(src, i);
      var after;
      next, after := BodyToken(src, i, j, ModeAt(src, i).tag);
    } else if ModeAt(src, i) == Code && TagAt(src, i) != [] {
      next := OpeningToken(src, i, j);
    } else {
      var after;
      next, after := QuietToken(src, i, j);
    }
  }

  // ----- Tags in hidden places -----

  /** A token in progress ends in the text, unless it is a backslash at the very end; one
      in a hidden place is a pair at its second character. */
  predicate Fits(src: Text, i: nat, m: Mode) {
    m.Hold? ==>
      && (i + m.n <= |src| || (m.n == 1 && m.after == Literal(true)))
      && (Hidden(m) ==> m.n == 1)
  }

  lemma StepFits(src: Text, i: nat, m: Mode)
    requires i < |src| && Sensible(m) && Fits(src, i, m)
    ensures Fits(src, i + 1, Step(src, i, m).1)
  {
    if TagAt(src, i) != [] {
      TagAtMeans(src, i);
    }
  }

  lemma {:induction false} AlwaysFits(src: Text, i: nat)
    requires i <= |src|
    ensures Fits(src, i, ModeAt(src, i))
  {
    if i > 0 {
      var k := i - 1;
      AlwaysFits(src, k);
      ModesAreSensible(src, k);
      StepFits(src, k, ModeAt(src, k));
    }
  }

  /** The mode once the token in progress is over. */
  function Settled(m: Mode): Mode {
    if m.Hold? then m.after else m
  }

  /** A dollar sign in a hidden pair is one that a backslash escapes. */
  lemma EscapedDollar(src: Text, k: nat)
    requires k < |src| && src[k] == '$' && Hidden(ModeAt(src, k)) && ModeAt(src, k).Hold?
    ensures k > 0 && src[k - 1] == '\\' && ModeAt(src, k - 1) == Literal(true)
    ensures ModeAt(src, k) == Hold(1, true, Literal(true))
  {
    var i := k - 1;
    AlwaysFits(src, i);
    ModesAreSensible(src, i);
    AlwaysFits(src, k);
    HiddenStep(src, i, ModeAt(src, i));
  }

  lemma HiddenStep(src: Text, i: nat, m: Mode)
    requires i + 1 < |src| && Sensible(m) && Fits(src, i, m) && src[i + 1] == '$'
    requires var m' := Step(src, i, m).1; m'.Hold? && Hidden(m') && m'.n == 1
    ensures src[i] == '\\' && m == Literal(true) && Step(src, i, m).1 == Hold(1, true, Literal(true))
  {
  }

  /** Past a dollar sign in a hidden place the text is still in that place. */
  lemma DollarStaysHidden(src: Text, k: nat)
    requires k < |src| && src[k] == '$' && Hidden(ModeAt(src, k))
    ensures ModeAt(src, k + 1) == Settled(ModeAt(src, k))
    ensures Hidden(ModeAt(src, k + 1)) && !ModeAt(src, k + 1).Hold?
  {
    if ModeAt(src, k).Hold? {
      EscapedDollar(src, k);
    }
  }

  /** Up to the first hidden tag the tracker has followed, also when a backslash stands
      before it. */
  lemma FollowedUntil(src: Text, k: nat)
    requires k < |src| && HiddenTag(src, k) && NoHiddenTags(src, 0, k)
    ensures Leads(src, 0, [], k, [])
  {
    if ModeAt(src, k).Hold? {
      EscapedDollar(src, k);
      TrackerFollows(src, 0, k - 1);
      NoDollarNoTag(src, k - 1);
      Passes(src, k - 1);
      Leading(src, 0, [], k - 1, [], k, []);
    } else {
      TrackerFollows(src, 0, k);
    }
  }

  lemma StopsAfterMove(s: Text, i: nat, open: Text)
    requires i < |s|
    ensures TrackTo(s, i, open, i + 1) == Move(s, i, open).1
  {
  }

  lemma TagMove(src: Text, k: nat)
    requires k < |src| && TagAt(src, k) != []
    ensures src[k] == '$' && Move(src, k, []) == (k + |TagAt(src, k)|, TagAt(src, k))
    ensures k + |TagAt(src, k)| <= |src|
  {
  }

  /** The move at the first hidden tag. */
  lemma Misled(src: Text, k: nat)
    requires k < |src| && HiddenTag(src, k) && NoHiddenTags(src, 0, k)
    ensures var m := Move(src, k, []); Leads(src, 0, [], m.0, m.1) && TrackTo(src, 0, [], k + 1) == m.1
  {
    var m := Move(src, k, []);
    FollowedUntil(src, k);
    OneMove(src, k, []);
    Leading(src, 0, [], k, [], m.0, m.1);
    StopsAfterMove(src, k, []);
  }

  // ----- What the tracker is worth -----

  /** Where no token is in progress, the tracker stopped there has the tag open that the
      text is in. */
  ghost predicate Agrees(src: Text, j: nat) {
    Boundary(src, j) ==> TrackTo(src, 0, [], j) == TagOf(ModeAt(src, j))
  }

  /** The tracker's open tag is the text's at every such place if and only if no literal,
      comment or quoted name holds a tag. */
  lemma TrackerIsExact(src: Text)
    ensures (forall j :: 0 <= j <= |src| ==> Agrees(src, j)) <==> NoHiddenTags(src, 0, |src|)
  {
    if NoHiddenTags(src, 0, |src|) {
      forall j | 0 <= j <= |src|
        ensures Agrees(src, j)
      {
        if Boundary(src, j) {
          TrackerFollows(src, 0, j);
        }
      }
    } else {
      var k := FirstHidden(src, |src|);
      Misled(src, k);
      TagMove(src, k);
      DollarStaysHidden(src, k);
      assert !Agrees(src, k + 1);
    }
  }

  lemma {:induction false} FirstHidden(src: Text, n: nat) returns (k: nat)
    requires n <= |src| && !NoHiddenTags(src, 0, n)
    ensures k < n && HiddenTag(src, k) && NoHiddenTags(src, 0, k)
  {
    if NoHiddenTags(src, 0, n - 1) {
      k := n - 1;
    } else {
      k := FirstHidden(src, n - 1);
    }
  }

  /** Then it also ends with the tag of the body the text ends in. */
  lemma TrackerAgrees(src: Text)
    requires NoHiddenTags(src, 0, |src|)
    ensures Track(src, 0, []) == TagOf(ModeAt(src, |src|))
  {
    var n := |src|;
    TrackToEnd(src, 0, []);
    if Boundary(src, n) {
      TrackerFollows(src, 0, n);
    } else {
      CutOff(src);
      TrackerFollows(src, 0, n - 1);
      NoDollarNoTag(src, n - 1);
      Passes(src, n - 1);
      Leading(src, 0, [], n - 1, [], n, []);
    }
  }

  /** A text that ends inside a token ends with a backslash in an escape literal. */
  lemma CutOff(src: Text)
    requires ModeAt(src, |src|).Hold?
    ensures src != [] && src[|src| - 1] == '\\' && ModeAt(src, |src| - 1) == Literal(true)
  {
    var i := |src| - 1;
    AlwaysFits(src, |src|);
    AlwaysFits(src, i);
    ModesAreSensible(src, |src|);
    ModesAreSensible(src, i);
    CutStep(src, i, ModeAt(src, i));
  }

  lemma CutStep(src: Text, i: nat, m: Mode)
    requires i + 1 == |src| && Sensible(m) && Fits(src, i, m)
    requires Step(src, i, m).1.Hold? && Step(src, i, m).1.n > 0
    ensures src[i] == '\\' && m == Literal(true)
  {
    if TagAt(src, i) != [] {
      TagAtMeans(src, i);
    }
  }

  /** A tag in a hidden place does not end it. */
  lemma {:induction false} TagStaysHidden(src: Text, i: nat, tag: Text, k: nat)
    requires i < |src| && Hidden(ModeAt(src, i)) && IsTag(tag) && StartsAt(src, i, tag) && 0 < k <= |tag|
    ensures ModeAt(src, i + k) == Settled(ModeAt(src, i))
  {
    assert src[i + (k - 1)] == tag[k - 1];
    if k == 1 {
      DollarStaysHidden(src, i);
    } else {
      TagStaysHidden(src, i, tag, k - 1);
      assert tag[k - 1] == '$' || IsIdentPart(tag[k - 1]);
    }
  }

  /** The first tag in a hidden place misleads the tracker: past it the tracker is in a
      body, and the text is still in the literal, comment or quoted name. */
  lemma HiddenTagMisleads(src: Text, i: nat, tag: Text)
    requires i < |src| && Hidden(ModeAt(src, i)) && NoHiddenTags(src, 0, i)
    requires tag == TagAt(src, i) && tag != []
    ensures i + |tag| <= |src| && Track(src, 0, []) == Track(src, i + |tag|, tag)
    ensures ModeAt(src, i + |tag|) == Settled(ModeAt(src, i)) && Hidden(ModeAt(src, i + |tag|))
  {
    Misled(src, i);
    TagMove(src, i);
    DollarStaysHidden(src, i);
    LeadsToEnd(src, 0, [], i + |tag|, tag);
    assert ModeAt(src, i + |tag|) == Settled(ModeAt(src, i)) by {
      TagAtMeans(src, i);
      TagStaysHidden(src, i, tag, |tag|);
    }
  }

  lemma LeadsToEnd(s: Text, i: nat, open: Text, next: nat, after: Text)
    requires next <= |s| && Leads(s, i, open, next, after)
    ensures Track(s, i, open) == Track(s, next, after)
  {
    TrackToEnd(s, i, open);
    TrackToEnd(s, next, after);
  }
}
