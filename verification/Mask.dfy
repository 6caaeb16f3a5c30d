/** Masking the parts of a migration that are not executable, against an automaton that
    reads one character at a time. Source: internal/engine/postgresengine/ddl.go. */
module Mask {
  import opened Dollar

  /** Where the automaton is before a character. `Hold` is inside a token of several
      characters of which `n` are still to come. */
  datatype Mode =
    | Code
    | Line
    | Block(depth: nat)
    | Literal(escape: bool)
    | Name
    | Body(tag: Text)
    | Hold(n: nat, masked: bool, after: Mode)

  function Held(n: nat, masked: bool, after: Mode): Mode {
    if n == 0 then after else Hold(n, masked, after)
  }

  predicate Pair(src: Text, i: nat, a: byte, b: byte) {
    i + 1 < |src| && src[i] == a && src[i + 1] == b
  }

  predicate EscapeOpens(src: Text, i: nat) {
    Pair(src, i, 'E', '\'') || Pair(src, i, 'e', '\'')
  }

  /** One character: whether it is masked, and the mode after it. Comments are those of
      PostgreSQL's section 4.1.5; block comments nest. */
  function Step(src: Text, i: nat, m: Mode): (r: (bool, Mode))
    requires i < |src|
  {
    match m
    case Code =>
      if Pair(src, i, '-', '-') then (true, Line)
      else if Pair(src, i, '/', '*') then (true, Hold(1, true, Block(1)))
      else if src[i] == '\'' then (true, Literal(false))
      else if EscapeOpens(src, i) then (true, Hold(1, true, Literal(true)))
      else if src[i] == '"' then (false, Name)
      else
        var tag := TagAt(src, i);
        if tag != [] then (true, Held(|tag| - 1, true, Body(tag))) else (false, Code)
    case Line => (true, if src[i] == '\n' then Code else Line)
    case Block(depth) =>
      if Pair(src, i, '/', '*') then (true, Hold(1, true, Block(depth + 1)))
      else if Pair(src, i, '*', '/') then (true, Hold(1, true, if depth <= 1 then Code else Block(depth - 1)))
      else (true, Block(depth))
    case Literal(escape) =>
      if escape && src[i] == '\\' then (true, Hold(1, true, Literal(escape)))
      else if Pair(src, i, '\'', '\'') then (true, Hold(1, true, Literal(escape)))
      else (true, if src[i] == '\'' then Code else Literal(escape))
    case Name =>
      if Pair(src, i, '"', '"') then (false, Hold(1, false, Name))
      else (false, if src[i] == '"' then Code else Name)
    case Body(tag) =>
      if tag != [] && StartsAt(src, i, tag) then (true, Held(|tag| - 1, true, Code)) else (true, Body(tag))
    case Hold(n, masked, after) => (masked, if n <= 1 then after else Hold(n - 1, masked, after))
  }

  /** The mode before character `i`. */
  function ModeAt(src: Text, i: nat): Mode
    requires i <= |src|
  {
    if i == 0 then Code else Step(src, i - 1, ModeAt(src, i - 1)).1
  }

  predicate Masked(src: Text, i: nat)
    requires i < |src|
  {
    Step(src, i, ModeAt(src, i)).0
  }

  /** What the automaton writes for character `i`: masked characters become spaces, and
      line breaks always stay. */
  function Out(src: Text, i: nat): byte
    requires i < |src|
  {
    if Masked(src, i) && src[i] != '\n' then ' ' else src[i]
  }

  function MaskText(src: Text): (out: Text)
    ensures |out| == |src|
    ensures forall i :: 0 <= i < |src| ==> out[i] == Out(src, i)
  {
    seq(|src|, i requires 0 <= i < |src| => Out(src, i))
  }

  /** Everything from `i` to `j`, or to the end of the text, is masked. */
  ghost predicate AllMasked(src: Text, i: nat, j: nat) {
    forall k :: i <= k < j && k < |src| ==> Masked(src, k)
  }

  ghost predicate NoneMasked(src: Text, i: nat, j: nat) {
    forall k :: i <= k < j && k < |src| ==> !Masked(src, k)
  }

  lemma Joined(src: Text, i: nat, m: nat, j: nat)
    requires AllMasked(src, i, m) && AllMasked(src, m, j)
    ensures AllMasked(src, i, j)
  {
  }

  // ----- Runs of one mode -----

  lemma HoldStep(src: Text, j: nat)
    requires j < |src| && ModeAt(src, j).Hold?
    ensures var h := ModeAt(src, j);
            && Masked(src, j) == h.masked
            && ModeAt(src, j + 1) == if h.n <= 1 then h.after else Hold(h.n - 1, h.masked, h.after)
  {
  }

  lemma {:induction false} HoldAt(src: Text, i: nat, k: nat)
    requires i <= i + k <= |src| && ModeAt(src, i).Hold? && k <= ModeAt(src, i).n && ModeAt(src, i).n > 0
    ensures ModeAt(src, i + k) == Held(ModeAt(src, i).n - k, ModeAt(src, i).masked, ModeAt(src, i).after)
  {
    if k > 0 {
      HoldAt(src, i, k - 1);
      HoldStep(src, i + k - 1);
    }
  }

  lemma HoldMaskedAt(src: Text, i: nat, k: nat)
    requires i + k < |src| && ModeAt(src, i).Hold? && ModeAt(src, i).masked && k < ModeAt(src, i).n
    ensures Masked(src, i + k)
  {
    HoldAt(src, i, k);
    HoldStep(src, i + k);
  }

  lemma HoldRun(src: Text, i: nat, k: nat)
    requires i <= i + k <= |src| && ModeAt(src, i).Hold? && k <= ModeAt(src, i).n && ModeAt(src, i).n > 0
    requires ModeAt(src, i).masked
    ensures ModeAt(src, i + k) == Held(ModeAt(src, i).n - k, true, ModeAt(src, i).after)
    ensures AllMasked(src, i, i + k)
  {
    HoldAt(src, i, k);
    forall j | i <= j < i + k
      ensures Masked(src, j)
    {
      HoldMaskedAt(src, i, j - i);
    }
  }

  lemma {:induction false} LineRun(src: Text, i: nat, j: nat)
    requires i <= j <= |src| && ModeAt(src, i) == Line
    requires forall k :: i <= k < j ==> src[k] != '\n'
    ensures ModeAt(src, j) == Line
    ensures AllMasked(src, i, j)
  {
    if i < j {
      LineRun(src, i, j - 1);
    }
  }

  lemma {:induction false} BodyAt(src: Text, i: nat, j: nat, tag: Text)
    requires i <= j <= |src| && ModeAt(src, i) == Body(tag)
    requires forall k :: i <= k < j ==> !StartsAt(src, k, tag)
    ensures ModeAt(src, j) == Body(tag)
  {
    if i < j {
      BodyAt(src, i, j - 1, tag);
    }
  }

  lemma BodyRun(src: Text, i: nat, j: nat, tag: Text)
    requires i <= j <= |src| && ModeAt(src, i) == Body(tag)
    requires forall k :: i <= k < j ==> !StartsAt(src, k, tag)
    ensures ModeAt(src, j) == Body(tag) && AllMasked(src, i, j)
  {
    BodyAt(src, i, j, tag);
    forall k | i <= k < j
      ensures Masked(src, k)
    {
      BodyAt(src, i, k, tag);
    }
  }

  lemma TagStarts(src: Text, i: nat, tag: Text)
    requires i < |src| && ModeAt(src, i) == Code && src[i] == '$' && tag == TagAt(src, i) && tag != []
    ensures |tag| >= 2 && i + |tag| <= |src|
    ensures Masked(src, i) && ModeAt(src, i + 1) == Hold(|tag| - 1, true, Body(tag))
  {
    TagAtMeans(src, i);
  }

  lemma TagEnds(src: Text, i: nat, tag: Text)
    requires IsTag(tag) && StartsAt(src, i, tag) && ModeAt(src, i) == Body(tag)
    ensures |tag| >= 2 && i + |tag| <= |src|
    ensures Masked(src, i) && ModeAt(src, i + 1) == Hold(|tag| - 1, true, Code)
  {
  }

  /** A masked token of `n` characters. */
  lemma HoldMasked(src: Text, i: nat, n: nat)
    requires n >= 2 && i + n <= |src| && Masked(src, i)
    requires ModeAt(src, i + 1).Hold? && ModeAt(src, i + 1).n == n - 1 && ModeAt(src, i + 1).masked
    ensures AllMasked(src, i, i + n) && ModeAt(src, i + n) == ModeAt(src, i + 1).after
  {
    HoldRun(src, i + 1, n - 1);
    Joined(src, i, i + 1, i + n);
  }

  /** A dollar-quoted body from its opening tag to the end of its closing tag. */
  lemma DollarOpens(src: Text, i: nat, tag: Text)
    requires i < |src| && ModeAt(src, i) == Code && src[i] == '$' && tag == TagAt(src, i) && tag != []
    ensures i + |tag| <= |src| && ModeAt(src, i + |tag|) == Body(tag)
    ensures AllMasked(src, i, i + |tag|)
  {
    TagStarts(src, i, tag);
    HoldMasked(src, i, |tag|);
  }

  lemma DollarCloses(src: Text, i: nat, tag: Text)
    requires IsTag(tag) && StartsAt(src, i, tag) && ModeAt(src, i) == Body(tag)
    ensures i + |tag| <= |src| && ModeAt(src, i + |tag|) == Code
    ensures AllMasked(src, i, i + |tag|)
  {
    TagEnds(src, i, tag);
    HoldMasked(src, i, |tag|);
  }

  lemma TwoMasked(src: Text, i: nat)
    requires i + 2 <= |src| && ModeAt(src, i + 1).Hold? && ModeAt(src, i + 1).n == 1
    ensures ModeAt(src, i + 2) == ModeAt(src, i + 1).after
    ensures Masked(src, i + 1) == ModeAt(src, i + 1).masked
  {
  }

  // ----- The scanner -----

  /** One turn of the loop below: past one character or one opening or closing pair. */
  method BlockNext(src: Text, j: nat, depth: nat) returns (next: nat, deeper: nat)
    requires j < |src| && depth > 0 && ModeAt(src, j) == Block(depth)
    ensures j < next <= |src| && AllMasked(src, j, next)
    ensures ModeAt(src, next) == if deeper > 0 then Block(deeper) else Code
  {
    next, deeper := j + 1, depth;
    if j + 1 < |src| && src[j] == '/' && src[j + 1] == '*' {
      TwoMasked(src, j);
      next, deeper := j + 2, depth + 1;
    } else if j + 1 < |src| && src[j] == '*' && src[j + 1] == '/' {
      TwoMasked(src, j);
      next, deeper := j + 2, depth - 1;
    }
  }

  /** Where the nested block comment that opens at `i` ends. */
  method BlockEnd(src: Text, i: nat) returns (j: nat)
    requires i < |src| && ModeAt(src, i) == Code && Pair(src, i, '/', '*')
    ensures i < j <= |src| && (j < |src| ==> ModeAt(src, j) == Code)
    ensures AllMasked(src, i, j)
  {
    var depth := 1;
    j := i + 2;
    TwoMasked(src, i);
    while j < |src| && depth > 0
      invariant i + 2 <= j <= |src| && depth >= 0
      invariant ModeAt(src, j) == if depth > 0 then Block(depth) else Code
      invariant AllMasked(src, i, j)
      decreases |src| - j
    {
      var next;
      next, depth := BlockNext(src, j, depth);
      Joined(src, i, j, next);
      j := next;
    }
  }

  /** One turn of the loop below: past one character or one escaped pair. */
  method LiteralNext(src: Text, j: nat, escape: bool) returns (next: nat, closed: bool)
    requires j < |src| && ModeAt(src, j) == Literal(escape)
    ensures j < next <= |src| + 1
    ensures next <= |src| ==> ModeAt(src, next) == if closed then Code else Literal(escape)
    ensures closed ==> next <= |src|
    ensures AllMasked(src, j, next)
  {
    next, closed := j + 1, false;
    if escape && src[j] == '\\' {
      if j + 1 < |src| {
        TwoMasked(src, j);
      }
      next := j + 2;
    } else if src[j] == '\'' {
      if j + 1 < |src| && src[j + 1] == '\'' {
        TwoMasked(src, j);
        next := j + 2;
      } else {
        closed := true;
      }
    }
  }

  /** Where the string literal whose quote is at `i` ends; a trailing backslash can carry
      the index one past the end. */
  method LiteralEnd(src: Text, i: nat, escape: bool) returns (j: nat)
    requires i < |src| && ModeAt(src, i + 1) == Literal(escape)
    ensures i < j <= |src| + 1 && (j < |src| ==> ModeAt(src, j) == Code)
    ensures AllMasked(src, i + 1, j)
  {
    j := i + 1;
    var closed := false;
    while j < |src| && !closed
      invariant i < j <= |src| + 1
      invariant j <= |src| ==> ModeAt(src, j) == if closed then Code else Literal(escape)
      invariant AllMasked(src, i + 1, j)
      decreases |src| + 1 - j
    {
      var next;
      next, closed := LiteralNext(src, j, escape);
      Joined(src, i + 1, j, next);
      j := next;
    }
  }

  /** One turn of the loop below: past one character or one doubled quote. */
  method NameNext(src: Text, j: nat) returns (next: nat, closed: bool)
    requires j < |src| && ModeAt(src, j) == Name
    ensures j < next <= |src| && NoneMasked(src, j, next)
    ensures ModeAt(src, next) == if closed then Code else Name
  {
    next, closed := j + 1, false;
    if src[j] == '"' {
      if j + 1 < |src| && src[j + 1] == '"' {
        TwoMasked(src, j);
        next := j + 2;
      } else {
        closed := true;
      }
    }
  }

  lemma NoneJoined(src: Text, i: nat, m: nat, j: nat)
    requires NoneMasked(src, i, m) && NoneMasked(src, m, j)
    ensures NoneMasked(src, i, j)
  {
  }

  /** Where the quoted identifier that opens at `i` ends; nothing in it is masked. */
  method NameEnd(src: Text, i: nat) returns (j: nat)
    requires i < |src| && ModeAt(src, i) == Code && src[i] == '"'
    ensures i < j <= |src| && (j < |src| ==> ModeAt(src, j) == Code)
    ensures NoneMasked(src, i, j)
  {
    j := i + 1;
    var closed := false;
    while j < |src| && !closed
      invariant i < j <= |src| && ModeAt(src, j) == (if closed then Code else Name)
      invariant NoneMasked(src, i, j)
      decreases |src| - j
    {
      var next;
      next, closed := NameNext(src, j);
      NoneJoined(src, i, j, next);
      j := next;
    }
  }

  /** The tag that opens at `i`, or "". */
  method DollarTagAt(src: Text, i: nat) returns (tag: Text)
    requires i <= |src|
    ensures tag == TagAt(src, i)
  {
    if i >= |src| || src[i] != '$' {
      return [];
    }
    var j := i + 1;
    if j < |src| && IsIdentStart(src[j]) {
      j := j + 1;
      while j < |src| && IsIdentPart(src[j])
        invariant i + 2 <= j <= |src|
        invariant PartsEnd(src, i + 2) == PartsEnd(src, j)
      {
        j := j + 1;
      }
    }
    if j < |src| && src[j] == '$' {
      return src[i..j + 1];
    }
    return [];
  }

  /** The scanner is up to `i`: it has written what the automaton writes before `i` and
      nothing from `i` on. */
  ghost predicate UpTo(src: Text, out: seq<byte>, i: nat) {
    && |out| == |src|
    && (forall k :: 0 <= k < i && k < |src| ==> out[k] == Out(src, k))
    && (forall k :: i <= k < |src| ==> out[k] == src[k])
  }

  /** Replaces `out[from..to]`, as far as it goes, with spaces, keeping line breaks. */
  method Blank(out: array<byte>, from: nat, to: nat)
    modifies out
    ensures forall k :: 0 <= k < out.Length ==>
              out[k] == if from <= k < to && old(out[k]) != '\n' then ' ' else old(out[k])
  {
    var i := from;
    while i < to && i < out.Length
      invariant from <= i
      invariant forall k :: 0 <= k < out.Length ==>
                  out[k] == if from <= k < i && k < to && old(out[k]) != '\n' then ' ' else old(out[k])
    {
      if out[i] != '\n' {
        out[i] := ' ';
      }
      i := i + 1;
    }
  }

  /** Blanks a region the automaton masks whole. */
  method BlankRegion(ghost src: Text, out: array<byte>, from: nat, to: nat)
    requires UpTo(src, out[..], from) && from <= to
    requires AllMasked(src, from, to)
    modifies out
    ensures UpTo(src, out[..], to)
  {
    Blank(out, from, to);
  }

  /** The byte scanner, with its jumps, nesting and early returns, writes exactly what
      the automaton writes. */
  method MaskNonExecutable(src: Text) returns (masked: Text)
    ensures masked == MaskText(src)
    ensures |masked| == |src|
    ensures forall i :: 0 <= i < |src| ==>
              (masked[i] == '\n' <==> src[i] == '\n') && (masked[i] == src[i] || masked[i] == ' ')
  {
    var out := new byte[|src|](i requires 0 <= i < |src| => src[i]);
    var i := 0;
    while i < |src|
      invariant UpTo(src, out[..], i)
      invariant i <= |src| ==> i == |src| || ModeAt(src, i) == Code
      invariant fresh(out) && out.Length == |src|
      decreases |src| - i
    {
      i := ScanOne(src, out, i);
    }
    return out[..];
  }

  /** One turn of the scanner's loop: from a position in code to the next one. */
  method ScanOne(src: Text, out: array<byte>, i: nat) returns (next: nat)
    requires i < |src| && ModeAt(src, i) == Code && UpTo(src, out[..], i)
    modifies out
    ensures next > i && UpTo(src, out[..], next)
    ensures next < |src| ==> ModeAt(src, next) == Code
  {
    var c := src[i];
    if c == '-' && i + 1 < |src| && src[i + 1] == '-' {
      next := ScanLine(src, out, i);
    } else if c == '/' && i + 1 < |src| && src[i + 1] == '*' {
      next := BlockEnd(src, i);
      BlankRegion(src, out, i, next);
    } else if c == '\'' || (i + 1 < |src| && (c == 'E' || c == 'e') && src[i + 1] == '\'') {
      next := ScanLiteral(src, out, i);
    } else if c == '"' {
      next := NameEnd(src, i);
    } else if c == '$' {
      next := ScanDollar(src, out, i);
    } else {
      next := i + 1;
    }
  }

  method ScanLine(src: Text, out: array<byte>, i: nat) returns (next: nat)
    requires i < |src| && ModeAt(src, i) == Code && UpTo(src, out[..], i) && Pair(src, i, '-', '-')
    modifies out
    ensures next > i && UpTo(src, out[..], next)
    ensures next < |src| ==> ModeAt(src, next) == Code
  {
    var end := LineEnd(src, i);
    BlankRegion(src, out, i, end);
    if end == |src| {
      return |src|;
    }
    assert Out(src, end) == src[end];
    return end + 1;
  }

  /** Where the line comment that opens at `i` ends, before its line break. */
  method LineEnd(src: Text, i: nat) returns (end: nat)
    requires i < |src| && ModeAt(src, i) == Code && Pair(src, i, '-', '-')
    ensures i < end <= |src| && AllMasked(src, i, end)
    ensures end < |src| ==> src[end] == '\n' && ModeAt(src, end + 1) == Code
  {
    var found;
    found, end := IndexByte(src, i, '\n');
    if !found {
      end := |src|;
    }
    LineRun(src, i + 1, end);
  }

  method ScanLiteral(src: Text, out: array<byte>, i: nat) returns (next: nat)
    requires i < |src| && ModeAt(src, i) == Code && UpTo(src, out[..], i)
    requires src[i] == '\'' || EscapeOpens(src, i)
    modifies out
    ensures next > i && UpTo(src, out[..], next)
    ensures next < |src| ==> ModeAt(src, next) == Code
  {
    var start, quote := i, i;
    var escape := src[i] != '\'';
    if escape {
      TwoMasked(src, i);
      quote := quote + 1;
    }
    next := LiteralEnd(src, quote, escape);
    BlankRegion(src, out, start, next);
  }

  method ScanDollar(src: Text, out: array<byte>, i: nat) returns (next: nat)
    requires i < |src| && ModeAt(src, i) == Code && UpTo(src, out[..], i) && src[i] == '$'
    modifies out
    ensures next > i && UpTo(src, out[..], next)
    ensures next < |src| ==> ModeAt(src, next) == Code
  {
    var tag := DollarTagAt(src, i);
    if tag == [] {
      LoneDollar(src, i);
      return i + 1;
    }
    next := BodyEnd(src, i, tag);
    BlankRegion(src, out, i, next);
  }

  /** A body that is closed at `close`. */
  lemma BodyCloses(src: Text, i: nat, tag: Text, close: nat)
    requires i <= close && IsTag(tag) && StartsAt(src, close, tag) && ModeAt(src, i) == Body(tag)
    requires forall k :: i <= k < close ==> !StartsAt(src, k, tag)
    ensures close + |tag| <= |src| && ModeAt(src, close + |tag|) == Code
    ensures AllMasked(src, i, close + |tag|)
  {
    BodyRun(src, i, close, tag);
    DollarCloses(src, close, tag);
    Joined(src, i, close, close + |tag|);
  }

  /** A dollar sign that opens no tag. */
  lemma LoneDollar(src: Text, i: nat)
    requires i < |src| && ModeAt(src, i) == Code && src[i] == '$' && TagAt(src, i) == []
    ensures Out(src, i) == src[i] && ModeAt(src, i + 1) == Code
  {
  }

  lemma BodyClosedAt(src: Text, i: nat, m: nat, tag: Text, close: nat)
    requires i <= m <= close && IsTag(tag) && StartsAt(src, close, tag)
    requires ModeAt(src, m) == Body(tag) && AllMasked(src, i, m)
    requires forall k :: m <= k < close ==> !StartsAt(src, k, tag)
    ensures close + |tag| <= |src| && ModeAt(src, close + |tag|) == Code
    ensures AllMasked(src, i, close + |tag|)
  {
    BodyCloses(src, m, tag, close);
    Joined(src, i, m, close + |tag|);
  }

  lemma BodyUnclosed(src: Text, i: nat, m: nat, tag: Text)
    requires i <= m <= |src| && ModeAt(src, m) == Body(tag) && AllMasked(src, i, m)
    requires forall k :: m <= k < |src| ==> !StartsAt(src, k, tag)
    ensures AllMasked(src, i, |src|)
  {
    BodyRun(src, m, |src|, tag);
    Joined(src, i, m, |src|);
  }

  lemma BodyOpens(src: Text, i: nat, tag: Text)
    requires i < |src| && ModeAt(src, i) == Code && src[i] == '$' && tag == TagAt(src, i) && tag != []
    ensures IsTag(tag) && i + |tag| <= |src| && ModeAt(src, i + |tag|) == Body(tag)
    ensures AllMasked(src, i, i + |tag|)
  {
    TagAtMeans(src, i);
    DollarOpens(src, i, tag);
  }

  /** Where the dollar-quoted body that opens at `i` ends. */
  method BodyEnd(src: Text, i: nat, tag: Text) returns (next: nat)
    requires i < |src| && ModeAt(src, i) == Code && src[i] == '$' && tag == TagAt(src, i) && tag != []
    ensures i < next <= |src| && (next < |src| ==> ModeAt(src, next) == Code)
    ensures AllMasked(src, i, next)
  {
    BodyOpens(src, i, tag);
    next := BodyEndFrom(src, i, i + |tag|, tag);
  }

  method BodyEndFrom(src: Text, ghost i: nat, m: nat, tag: Text) returns (next: nat)
    requires i < m <= |src| && IsTag(tag) && ModeAt(src, m) == Body(tag) && AllMasked(src, i, m)
    ensures i < next <= |src| && (next < |src| ==> ModeAt(src, next) == Code)
    ensures AllMasked(src, i, next)
  {
    var found, close := Index(src, m, tag);
    if found {
      BodyClosedAt(src, i, m, tag, close);
      next := close + |tag|;
    } else {
      BodyUnclosed(src, i, m, tag);
      next := |src|;
    }
  }

  // ----- What masking guarantees -----

  /** Same length, the same line breaks, and every character is the source's or a space. */
  lemma MaskKeepsShape(src: Text)
    ensures var out := MaskText(src);
            && |out| == |src|
            && (forall i :: 0 <= i < |src| ==>
                  (out[i] == '\n' <==> src[i] == '\n') && (out[i] == src[i] || out[i] == ' '))
  {
  }

  /** Inside the parts of a text that stay. */
  predicate Kept(m: Mode) {
    m.Code? || m.Name? || (m.Hold? && !m.masked)
  }

  /** What the automaton's modes hold: a token in progress is masked or kept whole. */
  ghost predicate Sensible(m: Mode) {
    match m
    case Hold(n, masked, after) =>
      n > 0 && !after.Hold? && (if masked then !after.Name? else after.Name?) && (after.Body? ==> IsTag(after.tag))
    case Body(tag) => IsTag(tag)
    case _ => true
  }

  lemma {:induction false} ModesAreSensible(src: Text, i: nat)
    requires i <= |src|
    ensures Sensible(ModeAt(src, i))
  {
    if i > 0 {
      ModesAreSensible(src, i - 1);
      if TagAt(src, i - 1) != [] {
        TagAtMeans(src, i - 1);
      }
    }
  }

  /** A tag of a text in which some characters became spaces was a tag before. */
  lemma TagSurvives(src: Text, out: Text, i: nat)
    requires |out| == |src| && forall j :: 0 <= j < |src| ==> out[j] == src[j] || out[j] == ' '
    requires i <= |src| && TagAt(out, i) != []
    ensures TagAt(src, i) == TagAt(out, i)
  {
    var tag := TagAt(out, i);
    TagAtMeans(out, i);
    forall k | 0 <= k < |tag|
      ensures src[i + k] == tag[k]
    {
      assert out[i + k] == tag[k] && tag[k] != ' ';
    }
    TagAtFinds(src, i, tag);
  }

  /** A blank is code and opens nothing. */
  lemma BlankStep(out: Text, i: nat)
    requires i < |out| && (out[i] == ' ' || out[i] == '\n')
    ensures Step(out, i, Code) == (false, Code)
  {
    assert TagEnd(out, i) == i && TagAt(out, i) == [];
  }

  lemma MaskedIsBlank(src: Text, out: Text, i: nat)
    requires out == MaskText(src) && i < |src| && Masked(src, i)
    ensures out[i] == ' ' || out[i] == '\n'
  {
    assert out[i] == Out(src, i);
  }

  /** Over a masked character the second pass stays in code. */
  lemma SecondStepMasked(src: Text, out: Text, i: nat)
    requires out == MaskText(src) && i < |src|
    requires Sensible(ModeAt(src, i)) && !Kept(ModeAt(src, i))
    ensures Step(out, i, Code) == (false, Code) && (Kept(ModeAt(src, i + 1)) ==> ModeAt(src, i + 1) == Code)
  {
    MaskedIsBlank(src, out, i);
    BlankStep(out, i);
  }

  lemma NoNewTag(src: Text, out: Text, i: nat)
    requires out == MaskText(src) && i < |src| && TagAt(src, i) == []
    ensures TagAt(out, i) == []
  {
    MaskKeepsShape(src);
    if TagAt(out, i) != [] {
      TagSurvives(src, out, i);
    }
  }

  /** A character that code keeps opens nothing but a quoted identifier, before and after. */
  lemma UnmaskedStep(src: Text, out: Text, i: nat)
    requires out == MaskText(src) && i < |src| && ModeAt(src, i) == Code && !Masked(src, i)
    ensures Step(out, i, Code) == Step(src, i, Code)
  {
    assert out[i] == Out(src, i) == src[i];
    assert i + 1 < |src| ==> out[i + 1] == src[i + 1] || out[i + 1] == ' ';
    if src[i] != '"' {
      NoNewTag(src, out, i);
    }
  }

  /** A character of code: what opens nothing in the source opens nothing in the masked
      text, and what opens something is masked. */
  lemma SecondStepCode(src: Text, out: Text, i: nat)
    requires out == MaskText(src) && i < |src| && ModeAt(src, i) == Code
    ensures Step(out, i, Code) == (false, if Kept(ModeAt(src, i + 1)) then ModeAt(src, i + 1) else Code)
  {
    OpeningsAreMasked(src, i);
    if Masked(src, i) {
      MaskedIsBlank(src, out, i);
      BlankStep(out, i);
    } else {
      UnmaskedStep(src, out, i);
    }
  }

  /** From code, a masked character leads to where everything is masked, or back to code. */
  lemma OpeningsAreMasked(src: Text, i: nat)
    requires i < |src| && ModeAt(src, i) == Code
    ensures Masked(src, i) ==> !Kept(ModeAt(src, i + 1)) || ModeAt(src, i + 1) == Code
    ensures !Masked(src, i) ==> Kept(ModeAt(src, i + 1))
  {
  }

  /** A character of a quoted identifier stays. */
  lemma SecondStepName(src: Text, out: Text, i: nat)
    requires out == MaskText(src) && i < |src| && Sensible(ModeAt(src, i))
    requires Kept(ModeAt(src, i)) && ModeAt(src, i) != Code
    ensures Step(out, i, ModeAt(src, i)) == (false, if Kept(ModeAt(src, i + 1)) then ModeAt(src, i + 1) else Code)
  {
    assert out[i] == Out(src, i) && (i + 1 < |src| ==> out[i + 1] == Out(src, i + 1));
  }

  /** One character of the second pass, from code wherever the first pass masks and from
      the same mode wherever it does not. */
  lemma SecondStep(src: Text, out: Text, i: nat)
    requires out == MaskText(src) && i < |src|
    requires Sensible(ModeAt(src, i))
    ensures var m, m' := ModeAt(src, i), ModeAt(src, i + 1);
            Step(out, i, if Kept(m) then m else Code) == (false, if Kept(m') then m' else Code)
  {
    if !Kept(ModeAt(src, i)) {
      SecondStepMasked(src, out, i);
    } else if ModeAt(src, i) == Code {
      SecondStepCode(src, out, i);
    } else {
      SecondStepName(src, out, i);
    }
  }

  lemma SecondNext(src: Text, out: Text, i: nat)
    requires out == MaskText(src) && i < |src|
    requires ModeAt(out, i) == if Kept(ModeAt(src, i)) then ModeAt(src, i) else Code
    ensures ModeAt(out, i + 1) == if Kept(ModeAt(src, i + 1)) then ModeAt(src, i + 1) else Code
  {
    ModesAreSensible(src, i);
    SecondStep(src, out, i);
  }

  lemma {:induction false} SecondPass(src: Text, out: Text, i: nat)
    requires out == MaskText(src) && i <= |src|
    ensures ModeAt(out, i) == if Kept(ModeAt(src, i)) then ModeAt(src, i) else Code
  {
    if i > 0 {
      SecondPass(src, out, i - 1);
      SecondNext(src, out, i - 1);
    }
  }

  /** Masking twice is masking once. */
  lemma MaskIsIdempotent(src: Text)
    ensures MaskText(MaskText(src)) == MaskText(src)
  {
    var out := MaskText(src);
    forall i | 0 <= i < |out|
      ensures Out(out, i) == out[i]
    {
      SecondPass(src, out, i);
      ModesAreSensible(src, i);
      SecondStep(src, out, i);
    }
  }
}
