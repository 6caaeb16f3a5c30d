/** What masking does to a text written as a list of tokens: code and quoted names stay,
    comments, literals and dollar quotes are blanked. Nothing here speaks of the automaton's
    modes. Source: internal/engine/postgresengine/ddl.go. */
module Tokens {
  import opened Dollar
  import opened Mask
  import opened Psql

  // ----- Tokens and their text -----

  /** The rest of a block comment, from behind its opening to its end. `Cut` is the end of
      the text. */
  datatype Comment = End | Cut | Char(c: byte, rest: Comment) | Nested(inner: Comment, rest: Comment)

  /** One part of a quoted text: a character, the quote doubled, or a character behind a
      backslash. */
  datatype Part = Plain(c: byte) | Doubled | Escaped(c: byte)

  datatype Token =
    | Bare(c: byte)
    | LineComment(text: Text)
    | BlockComment(body: Comment)
    | Quoted(parts: seq<Part>)
    | EscapeQuoted(prefix: byte, parts: seq<Part>)
    | QuotedName(parts: seq<Part>)
    | DollarQuote(tag: Text, content: Text)

  /** What a text may end in the middle of. */
  datatype Tail =
    | Nothing
    | OpenLine(text: Text)
    | OpenComment(body: Comment)
    | OpenQuoted(parts: seq<Part>)
    | OpenEscape(prefix: byte, parts: seq<Part>, backslash: bool)
    | OpenName(parts: seq<Part>)
    | OpenDollar(tag: Text, content: Text)

  function CommentText(b: Comment): Text {
    match b
    case End => ['*', '/']
    case Cut => []
    case Char(c, rest) => [c] + CommentText(rest)
    case Nested(inner, rest) => ['/', '*'] + CommentText(inner) + CommentText(rest)
  }

  function PartText(p: Part, quote: byte): Text {
    match p
    case Plain(c) => [c]
    case Doubled => [quote, quote]
    case Escaped(c) => ['\\', c]
  }

  function PartsText(parts: seq<Part>, quote: byte): Text {
    if parts == [] then [] else PartText(parts[0], quote) + PartsText(parts[1..], quote)
  }

  function TokenText(t: Token): Text {
    match t
    case Bare(c) => [c]
    case LineComment(text) => ['-', '-'] + text + ['\n']
    case BlockComment(body) => ['/', '*'] + CommentText(body)
    case Quoted(parts) => ['\''] + PartsText(parts, '\'') + ['\'']
    case EscapeQuoted(prefix, parts) => [prefix, '\''] + PartsText(parts, '\'') + ['\'']
    case QuotedName(parts) => ['"'] + PartsText(parts, '"') + ['"']
    case DollarQuote(tag, content) => tag + content + tag
  }

  function TailText(t: Tail): Text {
    match t
    case Nothing => []
    case OpenLine(text) => ['-', '-'] + text
    case OpenComment(body) => ['/', '*'] + CommentText(body)
    case OpenQuoted(parts) => ['\''] + PartsText(parts, '\'')
    case OpenEscape(prefix, parts, backslash) =>
      [prefix, '\''] + PartsText(parts, '\'') + if backslash then ['\\'] else []
    case OpenName(parts) => ['"'] + PartsText(parts, '"')
    case OpenDollar(tag, content) => tag + content
  }

  function TokensText(ts: seq<Token>): Text {
    if ts == [] then [] else TokenText(ts[0]) + TokensText(ts[1..])
  }

  // ----- When they are what they look like -----

  predicate Closed(b: Comment) {
    match b
    case End => true
    case Cut => false
    case Char(_, rest) => Closed(rest)
    case Nested(inner, rest) => Closed(inner) && Closed(rest)
  }

  /** The next character after a comment's character, if the text goes on. */
  function Following(b: Comment): Text {
    match b
    case End => ['*']
    case Cut => []
    case Char(c, _) => [c]
    case Nested(_, _) => ['/']
  }

  /** No character of the comment makes an opening or a closing with the next one, and
      nothing follows a nested comment that is not closed. */
  predicate CommentOk(b: Comment) {
    match b
    case End => true
    case Cut => true
    case Char(c, rest) =>
      CommentOk(rest) && !(c == '/' && Following(rest) == ['*']) && !(c == '*' && Following(rest) == ['/'])
    case Nested(inner, rest) => CommentOk(inner) && CommentOk(rest) && (Closed(inner) || rest == Cut)
  }

  predicate PartOk(p: Part, quote: byte, escapes: bool) {
    match p
    case Plain(c) => c != quote && (escapes ==> c != '\\')
    case Doubled => true
    case Escaped(_) => escapes
  }

  predicate PartsOk(parts: seq<Part>, quote: byte, escapes: bool) {
    forall p :: p in parts ==> PartOk(p, quote, escapes)
  }

  predicate IsE(c: byte) {
    c == 'E' || c == 'e'
  }

  /** No comment, literal, quoted name or dollar quote starts the text. */
  ghost predicate OpensNothing(text: Text) {
    && !StartsAt(text, 0, ['-', '-']) && !StartsAt(text, 0, ['/', '*'])
    && !StartsAt(text, 0, ['\'']) && !StartsAt(text, 0, ['"'])
    && !StartsAt(text, 0, ['E', '\'']) && !StartsAt(text, 0, ['e', '\''])
    && forall tag :: IsTag(tag) ==> !StartsAt(text, 0, tag)
  }

  /** The tag does not come before the end of `body + tag`. */
  ghost predicate FirstAtEnd(body: Text, tag: Text) {
    forall k :: 0 <= k < |body| ==> !StartsAt(body + tag, k, tag)
  }

  /** The token is one in front of that text. */
  ghost predicate TokenOk(t: Token, after: Text) {
    match t
    case Bare(c) => OpensNothing([c] + after)
    case LineComment(text) => '\n' !in text
    case BlockComment(body) => Closed(body) && CommentOk(body)
    case Quoted(parts) => PartsOk(parts, '\'', false) && !StartsAt(after, 0, ['\''])
    case EscapeQuoted(prefix, parts) => IsE(prefix) && PartsOk(parts, '\'', true) && !StartsAt(after, 0, ['\''])
    case QuotedName(parts) => PartsOk(parts, '"', false) && !StartsAt(after, 0, ['"'])
    case DollarQuote(tag, content) => IsTag(tag) && FirstAtEnd(content, tag)
  }

  ghost predicate TailOk(t: Tail) {
    match t
    case Nothing => true
    case OpenLine(text) => '\n' !in text
    case OpenComment(body) => !Closed(body) && CommentOk(body)
    case OpenQuoted(parts) => PartsOk(parts, '\'', false)
    case OpenEscape(prefix, parts, _) => IsE(prefix) && PartsOk(parts, '\'', true)
    case OpenName(parts) => PartsOk(parts, '"', false)
    case OpenDollar(tag, content) => IsTag(tag) && forall k :: 0 <= k < |content| ==> !StartsAt(content, k, tag)
  }

  ghost predicate TokensOk(ts: seq<Token>, tail: Text) {
    ts == [] || (TokenOk(ts[0], TokensText(ts[1..]) + tail) && TokensOk(ts[1..], tail))
  }

  // ----- What is shown of them -----

  /** Spaces, with the line breaks kept. */
  function Blanked(text: Text): (r: Text)
    ensures |r| == |text| && forall i :: 0 <= i < |text| ==> r[i] == if text[i] == '\n' then '\n' else ' '
  {
    seq(|text|, i requires 0 <= i < |text| => if text[i] == '\n' then '\n' else ' ')
  }

  function TokenShown(t: Token): Text {
    if t.Bare? || t.QuotedName? then TokenText(t) else Blanked(TokenText(t))
  }

  function TokensShown(ts: seq<Token>): Text {
    if ts == [] then [] else TokenShown(ts[0]) + TokensShown(ts[1..])
  }

  function TailShown(t: Tail): Text {
    if t.OpenName? then TailText(t) else Blanked(TailText(t))
  }

  // ----- Comments -----

  lemma FollowingIsFirst(b: Comment)
    ensures Following(b) == if CommentText(b) == [] then [] else [CommentText(b)[0]]
  {
  }

  /** A piece that stands at a place is followed by its parts. */
  lemma StartsSplit(src: Text, i: nat, a: Text, b: Text)
    requires StartsAt(src, i, a + b)
    ensures StartsAt(src, i, a) && StartsAt(src, i + |a|, b)
  {
    forall k | 0 <= k < |a|
      ensures src[i + k] == a[k]
    {
      assert (a + b)[k] == a[k];
    }
    forall k | 0 <= k < |b|
      ensures src[i + |a| + k] == b[k]
    {
      assert src[i + (|a| + k)] == (a + b)[|a| + k];
    }
  }

  lemma OneAt(src: Text, i: nat, c: byte)
    requires StartsAt(src, i, [c])
    ensures i < |src| && src[i] == c
  {
    assert src[i + 0] == [c][0];
  }

  lemma TwoAt(src: Text, i: nat, a: byte, b: byte)
    requires StartsAt(src, i, [a, b])
    ensures i + 2 <= |src| && src[i] == a && src[i + 1] == b
  {
    assert src[i + 0] == [a, b][0] && src[i + 1] == [a, b][1];
  }

  lemma FirstAt(src: Text, i: nat, t: Text)
    requires StartsAt(src, i, t) && t != []
    ensures i < |src| && src[i] == t[0]
  {
    assert src[i + 0] == t[0];
  }

  lemma CommentChar(src: Text, i: nat, c: byte, rest: Comment, depth: nat)
    requires i < |src| && src[i] == c && ModeAt(src, i) == Block(depth)
    requires StartsAt(src, i + 1, CommentText(rest)) && (CommentText(rest) == [] ==> i + 1 == |src|)
    requires CommentOk(Comment.Char(c, rest))
    ensures Masked(src, i) && ModeAt(src, i + 1) == Block(depth)
  {
    FollowingIsFirst(rest);
    if CommentText(rest) != [] {
      FirstAt(src, i + 1, CommentText(rest));
    }
  }

  /** The mode behind a comment of that depth. */
  function Outside(depth: nat): Mode {
    if depth <= 1 then Mode.Code else Block(depth - 1)
  }

  lemma CommentCloses(src: Text, i: nat, depth: nat)
    requires i + 2 <= |src| && src[i] == '*' && src[i + 1] == '/' && ModeAt(src, i) == Block(depth)
    ensures ModeAt(src, i + 2) == Outside(depth) && AllMasked(src, i, i + 2)
  {
    TwoMasked(src, i);
  }

  lemma CommentOpens(src: Text, i: nat, depth: nat)
    requires i + 2 <= |src| && src[i] == '/' && src[i + 1] == '*'
    requires ModeAt(src, i) == if depth == 0 then Mode.Code else Block(depth)
    ensures ModeAt(src, i + 2) == Block(depth + 1) && AllMasked(src, i, i + 2)
  {
    TwoMasked(src, i);
  }

  lemma NestedText(src: Text, i: nat, inner: Comment, rest: Comment)
    requires StartsAt(src, i, CommentText(Nested(inner, rest)))
    ensures StartsAt(src, i, ['/', '*']) && StartsAt(src, i + 2, CommentText(inner))
    ensures StartsAt(src, i + 2 + |CommentText(inner)|, CommentText(rest))
    ensures |CommentText(Nested(inner, rest))| == 2 + |CommentText(inner)| + |CommentText(rest)|
  {
    StartsSplit(src, i, ['/', '*'] + CommentText(inner), CommentText(rest));
    StartsSplit(src, i, ['/', '*'], CommentText(inner));
  }

  /** A comment is masked whole and ends where its text ends, however its parts nest. */
  lemma {:induction false} CommentRun(src: Text, i: nat, b: Comment, depth: nat, n: nat)
    requires i <= |src| && depth > 0 && ModeAt(src, i) == Block(depth)
    requires StartsAt(src, i, CommentText(b)) && CommentOk(b) && n == i + |CommentText(b)|
    requires Closed(b) || n == |src|
    ensures AllMasked(src, i, n) && (Closed(b) ==> ModeAt(src, n) == Outside(depth))
    decreases b, 1
  {
    match b
    case Cut =>
    case End =>
      TwoAt(src, i, '*', '/');
      CommentCloses(src, i, depth);
    case Char(c, rest) =>
      StartsSplit(src, i, [c], CommentText(rest));
      OneAt(src, i, c);
      CommentChar(src, i, c, rest, depth);
      CommentRun(src, i + 1, rest, depth, n);
      Joined(src, i, i + 1, n);
    case Nested(inner, rest) =>
      NestedText(src, i, inner, rest);
      TwoAt(src, i, '/', '*');
      CommentOpens(src, i, depth);
      NestedRun(src, i, inner, rest, depth, i + 2 + |CommentText(inner)|, n);
  }

  lemma {:induction false} NestedRun(src: Text, i: nat, inner: Comment, rest: Comment, depth: nat, m: nat, n: nat)
    requires i + 2 <= |src| && depth > 0 && AllMasked(src, i, i + 2) && ModeAt(src, i + 2) == Block(depth + 1)
    requires StartsAt(src, i + 2, CommentText(inner)) && m == i + 2 + |CommentText(inner)|
    requires StartsAt(src, m, CommentText(rest)) && n == m + |CommentText(rest)|
    requires CommentOk(Nested(inner, rest)) && (Closed(Nested(inner, rest)) || n == |src|)
    ensures AllMasked(src, i, n) && (Closed(Nested(inner, rest)) ==> ModeAt(src, n) == Outside(depth))
    decreases Nested(inner, rest), 0
  {
    CommentRun(src, i + 2, inner, depth + 1, m);
    Joined(src, i, i + 2, m);
    if Closed(inner) {
      CommentRun(src, m, rest, depth, n);
      Joined(src, i, m, n);
    }
  }

  // ----- Literals and quoted names -----

  lemma PlainInLiteral(src: Text, i: nat, c: byte, escapes: bool)
    requires i < |src| && src[i] == c && ModeAt(src, i) == Literal(escapes)
    requires PartOk(Plain(c), '\'', escapes)
    ensures Masked(src, i) && ModeAt(src, i + 1) == Literal(escapes)
  {
  }

  lemma PairInLiteral(src: Text, i: nat, a: byte, b: byte, escapes: bool)
    requires i + 2 <= |src| && src[i] == a && src[i + 1] == b && ModeAt(src, i) == Literal(escapes)
    requires (a == '\'' && b == '\'') || (escapes && a == '\\')
    ensures AllMasked(src, i, i + 2) && ModeAt(src, i + 2) == Literal(escapes)
  {
    TwoMasked(src, i);
  }

  lemma PartInLiteral(src: Text, i: nat, p: Part, escapes: bool)
    requires StartsAt(src, i, PartText(p, '\'')) && PartOk(p, '\'', escapes)
    requires ModeAt(src, i) == Literal(escapes)
    ensures AllMasked(src, i, i + |PartText(p, '\'')|)
    ensures ModeAt(src, i + |PartText(p, '\'')|) == Literal(escapes)
  {
    match p
    case Plain(c) =>
      OneAt(src, i, c);
      PlainInLiteral(src, i, c, escapes);
    case Doubled =>
      TwoAt(src, i, '\'', '\'');
      PairInLiteral(src, i, '\'', '\'', escapes);
    case Escaped(c) =>
      TwoAt(src, i, '\\', c);
      PairInLiteral(src, i, '\\', c, escapes);
  }

  lemma PartsSplit(src: Text, i: nat, parts: seq<Part>, quote: byte)
    requires parts != [] && StartsAt(src, i, PartsText(parts, quote))
    ensures StartsAt(src, i, PartText(parts[0], quote))
    ensures StartsAt(src, i + |PartText(parts[0], quote)|, PartsText(parts[1..], quote))
    ensures |PartsText(parts, quote)| == |PartText(parts[0], quote)| + |PartsText(parts[1..], quote)|
  {
    StartsSplit(src, i, PartText(parts[0], quote), PartsText(parts[1..], quote));
  }

  lemma PartsOkSplit(parts: seq<Part>, quote: byte, escapes: bool)
    requires parts != [] && PartsOk(parts, quote, escapes)
    ensures PartOk(parts[0], quote, escapes) && PartsOk(parts[1..], quote, escapes)
  {
  }

  /** The parts of a literal are masked and leave it open. */
  lemma {:induction false} LiteralRun(src: Text, i: nat, parts: seq<Part>, escapes: bool, n: nat)
    requires StartsAt(src, i, PartsText(parts, '\'')) && PartsOk(parts, '\'', escapes)
    requires ModeAt(src, i) == Literal(escapes) && n == i + |PartsText(parts, '\'')|
    ensures AllMasked(src, i, n) && ModeAt(src, n) == Literal(escapes)
    decreases |parts|
  {
    if parts != [] {
      var m := i + |PartText(parts[0], '\'')|;
      PartsSplit(src, i, parts, '\'');
      PartsOkSplit(parts, '\'', escapes);
      PartInLiteral(src, i, parts[0], escapes);
      LiteralRun(src, m, parts[1..], escapes, n);
      Joined(src, i, m, n);
    }
  }

  lemma LiteralCloses(src: Text, i: nat, escapes: bool)
    requires i < |src| && src[i] == '\'' && ModeAt(src, i) == Literal(escapes)
    requires i + 1 < |src| ==> src[i + 1] != '\''
    ensures Masked(src, i) && ModeAt(src, i + 1) == Mode.Code
  {
  }

  lemma PartInName(src: Text, i: nat, p: Part)
    requires StartsAt(src, i, PartText(p, '"')) && PartOk(p, '"', false) && ModeAt(src, i) == Name
    ensures NoneMasked(src, i, i + |PartText(p, '"')|) && ModeAt(src, i + |PartText(p, '"')|) == Name
  {
    match p
    case Plain(c) =>
      OneAt(src, i, c);
    case Doubled =>
      TwoAt(src, i, '"', '"');
      TwoMasked(src, i);
    case Escaped(_) => assert false;
  }

  /** The parts of a quoted name stay and leave it open. */
  lemma {:induction false} NameRun(src: Text, i: nat, parts: seq<Part>, n: nat)
    requires StartsAt(src, i, PartsText(parts, '"')) && PartsOk(parts, '"', false)
    requires ModeAt(src, i) == Name && n == i + |PartsText(parts, '"')|
    ensures NoneMasked(src, i, n) && ModeAt(src, n) == Name
    decreases |parts|
  {
    if parts != [] {
      var m := i + |PartText(parts[0], '"')|;
      PartsSplit(src, i, parts, '"');
      PartsOkSplit(parts, '"', false);
      PartInName(src, i, parts[0]);
      NameRun(src, m, parts[1..], n);
      NoneJoined(src, i, m, n);
    }
  }

  // ----- One token -----

  lemma PrefixStarts(a: Text, b: Text)
    ensures StartsAt(a + b, 0, a) && StartsAt(a + b, |a|, b)
  {
    forall k | 0 <= k < |a|
      ensures (a + b)[0 + k] == a[k]
    {
    }
  }

  /** A masked text is blank, an unmasked one stays. */
  lemma MaskedIsBlanked(src: Text, text: Text)
    requires StartsAt(src, 0, text) && AllMasked(src, 0, |text|)
    ensures forall k :: 0 <= k < |text| ==> Out(src, k) == Blanked(text)[k]
  {
    forall k | 0 <= k < |text|
      ensures Out(src, k) == Blanked(text)[k]
    {
      assert src[0 + k] == text[k] && Masked(src, k);
    }
  }

  lemma UnmaskedStays(src: Text, text: Text)
    requires StartsAt(src, 0, text) && NoneMasked(src, 0, |text|)
    ensures forall k :: 0 <= k < |text| ==> Out(src, k) == text[k]
  {
    forall k | 0 <= k < |text|
      ensures Out(src, k) == text[k]
    {
      assert src[0 + k] == text[k] && !Masked(src, k);
    }
  }

  lemma BareRuns(src: Text)
    requires src != [] && OpensNothing(src)
    ensures ModeAt(src, 1) == Mode.Code && Out(src, 0) == src[0]
  {
    NotStarting(src);
    if TagAt(src, 0) != [] {
      TagAtMeans(src, 0);
    }
    assert ModeAt(src, 0) == Mode.Code;
  }

  lemma NotStarting(src: Text)
    requires src != [] && OpensNothing(src)
    ensures !Pair(src, 0, '-', '-') && !Pair(src, 0, '/', '*') && !EscapeOpens(src, 0)
    ensures src[0] != '\'' && src[0] != '"'
  {
    assert |src| > 1 ==> src[0 + 1] == src[1];
    assert src[0 + 0] == src[0];
  }

  lemma LineCommentRuns(src: Text, text: Text, n: nat)
    requires StartsAt(src, 0, ['-', '-'] + text) && '\n' !in text && n == 2 + |text|
    ensures AllMasked(src, 0, n) && ModeAt(src, n) == Line
  {
    StartsSplit(src, 0, ['-', '-'], text);
    TwoAt(src, 0, '-', '-');
    assert ModeAt(src, 0) == Mode.Code && ModeAt(src, 1) == Line;
    forall k | 1 <= k < n
      ensures src[k] != '\n'
    {
      assert k >= 2 ==> src[2 + (k - 2)] == text[k - 2];
    }
    LineRun(src, 1, n);
    Joined(src, 0, 1, n);
  }

  lemma LineEnds(src: Text, i: nat)
    requires i < |src| && src[i] == '\n' && ModeAt(src, i) == Line
    ensures Masked(src, i) && ModeAt(src, i + 1) == Mode.Code
  {
  }

  lemma CommentRuns(src: Text, body: Comment, n: nat)
    requires StartsAt(src, 0, ['/', '*'] + CommentText(body)) && CommentOk(body) && n == 2 + |CommentText(body)|
    requires Closed(body) || n == |src|
    ensures AllMasked(src, 0, n) && (Closed(body) ==> ModeAt(src, n) == Mode.Code)
  {
    StartsSplit(src, 0, ['/', '*'], CommentText(body));
    TwoAt(src, 0, '/', '*');
    CommentOpens(src, 0, 0);
    CommentRun(src, 2, body, 1, n);
    Joined(src, 0, 2, n);
  }

  lemma QuotedRuns(src: Text, parts: seq<Part>, n: nat)
    requires StartsAt(src, 0, ['\''] + PartsText(parts, '\'')) && PartsOk(parts, '\'', false)
    requires n == 1 + |PartsText(parts, '\'')|
    ensures AllMasked(src, 0, n) && ModeAt(src, n) == Literal(false)
  {
    StartsSplit(src, 0, ['\''], PartsText(parts, '\''));
    OneAt(src, 0, '\'');
    assert ModeAt(src, 0) == Mode.Code && ModeAt(src, 1) == Literal(false);
    LiteralRun(src, 1, parts, false, n);
    Joined(src, 0, 1, n);
  }

  lemma EscapeRuns(src: Text, prefix: byte, parts: seq<Part>, n: nat)
    requires StartsAt(src, 0, [prefix, '\''] + PartsText(parts, '\'')) && IsE(prefix) && PartsOk(parts, '\'', true)
    requires n == 2 + |PartsText(parts, '\'')|
    ensures AllMasked(src, 0, n) && ModeAt(src, n) == Literal(true)
  {
    StartsSplit(src, 0, [prefix, '\''], PartsText(parts, '\''));
    TwoAt(src, 0, prefix, '\'');
    EscapeStarts(src);
    LiteralRun(src, 2, parts, true, n);
    Joined(src, 0, 2, n);
  }

  lemma EscapeStarts(src: Text)
    requires |src| >= 2 && IsE(src[0]) && src[1] == '\''
    ensures AllMasked(src, 0, 2) && ModeAt(src, 2) == Literal(true)
  {
    assert ModeAt(src, 0) == Mode.Code;
    TwoMasked(src, 0);
  }

  lemma NameRuns(src: Text, parts: seq<Part>, n: nat)
    requires StartsAt(src, 0, ['"'] + PartsText(parts, '"')) && PartsOk(parts, '"', false)
    requires n == 1 + |PartsText(parts, '"')|
    ensures NoneMasked(src, 0, n) && ModeAt(src, n) == Name
  {
    StartsSplit(src, 0, ['"'], PartsText(parts, '"'));
    OneAt(src, 0, '"');
    assert ModeAt(src, 0) == Mode.Code && ModeAt(src, 1) == Name;
    NameRun(src, 1, parts, n);
    NoneJoined(src, 0, 1, n);
  }

  lemma NameCloses(src: Text, i: nat)
    requires i < |src| && src[i] == '"' && ModeAt(src, i) == Name
    requires i + 1 < |src| ==> src[i + 1] != '"'
    ensures !Masked(src, i) && ModeAt(src, i + 1) == Mode.Code
  {
  }

  lemma DollarStarts(src: Text, tag: Text)
    requires StartsAt(src, 0, tag) && IsTag(tag)
    ensures AllMasked(src, 0, |tag|) && ModeAt(src, |tag|) == Body(tag)
  {
    TagAtFinds(src, 0, tag);
    FirstAt(src, 0, tag);
    assert ModeAt(src, 0) == Mode.Code;
    BodyOpens(src, 0, tag);
  }

  /** Inside a piece of a text something stands where it stands in the text. */
  lemma StartsInside(src: Text, i: nat, piece: Text, k: nat, tag: Text)
    requires StartsAt(src, i, piece) && k + |tag| <= |piece|
    ensures StartsAt(src, i + k, tag) <==> StartsAt(piece, k, tag)
  {
    SliceStarts(src, i, piece);
    assert src[i + k..i + k + |tag|] == src[i..i + |piece|][k..k + |tag|];
    SliceStarts(src, i + k, tag);
    SliceStarts(piece, k, tag);
  }

  /** The tag does not stand between `i` and `j`. */
  ghost predicate NoTagIn(src: Text, i: nat, j: nat, tag: Text) {
    forall k :: i <= k < j ==> !StartsAt(src, k, tag)
  }

  /** The first tag in a text that starts with `content + tag` is the one behind it. */
  lemma TagComesFirst(src: Text, i: nat, content: Text, tag: Text, close: nat)
    requires StartsAt(src, i, content + tag) && FirstAtEnd(content, tag) && close == i + |content|
    ensures StartsAt(src, close, tag) && NoTagIn(src, i, close, tag)
  {
    StartsSplit(src, i, content, tag);
    forall k | i <= k < close
      ensures !StartsAt(src, k, tag)
    {
      StartsInside(src, i, content + tag, k - i, tag);
    }
  }

  lemma ContentEnds(src: Text, i: nat, close: nat, tag: Text)
    requires i <= close && i <= |src| && ModeAt(src, i) == Body(tag) && IsTag(tag)
    requires StartsAt(src, close, tag) && NoTagIn(src, i, close, tag)
    ensures AllMasked(src, i, close + |tag|) && close + |tag| <= |src| && ModeAt(src, close + |tag|) == Mode.Code
  {
    BodyCloses(src, i, tag, close);
  }

  lemma DollarRuns(src: Text, tag: Text, close: nat)
    requires |tag| <= close && IsTag(tag) && StartsAt(src, 0, tag)
    requires StartsAt(src, close, tag) && NoTagIn(src, |tag|, close, tag)
    ensures AllMasked(src, 0, close + |tag|) && close + |tag| <= |src| && ModeAt(src, close + |tag|) == Mode.Code
  {
    DollarStarts(src, tag);
    ContentEnds(src, |tag|, close, tag);
    Joined(src, 0, |tag|, close + |tag|);
  }

  /** A dollar quote is masked whole and ends where its text ends. */
  lemma DollarQuoteRuns(src: Text, tag: Text, content: Text, close: nat, n: nat)
    requires StartsAt(src, 0, tag) && StartsAt(src, |tag|, content + tag)
    requires IsTag(tag) && FirstAtEnd(content, tag) && close == |tag| + |content| && n == close + |tag|
    ensures AllMasked(src, 0, n) && n <= |src| && ModeAt(src, n) == Mode.Code
  {
    TagComesFirst(src, |tag|, content, tag, close);
    DollarRuns(src, tag, close);
  }

  // ----- Every token -----

  /** Behind the token the automaton is in code again, and it has shown the token. */
  ghost predicate Runs(src: Text, t: Token, n: nat) {
    && n == |TokenText(t)| <= |src| && ModeAt(src, n) == Mode.Code
    && forall k :: 0 <= k < n ==> Out(src, k) == TokenShown(t)[k]
  }

  lemma MaskedRuns(src: Text, t: Token, n: nat)
    requires StartsAt(src, 0, TokenText(t)) && n == |TokenText(t)| && !t.Bare? && !t.QuotedName?
    requires AllMasked(src, 0, n) && ModeAt(src, n) == Mode.Code
    ensures Runs(src, t, n)
  {
    MaskedIsBlanked(src, TokenText(t));
  }

  lemma LineCommentToken(src: Text, text: Text, m: nat)
    requires StartsAt(src, 0, TokenText(LineComment(text))) && '\n' !in text && m == 2 + |text|
    ensures Runs(src, LineComment(text), m + 1)
  {
    StartsSplit(src, 0, ['-', '-'] + text, ['\n']);
    LineCommentRuns(src, text, m);
    OneAt(src, m, '\n');
    LineEnds(src, m);
    Joined(src, 0, m, m + 1);
    MaskedRuns(src, LineComment(text), m + 1);
  }

  lemma CommentToken(src: Text, body: Comment, n: nat)
    requires StartsAt(src, 0, TokenText(BlockComment(body))) && CommentOk(body) && Closed(body)
    requires n == |TokenText(BlockComment(body))|
    ensures Runs(src, BlockComment(body), n)
  {
    CommentRuns(src, body, n);
    MaskedRuns(src, BlockComment(body), n);
  }

  /** The quote that closes a literal whose opening and parts end at `m`. */
  lemma LiteralEnds(src: Text, t: Token, m: nat)
    requires (t.Quoted? || t.EscapeQuoted?) && StartsAt(src, 0, TokenText(t)) && m + 1 == |TokenText(t)|
    requires m < |src| && src[m] == '\'' && (m + 1 < |src| ==> src[m + 1] != '\'')
    requires ModeAt(src, m) == Literal(t.EscapeQuoted?) && AllMasked(src, 0, m)
    ensures Runs(src, t, m + 1)
  {
    LiteralCloses(src, m, t.EscapeQuoted?);
    Joined(src, 0, m, m + 1);
    MaskedRuns(src, t, m + 1);
  }

  lemma QuotedToken(src: Text, parts: seq<Part>, m: nat)
    requires StartsAt(src, 0, TokenText(Quoted(parts))) && PartsOk(parts, '\'', false)
    requires m == 1 + |PartsText(parts, '\'')| && (m + 1 < |src| ==> src[m + 1] != '\'')
    ensures Runs(src, Quoted(parts), m + 1)
  {
    StartsSplit(src, 0, ['\''] + PartsText(parts, '\''), ['\'']);
    QuotedRuns(src, parts, m);
    OneAt(src, m, '\'');
    LiteralEnds(src, Quoted(parts), m);
  }

  lemma EscapeToken(src: Text, prefix: byte, parts: seq<Part>, m: nat)
    requires StartsAt(src, 0, TokenText(EscapeQuoted(prefix, parts))) && IsE(prefix) && PartsOk(parts, '\'', true)
    requires m == 2 + |PartsText(parts, '\'')| && (m + 1 < |src| ==> src[m + 1] != '\'')
    ensures Runs(src, EscapeQuoted(prefix, parts), m + 1)
  {
    StartsSplit(src, 0, [prefix, '\''] + PartsText(parts, '\''), ['\'']);
    EscapeRuns(src, prefix, parts, m);
    OneAt(src, m, '\'');
    LiteralEnds(src, EscapeQuoted(prefix, parts), m);
  }

  lemma NameToken(src: Text, parts: seq<Part>, m: nat)
    requires StartsAt(src, 0, TokenText(QuotedName(parts))) && PartsOk(parts, '"', false)
    requires m == 1 + |PartsText(parts, '"')| && (m + 1 < |src| ==> src[m + 1] != '"')
    ensures Runs(src, QuotedName(parts), m + 1)
  {
    NameOpens(src, parts, m);
    NameEnds(src, QuotedName(parts), m);
  }

  lemma NameOpens(src: Text, parts: seq<Part>, m: nat)
    requires StartsAt(src, 0, ['"'] + PartsText(parts, '"') + ['"']) && PartsOk(parts, '"', false)
    requires m == 1 + |PartsText(parts, '"')|
    ensures m < |src| && src[m] == '"' && ModeAt(src, m) == Name && NoneMasked(src, 0, m)
  {
    StartsSplit(src, 0, ['"'] + PartsText(parts, '"'), ['"']);
    NameRuns(src, parts, m);
    OneAt(src, m, '"');
  }

  lemma NameEnds(src: Text, t: Token, m: nat)
    requires t.QuotedName? && StartsAt(src, 0, TokenText(t)) && m + 1 == |TokenText(t)|
    requires m < |src| && src[m] == '"' && (m + 1 < |src| ==> src[m + 1] != '"')
    requires ModeAt(src, m) == Name && NoneMasked(src, 0, m)
    ensures Runs(src, t, m + 1)
  {
    NameCloses(src, m);
    NoneJoined(src, 0, m, m + 1);
    UnmaskedStays(src, TokenText(t));
  }

  lemma DollarToken(src: Text, tag: Text, content: Text, n: nat)
    requires StartsAt(src, 0, TokenText(DollarQuote(tag, content))) && IsTag(tag) && FirstAtEnd(content, tag)
    requires n == |tag| + |content| + |tag|
    ensures Runs(src, DollarQuote(tag, content), n)
  {
    assert tag + content + tag == tag + (content + tag);
    StartsSplit(src, 0, tag, content + tag);
    DollarQuoteRuns(src, tag, content, |tag| + |content|, n);
    MaskedRuns(src, DollarQuote(tag, content), n);
  }

  lemma BareToken(src: Text, c: byte)
    requires src != [] && src[0] == c && OpensNothing(src)
    ensures Runs(src, Bare(c), 1)
  {
    BareRuns(src);
  }

  /** A token at the start of a text is shown as it should be. */
  lemma TokenRuns(t: Token, after: Text)
    requires TokenOk(t, after)
    ensures Runs(TokenText(t) + after, t, |TokenText(t)|)
  {
    var src, m := TokenText(t) + after, |TokenText(t)| - 1;
    PrefixStarts(TokenText(t), after);
    match t
    case Bare(c) =>
      assert src == [c] + after;
      BareToken(src, c);
    case LineComment(text) => LineCommentToken(src, text, m);
    case BlockComment(body) => CommentToken(src, body, m + 1);
    case Quoted(parts) =>
      NotFirst(src, m, after, '\'');
      QuotedToken(src, parts, m);
    case EscapeQuoted(prefix, parts) =>
      NotFirst(src, m, after, '\'');
      EscapeToken(src, prefix, parts, m);
    case QuotedName(parts) =>
      NotFirst(src, m, after, '"');
      NameToken(src, parts, m);
    case DollarQuote(tag, content) => DollarToken(src, tag, content, m + 1);
  }

  lemma NotFirst(src: Text, m: nat, after: Text, c: byte)
    requires StartsAt(src, m + 1, after) && |src| == m + 1 + |after| && !StartsAt(after, 0, [c])
    ensures m + 1 < |src| ==> src[m + 1] != c
  {
    StartsWithFirst(after, c);
    if after != [] {
      assert src[m + 1 + 0] == after[0];
    }
  }

  lemma StartsWithFirst(s: Text, c: byte)
    ensures StartsAt(s, 0, [c]) <==> s != [] && s[0] == c
  {
    if StartsAt(s, 0, [c]) {
      OneAt(s, 0, c);
    }
    assert s != [] ==> s[0 + 0] == s[0];
  }

  // ----- Every text of tokens -----

  /** Character `n` of the text is character `k` of its end `b`. */
  ghost predicate EndsIn(src: Text, b: Text, k: nat, n: nat) {
    n >= k && |src| == n - k + |b| && src[n - k..] == b
  }

  lemma StepShifts(src: Text, b: Text, k: nat, n: nat, m: Mode)
    requires k < |b| && EndsIn(src, b, k, n)
    ensures n < |src| && src[n] == b[k] && Step(src, n, m) == Step(b, k, m)
  {
    var a := src[..n - k];
    assert src == a + b;
    StepShiftsBehind(a, b, k, m);
  }

  lemma StepShiftsBehind(a: Text, b: Text, k: nat, m: Mode)
    requires k < |b|
    ensures Step(a + b, |a| + k, m) == Step(b, k, m)
  {
    assert (a + b)[|a| + k] == b[k] && (k + 1 < |b| ==> (a + b)[|a| + k + 1] == b[k + 1]);
    TagShifts(a, b, k);
    if m.Body? {
      StartShifts(a, b, k, m.tag);
    }
  }

  lemma NextShifts(src: Text, b: Text, k: nat, n: nat)
    requires k < |b| && EndsIn(src, b, k, n) && ModeAt(src, n) == ModeAt(b, k)
    ensures ModeAt(src, n + 1) == ModeAt(b, k + 1) && Out(src, n) == Out(b, k)
  {
    StepShifts(src, b, k, n, ModeAt(b, k));
  }

  /** Where the automaton is in code it reads on as from the start of a text. */
  lemma {:induction false} ModesShift(src: Text, b: Text, k: nat, n: nat, start: nat)
    requires k <= |b| && EndsIn(src, b, k, n) && start == n - k && ModeAt(src, start) == Mode.Code
    ensures ModeAt(src, n) == ModeAt(b, k)
    decreases k
  {
    if k > 0 {
      var k0, n0 := k - 1, n - 1;
      ModesShift(src, b, k0, n0, start);
      NextShifts(src, b, k0, n0);
    }
  }

  lemma OutShifts(src: Text, b: Text, k: nat, n: nat, start: nat)
    requires k < |b| && EndsIn(src, b, k, n) && start == n - k && ModeAt(src, start) == Mode.Code
    ensures n < |src| && Out(src, n) == Out(b, k)
  {
    ModesShift(src, b, k, n, start);
    NextShifts(src, b, k, n);
  }

  lemma MaskSplits(src: Text, b: Text, start: nat, out: Text)
    requires start <= |src| && src[start..] == b && ModeAt(src, start) == Mode.Code && out == MaskText(src)
    ensures out[start..] == MaskText(b)
  {
    forall k | 0 <= k < |b|
      ensures out[start..][k] == Out(b, k)
    {
      OutShifts(src, b, k, start + k, start);
    }
  }

  lemma ShownFirst(src: Text, t: Token, n: nat, out: Text)
    requires Runs(src, t, n) && out == MaskText(src)
    ensures out[..n] == TokenShown(t)
  {
  }

  lemma TwoPieces(out: Text, n: nat, x: Text, y: Text)
    requires n <= |out| && out[..n] == x && out[n..] == y
    ensures out == x + y
  {
  }

  lemma OneTokenMasked(t: Token, after: Text)
    requires TokenOk(t, after)
    ensures MaskText(TokenText(t) + after) == TokenShown(t) + MaskText(after)
  {
    TokenRuns(t, after);
    PiecesMasked(TokenText(t) + after, t, after, |TokenText(t)|);
  }

  lemma PiecesMasked(src: Text, t: Token, after: Text, n: nat)
    requires Runs(src, t, n) && src[n..] == after
    ensures MaskText(src) == TokenShown(t) + MaskText(after)
  {
    var out := MaskText(src);
    ShownFirst(src, t, n, out);
    MaskSplits(src, after, n, out);
    TwoPieces(out, n, TokenShown(t), MaskText(after));
  }

  /** A text of tokens is masked token by token, whatever follows them: code and quoted
      names stay, comments, literals and dollar quotes are blank but for their line
      breaks. */
  lemma {:induction false} TokensAreMasked(ts: seq<Token>, tail: Text)
    requires TokensOk(ts, tail)
    ensures MaskText(TokensText(ts) + tail) == TokensShown(ts) + MaskText(tail)
    decreases |ts|
  {
    if ts == [] {
      assert [] + tail == tail && [] + MaskText(tail) == MaskText(tail);
    } else {
      var rest := TokensText(ts[1..]) + tail;
      assert TokensText(ts) + tail == TokenText(ts[0]) + rest;
      OneTokenMasked(ts[0], rest);
      TokensAreMasked(ts[1..], tail);
      assert TokensShown(ts) + MaskText(tail) == TokenShown(ts[0]) + (TokensShown(ts[1..]) + MaskText(tail));
    }
  }

  // ----- What a text may end with -----

  lemma BlankTail(src: Text)
    requires AllMasked(src, 0, |src|)
    ensures MaskText(src) == Blanked(src)
  {
    forall k | 0 <= k < |src|
      ensures Out(src, k) == Blanked(src)[k]
    {
      assert Masked(src, k);
    }
  }

  lemma EscapeTail(src: Text, prefix: byte, parts: seq<Part>, backslash: bool, n: nat)
    requires src == TailText(OpenEscape(prefix, parts, backslash)) && IsE(prefix) && PartsOk(parts, '\'', true)
    requires n == 2 + |PartsText(parts, '\'')|
    ensures AllMasked(src, 0, |src|)
  {
    PrefixStarts([prefix, '\''] + PartsText(parts, '\''), if backslash then ['\\'] else []);
    EscapeRuns(src, prefix, parts, n);
    if backslash {
      assert src[n] == '\\';
      LoneBackslash(src, n);
      Joined(src, 0, n, |src|);
    }
  }

  lemma LoneBackslash(src: Text, n: nat)
    requires n + 1 == |src| && src[n] == '\\' && ModeAt(src, n) == Literal(true)
    ensures AllMasked(src, n, |src|)
  {
  }

  lemma DollarTail(src: Text, tag: Text, content: Text)
    requires src == tag + content && IsTag(tag) && forall k :: 0 <= k < |content| ==> !StartsAt(content, k, tag)
    ensures AllMasked(src, 0, |src|)
  {
    PrefixStarts(tag, content);
    DollarStarts(src, tag);
    forall k | |tag| <= k < |src|
      ensures !StartsAt(src, k, tag)
    {
      StartShifts(tag, content, k - |tag|, tag);
    }
    BodyUnclosed(src, 0, |tag|, tag);
  }

  lemma WholeText(src: Text)
    ensures StartsAt(src, 0, src)
  {
    assert forall k :: 0 <= k < |src| ==> src[0 + k] == src[k];
  }

  /** What is not closed is masked to the end of the text; an open quoted name stays. */
  lemma TailIsMasked(t: Tail)
    requires TailOk(t)
    ensures MaskText(TailText(t)) == TailShown(t)
  {
    var src := TailText(t);
    WholeText(src);
    match t
    case Nothing =>
    case OpenLine(text) =>
      LineCommentRuns(src, text, |src|);
      BlankTail(src);
    case OpenComment(body) =>
      CommentRuns(src, body, |src|);
      BlankTail(src);
    case OpenQuoted(parts) =>
      QuotedRuns(src, parts, |src|);
      BlankTail(src);
    case OpenEscape(prefix, parts, backslash) =>
      EscapeTail(src, prefix, parts, backslash, 2 + |PartsText(parts, '\'')|);
      BlankTail(src);
    case OpenName(parts) =>
      NameRuns(src, parts, |src|);
      UnmaskedStays(src, src);
    case OpenDollar(tag, content) =>
      DollarTail(src, tag, content);
      BlankTail(src);
  }

  /** A comment inside a comment does not end it. */
  lemma NestedExample()
    ensures MaskText(['/', '*', '/', '*', '*', '/', 'x', '*', '/']) == [' ', ' ', ' ', ' ', ' ', ' ', ' ', ' ', ' ']
  {
    var body := Nested(End, Comment.Char('x', End));
    var t := BlockComment(body);
    assert TokenText(t) == ['/', '*', '/', '*', '*', '/', 'x', '*', '/'];
    OneTokenMasked(t, []);
    assert TokenText(t) + [] == TokenText(t) && MaskText([]) == [];
  }
}
