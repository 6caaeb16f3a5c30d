/** Every text is a list of tokens, up to what it may leave open at its end; so what module
    Tokens says of masking holds of every text.
    Source: internal/engine/postgresengine/ddl.go. */
module Reading {
  import opened Dollar
  import opened Mask
  import opened Psql
  import opened Tokens

  lemma CommentCharOk(s: Text, b: Comment, rest: Text)
    requires s != [] && s[1..] == CommentText(b) + rest && CommentOk(b) && (!Closed(b) ==> rest == [])
    requires !StartsAt(s, 0, ['*', '/']) && !StartsAt(s, 0, ['/', '*'])
    ensures CommentOk(Comment.Char(s[0], b))
  {
    FollowingIsFirst(b);
    if CommentText(b) != [] {
      assert s[1] == CommentText(b)[0];
      assert forall a, c :: s[0] == a && s[1] == c ==> StartsAt(s, 0, [a, c]);
    }
  }

  /** A comment read from behind its opening. */
  lemma ReadComment(s: Text) returns (b: Comment, rest: Text)
    ensures s == CommentText(b) + rest && CommentOk(b) && (!Closed(b) ==> rest == [])
    decreases |s|
  {
    if s == [] {
      b, rest := Cut, [];
    } else if StartsAt(s, 0, ['*', '/']) {
      TwoAt(s, 0, '*', '/');
      b, rest := End, s[2..];
      assert s == ['*', '/'] + s[2..];
    } else if StartsAt(s, 0, ['/', '*']) {
      TwoAt(s, 0, '/', '*');
      var inner;
      inner, rest := ReadComment(s[2..]);
      assert s == ['/', '*'] + (CommentText(inner) + rest);
      if Closed(inner) {
        var after := rest;
        b, rest := ReadComment(after);
        assert s == ['/', '*'] + CommentText(inner) + CommentText(b) + rest;
        b := Nested(inner, b);
      } else {
        b := Nested(inner, Cut);
        assert s == ['/', '*'] + CommentText(inner) + [] + rest;
      }
    } else {
      b, rest := ReadComment(s[1..]);
      CommentCharOk(s, b, rest);
      assert s == [s[0]] + CommentText(b) + rest;
      b := Comment.Char(s[0], b);
    }
  }

  /** How reading the parts of a quoted text ends: at the closing quote, with the text, or
      with a backslash as its last character. */
  datatype Close = AtQuote | AtEnd | AtBackslash

  function CloseText(close: Close, quote: byte): Text {
    match close
    case AtQuote => [quote]
    case AtEnd => []
    case AtBackslash => ['\\']
  }

  lemma PartFirst(s: Text, p: Part, quote: byte, parts: seq<Part>, more: Text)
    requires s == PartText(p, quote) + (PartsText(parts, quote) + more)
    ensures s == PartsText([p] + parts, quote) + more
  {
    assert ([p] + parts)[1..] == parts;
  }

  /** A quoted text read from behind its opening quote. */
  lemma ReadParts(s: Text, quote: byte, escapes: bool) returns (parts: seq<Part>, close: Close, rest: Text)
    requires quote != '\\'
    ensures s == PartsText(parts, quote) + (CloseText(close, quote) + rest) && PartsOk(parts, quote, escapes)
    ensures close == AtQuote ==> !StartsAt(rest, 0, [quote])
    ensures close != AtQuote ==> rest == []
    ensures close == AtBackslash ==> escapes
    decreases |s|
  {
    if s == [] {
      parts, close, rest := [], AtEnd, [];
    } else if s[0] == quote && (|s| == 1 || s[1] != quote) {
      parts, close, rest := [], AtQuote, s[1..];
      StartsWithFirst(rest, quote);
      assert s == [quote] + rest;
    } else if escapes && s == ['\\'] {
      parts, close, rest := [], AtBackslash, [];
      assert s == [] + (['\\'] + []);
    } else {
      var p := if s[0] == quote then Doubled else if escapes && s[0] == '\\' then Escaped(s[1]) else Plain(s[0]);
      var n := |PartText(p, quote)|;
      parts, close, rest := ReadParts(s[n..], quote, escapes);
      assert s == PartText(p, quote) + s[n..];
      PartFirst(s, p, quote, parts, CloseText(close, quote) + rest);
      parts := [p] + parts;
    }
  }

  lemma FirstPlace(s: Text, from: nat, t: Text) returns (found: bool, at: nat)
    requires from <= |s|
    ensures found ==> from <= at && StartsAt(s, at, t) && forall k :: from <= k < at ==> !StartsAt(s, k, t)
    ensures !found ==> forall k :: from <= k ==> !StartsAt(s, k, t)
    decreases |s| - from
  {
    if StartsAt(s, from, t) {
      found, at := true, from;
    } else if from == |s| {
      found, at := false, 0;
    } else {
      found, at := FirstPlace(s, from + 1, t);
    }
  }

  /** The first token of a text, or the text whole as what is not closed. */
  datatype Read = OneToken(t: Token, rest: Text) | OnlyTail(tail: Tail)

  ghost predicate Reads(src: Text, r: Read) {
    match r
    case OneToken(t, rest) => src == TokenText(t) + rest && TokenOk(t, rest)
    case OnlyTail(tail) => src == TailText(tail) && TailOk(tail)
  }

  lemma ReadLine(src: Text) returns (r: Read)
    requires StartsAt(src, 0, ['-', '-'])
    ensures Reads(src, r)
  {
    TwoAt(src, 0, '-', '-');
    var text := src[2..];
    assert src == ['-', '-'] + text;
    var found, at := FirstPlace(text, 0, ['\n']);
    forall k | 0 <= k < |text| && !StartsAt(text, k, ['\n'])
      ensures text[k] != '\n'
    {
      assert text[k + 0] == text[k];
    }
    if found {
      OneAt(text, at, '\n');
      r := OneToken(LineComment(text[..at]), text[at + 1..]);
      assert src == ['-', '-'] + text[..at] + ['\n'] + text[at + 1..];
    } else {
      r := OnlyTail(OpenLine(text));
    }
  }

  lemma ReadBlock(src: Text) returns (r: Read)
    requires StartsAt(src, 0, ['/', '*'])
    ensures Reads(src, r)
  {
    TwoAt(src, 0, '/', '*');
    assert src == ['/', '*'] + src[2..];
    var b, rest := ReadComment(src[2..]);
    assert src == ['/', '*'] + CommentText(b) + rest;
    if Closed(b) {
      r := OneToken(BlockComment(b), rest);
    } else {
      assert ['/', '*'] + CommentText(b) + [] == ['/', '*'] + CommentText(b);
      r := OnlyTail(OpenComment(b));
    }
  }

  lemma ReadQuoted(src: Text) returns (r: Read)
    requires StartsAt(src, 0, ['\''])
    ensures Reads(src, r)
  {
    OneAt(src, 0, '\'');
    var parts, close, rest := ReadParts(src[1..], '\'', false);
    assert src == ['\''] + src[1..];
    if close == AtQuote {
      r := OneToken(Quoted(parts), rest);
      assert src == ['\''] + PartsText(parts, '\'') + ['\''] + rest;
    } else {
      r := OnlyTail(OpenQuoted(parts));
      assert src == ['\''] + PartsText(parts, '\'');
    }
  }

  lemma ReadEscape(src: Text) returns (r: Read)
    requires |src| >= 2 && IsE(src[0]) && src[1] == '\''
    ensures Reads(src, r)
  {
    var parts, close, rest := ReadParts(src[2..], '\'', true);
    assert src == [src[0], '\''] + src[2..];
    if close == AtQuote {
      r := OneToken(EscapeQuoted(src[0], parts), rest);
      assert src == [src[0], '\''] + PartsText(parts, '\'') + ['\''] + rest;
    } else {
      r := OnlyTail(OpenEscape(src[0], parts, close == AtBackslash));
      assert src == [src[0], '\''] + PartsText(parts, '\'') + CloseText(close, '\'');
    }
  }

  lemma ReadName(src: Text) returns (r: Read)
    requires StartsAt(src, 0, ['"'])
    ensures Reads(src, r)
  {
    OneAt(src, 0, '"');
    var parts, close, rest := ReadParts(src[1..], '"', false);
    assert src == ['"'] + src[1..];
    if close == AtQuote {
      r := OneToken(QuotedName(parts), rest);
      assert src == ['"'] + PartsText(parts, '"') + ['"'] + rest;
    } else {
      r := OnlyTail(OpenName(parts));
      assert src == ['"'] + PartsText(parts, '"');
    }
  }

  lemma ReadDollar(src: Text, tag: Text) returns (r: Read)
    requires IsTag(tag) && StartsAt(src, 0, tag)
    ensures Reads(src, r)
  {
    SliceStarts(src, 0, tag);
    var text := src[|tag|..];
    assert src == tag + text;
    var found, at := FirstPlace(text, 0, tag);
    if found {
      r := ReadClosed(src, tag, text, at);
    } else {
      r := OnlyTail(OpenDollar(tag, text));
    }
  }

  lemma ReadClosed(src: Text, tag: Text, text: Text, at: nat) returns (r: Read)
    requires IsTag(tag) && src == tag + text && StartsAt(text, at, tag)
    requires forall k :: 0 <= k < at ==> !StartsAt(text, k, tag)
    ensures Reads(src, r)
  {
    ContentEndsAt(text, at, tag);
    var content, rest := CutAtTag(text, at, tag);
    r := OneToken(DollarQuote(tag, content), rest);
    Regroup(tag, content, tag, rest);
  }

  lemma Regroup(a: Text, b: Text, c: Text, d: Text)
    ensures a + (b + c + d) == a + b + c + d
  {
  }

  lemma CutAtTag(text: Text, at: nat, tag: Text) returns (content: Text, rest: Text)
    requires StartsAt(text, at, tag)
    ensures at <= |text| && content == text[..at] && text == content + tag + rest
  {
    SliceStarts(text, at, tag);
    content, rest := text[..at], text[at + |tag|..];
  }

  lemma ContentEndsAt(text: Text, at: nat, tag: Text)
    requires StartsAt(text, at, tag) && forall k :: 0 <= k < at ==> !StartsAt(text, k, tag)
    ensures FirstAtEnd(text[..at], tag)
  {
    SliceStarts(text, at, tag);
    var n := at + |tag|;
    assert text[..at] + tag == text[..n];
    forall k | 0 <= k < at
      ensures !StartsAt(text[..at] + tag, k, tag)
    {
      StartsInPrefix(text, n, k, tag);
    }
  }

  lemma StartsInPrefix(text: Text, n: nat, k: nat, tag: Text)
    requires k + |tag| <= n <= |text|
    ensures StartsAt(text[..n], k, tag) <==> StartsAt(text, k, tag)
  {
    SliceStarts(text[..n], k, tag);
    SliceStarts(text, k, tag);
    assert text[..n][k..k + |tag|] == text[k..k + |tag|];
  }

  lemma ReadBare(src: Text) returns (r: Read)
    requires src != [] && TagAt(src, 0) == [] && !EscapeOpens(src, 0)
    requires !StartsAt(src, 0, ['-', '-']) && !StartsAt(src, 0, ['/', '*'])
    requires !StartsAt(src, 0, ['\'']) && !StartsAt(src, 0, ['"'])
    ensures Reads(src, r)
  {
    r := OneToken(Bare(src[0]), src[1..]);
    assert src == [src[0]] + src[1..];
    forall tag | IsTag(tag)
      ensures !StartsAt(src, 0, tag)
    {
      if StartsAt(src, 0, tag) {
        TagAtFinds(src, 0, tag);
      }
    }
    forall e: byte | StartsAt(src, 0, [e, '\''])
      ensures |src| >= 2 && src[0] == e && src[1] == '\''
    {
      TwoAt(src, 0, e, '\'');
    }
  }

  lemma ReadOne(src: Text) returns (r: Read)
    requires src != []
    ensures Reads(src, r)
  {
    if StartsAt(src, 0, ['-', '-']) {
      r := ReadLine(src);
    } else if StartsAt(src, 0, ['/', '*']) {
      r := ReadBlock(src);
    } else if StartsAt(src, 0, ['\'']) {
      r := ReadQuoted(src);
    } else if StartsAt(src, 0, ['"']) {
      r := ReadName(src);
    } else if EscapeOpens(src, 0) {
      r := ReadEscape(src);
    } else if TagAt(src, 0) != [] {
      TagAtMeans(src, 0);
      r := ReadDollar(src, TagAt(src, 0));
    } else {
      r := ReadBare(src);
    }
  }

  lemma SomeText(t: Token, rest: Text)
    requires TokenOk(t, rest)
    ensures TokenText(t) != []
  {
  }

  lemma OneMoreToken(t: Token, ts: seq<Token>, rest: Text, tail: Text)
    requires rest == TokensText(ts) + tail && TokenOk(t, rest) && TokensOk(ts, tail)
    ensures TokensOk([t] + ts, tail) && TokenText(t) + rest == TokensText([t] + ts) + tail
  {
    assert ([t] + ts)[1..] == ts;
    Associate(TokenText(t), TokensText(ts), tail);
  }

  lemma Associate(a: Text, b: Text, c: Text)
    ensures a + (b + c) == a + b + c
  {
  }

  /** Every text is one of tokens and of something that may be left open at its end. */
  lemma {:induction false} EveryTextIsTokens(src: Text) returns (ts: seq<Token>, tail: Tail)
    ensures src == TokensText(ts) + TailText(tail) && TokensOk(ts, TailText(tail)) && TailOk(tail)
    decreases |src|
  {
    ts, tail := [], Nothing;
    if src != [] {
      var r := ReadOne(src);
      match r
      case OnlyTail(t) =>
        tail := t;
        assert src == [] + TailText(tail);
      case OneToken(t, rest) =>
        SomeText(t, rest);
        ts, tail := EveryTextIsTokens(rest);
        OneMoreToken(t, ts, rest, TailText(tail));
        ts := [t] + ts;
    }
  }

  /** So this is what masking does to any text, said of its tokens. */
  lemma MaskIsByTokens(src: Text) returns (ts: seq<Token>, tail: Tail)
    ensures src == TokensText(ts) + TailText(tail) && TokensOk(ts, TailText(tail)) && TailOk(tail)
    ensures MaskText(src) == TokensShown(ts) + TailShown(tail)
  {
    ts, tail := EveryTextIsTokens(src);
    TokensAreMasked(ts, TailText(tail));
    TailIsMasked(tail);
  }
}
