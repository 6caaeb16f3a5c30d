/** Turning a character offset into a line, a column and a caret, and back.
    Source: internal/engine/postgresengine/pgerror.go. */
module PgError {
  import opened Lines

  const NL: char := '\n'

  /** A 1-based location, with the text of its line and the caret under its column. */
  datatype Position = Position(line: nat, col: nat, lineText: string, caret: string)

  const NOWHERE := Position(0, 0, "", "")

  /** The line number of character `n`. */
  function LineNo(s: string, n: nat): (line: nat)
    requires n <= |s|
    ensures line > 0
  {
    if n == 0 then 1 else LineNo(s, n - 1) + if s[n - 1] == NL then 1 else 0
  }

  /** The index its line starts at. */
  function LineStart(s: string, n: nat): (start: nat)
    requires n <= |s|
    ensures start <= n
    ensures forall k :: start <= k < n ==> s[k] != NL
    ensures start > 0 ==> s[start - 1] == NL
  {
    if n == 0 then 0 else if s[n - 1] == NL then n else LineStart(s, n - 1)
  }

  /** The lengths of the first `k` lines, each with its line break. */
  function LengthBefore(lines: seq<string>, k: nat): nat
    requires k <= |lines|
  {
    if k == 0 then 0 else LengthBefore(lines, k - 1) + |lines[k - 1]| + 1
  }

  function TrimReturn(line: string): string {
    if line != [] && line[|line| - 1] == '\r' then line[..|line| - 1] else line
  }

  lemma TrimReturnMeans(line: string)
    ensures TrimReturn(line + "\r") == line
    ensures (line == "" || line[|line| - 1] != '\r') ==> TrimReturn(line) == line
  {
  }

  function Spaces(n: nat): (r: string)
    ensures |r| == n && forall i :: 0 <= i < n ==> r[i] == ' '
  {
    seq(n, i => ' ')
  }

  // ----- The lines of a text and the locations in it -----

  /** `line` is the piece of the text from `start` to the next line break. */
  ghost predicate LineAt(s: string, line: string, start: nat) {
    && start + |line| <= |s| && line == s[start..start + |line|]
    && (start + |line| < |s| ==> s[start + |line|] == NL)
  }

  lemma {:induction false} LengthBeforeCons(l: string, rest: seq<string>, k: nat)
    requires 1 <= k <= |rest| + 1
    ensures LengthBefore([l] + rest, k) == |l| + 1 + LengthBefore(rest, k - 1)
  {
    if k > 1 {
      LengthBeforeCons(l, rest, k - 1);
    } else {
      assert LengthBefore([l] + rest, 0) == 0;
    }
  }

  lemma LengthBeforeGrown(c: char, lines: seq<string>, k: nat)
    requires 1 <= k <= |lines|
    ensures LengthBefore([[c] + lines[0]] + lines[1..], k) == 1 + LengthBefore(lines, k)
  {
    LengthBeforeCons([c] + lines[0], lines[1..], k);
    LengthBeforeCons(lines[0], lines[1..], k);
    assert [lines[0]] + lines[1..] == lines;
  }

  lemma LineAtCons(c: char, t: string, line: string, start: nat)
    requires LineAt(t, line, start)
    ensures LineAt([c] + t, line, start + 1)
  {
    assert ([c] + t)[start + 1..start + 1 + |line|] == t[start..start + |line|];
  }

  lemma LineAtGrows(c: char, t: string, line: string)
    requires LineAt(t, line, 0)
    ensures LineAt([c] + t, [c] + line, 0)
  {
    assert ([c] + t)[..1 + |line|] == [c] + t[..|line|];
  }

  /** Every line of a text is found where the lengths before it say. */
  lemma {:induction false} LineIsAt(s: string, k: nat)
    requires k < |Split(s, NL)|
    ensures LineAt(s, Split(s, NL)[k], LengthBefore(Split(s, NL), k))
    ensures k + 1 == |Split(s, NL)| <==> LengthBefore(Split(s, NL), k) + |Split(s, NL)[k]| == |s|
  {
    if s != [] {
      var c, t := s[0], s[1..];
      var rest := Split(t, NL);
      assert s == [c] + t;
      if c == NL {
        if k == 0 {
          LineIsAt(t, 0);
        } else {
          LineIsAt(t, k - 1);
          LengthBeforeCons([], rest, k);
          LineAtCons(c, t, rest[k - 1], LengthBefore(rest, k - 1));
        }
      } else {
        LineIsAt(t, k);
        if k == 0 {
          LineAtGrows(c, t, rest[0]);
        } else {
          LengthBeforeGrown(c, rest, k);
          LineAtCons(c, t, rest[k], LengthBefore(rest, k));
        }
      }
    }
  }

  /** A location is in the line its number says, or at that line's break, and the lines
      before it end where its line starts. */
  lemma {:induction false} LineOfLocation(s: string, n: nat)
    requires n <= |s|
    ensures LineNo(s, n) <= |Split(s, NL)|
    ensures LengthBefore(Split(s, NL), LineNo(s, n) - 1) == LineStart(s, n)
    ensures n <= LineStart(s, n) + |Split(s, NL)[LineNo(s, n) - 1]|
  {
    if n > 0 {
      var lines, k := Split(s, NL), LineNo(s, n - 1) - 1;
      LineOfLocation(s, n - 1);
      LineIsAt(s, k);
      var start := LengthBefore(lines, k);
      if s[n - 1] == NL {
        NoBreakInside(s, lines[k], start, n - 1);
      } else {
        assert n - 1 < start + |lines[k]|;
      }
    }
  }

  lemma NoBreakInside(s: string, line: string, start: nat, n: nat)
    requires LineAt(s, line, start) && NL !in line && start <= n <= start + |line| && n < |s|
    ensures s[n] == NL <==> n == start + |line|
  {
    if n < start + |line| {
      assert line[n - start] == s[n];
    }
  }

  // ----- The code -----

  /** For every valid offset: the column lies in that line of the text or on its line
      break, the earlier lines with their breaks and the column add up to the offset,
      the text is the line without a trailing carriage return, and the caret is under
      the column. Any other offset is nowhere. */
  method TranslatePosition(sqlText: string, charOffset: int) returns (at: Position)
    ensures charOffset < 1 || charOffset > |sqlText| ==> at == NOWHERE
    ensures 1 <= charOffset <= |sqlText| ==> Locates(sqlText, charOffset, at)
    ensures at == Locate(sqlText, charOffset)
  {
    if charOffset < 1 || charOffset > |sqlText| {
      return NOWHERE;
    }
    var curLine, curCol, lineStart := WalkTo(sqlText, charOffset - 1);
    ghost var text := LineHere(sqlText, charOffset);
    var line := RestOfLine(sqlText, lineStart, text);
    if |line| > 0 && line[|line| - 1] == '\r' {
      line := line[..|line| - 1];
    }
    at := Position(curLine, curCol, line, Spaces(curCol - 1) + "^");
    LocateLocates(sqlText, charOffset);
  }

  /** The line of an offset, and its location in terms of it. */
  lemma LineHere(s: string, offset: nat) returns (line: string)
    requires 1 <= offset <= |s|
    ensures LineAt(s, line, LineStart(s, offset - 1)) && NL !in line
    ensures var col := offset - LineStart(s, offset - 1);
            Locate(s, offset) == Position(LineNo(s, offset - 1), col, TrimReturn(line), Spaces(col - 1) + "^")
  {
    LineOfLocation(s, offset - 1);
    var k := LineNo(s, offset - 1) - 1;
    LineIsAt(s, k);
    line := Split(s, NL)[k];
    assert line in Split(s, NL);
  }

  /** The line, the column and the start of the line of a character. */
  method WalkTo(sqlText: string, n: nat) returns (curLine: nat, curCol: nat, lineStart: nat)
    requires n <= |sqlText|
    ensures curLine == LineNo(sqlText, n) && lineStart == LineStart(sqlText, n) && curCol == n - lineStart + 1
  {
    curLine, curCol, lineStart := 1, 1, 0;
    for i := 0 to n
      invariant curLine == LineNo(sqlText, i) && lineStart == LineStart(sqlText, i) && curCol == i - lineStart + 1
    {
      if sqlText[i] == NL {
        curLine := curLine + 1;
        curCol := 1;
        lineStart := i + 1;
      } else {
        curCol := curCol + 1;
      }
    }
  }

  method RestOfLine(sqlText: string, lineStart: nat, ghost line: string) returns (r: string)
    requires LineAt(sqlText, line, lineStart) && NL !in line
    ensures r == line
  {
    var lineEnd := lineStart;
    while lineEnd < |sqlText| && sqlText[lineEnd] != NL
      invariant lineStart <= lineEnd <= lineStart + |line|
    {
      NoBreakInside(sqlText, line, lineStart, lineEnd);
      lineEnd := lineEnd + 1;
    }
    if lineEnd < |sqlText| {
      NoBreakInside(sqlText, line, lineStart, lineEnd);
    }
    r := sqlText[lineStart..lineEnd];
  }

  /** What a location means, in terms of the lines of the text alone. */
  ghost predicate Locates(s: string, offset: nat, at: Position) {
    var lines := Split(s, NL);
    && 1 <= at.line <= |lines| && 1 <= at.col <= |lines[at.line - 1]| + 1
    && LengthBefore(lines, at.line - 1) + at.col == offset
    && at.lineText == TrimReturn(lines[at.line - 1])
    && at.caret == Spaces(at.col - 1) + "^"
  }

  /** The location of an offset as a function, for the laws below. */
  function Locate(s: string, offset: int): Position {
    if offset < 1 || offset > |s| then NOWHERE
    else
      LineOfLocation(s, offset - 1);
      var line, start := LineNo(s, offset - 1), LineStart(s, offset - 1);
      Position(line, offset - start, TrimReturn(Split(s, NL)[line - 1]), Spaces(offset - start - 1) + "^")
  }

  /** Later offsets have later locations, line first and column second. */
  lemma {:induction false} LocateIsMonotone(s: string, a: int, b: int)
    requires 1 <= a < b <= |s|
    ensures var p, q := Locate(s, a), Locate(s, b);
            p.line < q.line || (p.line == q.line && p.col < q.col)
    decreases b
  {
    if a < b - 1 {
      LocateIsMonotone(s, a, b - 1);
    }
  }

  /** Nothing but the location of an offset has its meaning: every line and column of the
      text is the location of one offset, the one the line lengths add up to. */
  lemma LocateIsExact(s: string, offset: nat, at: Position)
    requires 1 <= offset <= |s|
    ensures Locates(s, offset, at) <==> at == Locate(s, offset)
  {
    LocateLocates(s, offset);
    if Locates(s, offset, at) {
      LocationsAgree(Split(s, NL), at.line, at.col, Locate(s, offset).line, Locate(s, offset).col);
    }
  }

  lemma LocateLocates(s: string, offset: nat)
    requires 1 <= offset <= |s|
    ensures Locates(s, offset, Locate(s, offset))
  {
    LineOfLocation(s, offset - 1);
  }

  lemma LocationsAgree(lines: seq<string>, line: nat, col: nat, line': nat, col': nat)
    requires 1 <= line <= |lines| && 1 <= col <= |lines[line - 1]| + 1
    requires 1 <= line' <= |lines| && 1 <= col' <= |lines[line' - 1]| + 1
    requires LengthBefore(lines, line - 1) + col == LengthBefore(lines, line' - 1) + col'
    ensures line == line' && col == col'
  {
    if line < line' {
      LengthGrows(lines, line - 1, line' - 1);
    } else if line' < line {
      LengthGrows(lines, line' - 1, line - 1);
    }
  }

  lemma {:induction false} LengthGrows(lines: seq<string>, j: nat, k: nat)
    requires j < k <= |lines|
    ensures LengthBefore(lines, j) + |lines[j]| + 1 <= LengthBefore(lines, k)
  {
    if j < k - 1 {
      LengthGrows(lines, j, k - 1);
    }
  }

  // ----- The preamble -----

  /** The location the error report uses: the server counts from the preamble that was
      sent in front of the file. */
  function Adjusted(sqlText: string, position: int, prefixLen: nat): Position {
    Locate(sqlText, position - prefixLen)
  }

  lemma {:induction false} PrefixedLine(prefix: string, s: string, n: nat)
    requires n <= |s| && prefix != [] && prefix[|prefix| - 1] == NL
    ensures LineNo(prefix + s, |prefix| + n) == LineNo(prefix, |prefix|) - 1 + LineNo(s, n)
    ensures LineStart(prefix + s, |prefix| + n) == |prefix| + LineStart(s, n)
  {
    var all := prefix + s;
    if n == 0 {
      PrefixLines(prefix, s, |prefix|);
      assert all[|prefix| - 1] == NL;
    } else {
      PrefixedLine(prefix, s, n - 1);
      assert all[|prefix| + n - 1] == s[n - 1];
    }
  }

  lemma {:induction false} PrefixLines(prefix: string, s: string, n: nat)
    requires n <= |prefix|
    ensures LineNo(prefix + s, n) == LineNo(prefix, n)
  {
    if n > 0 {
      PrefixLines(prefix, s, n - 1);
      assert (prefix + s)[n - 1] == prefix[n - 1];
    }
  }

  /** With a preamble that ends its last line, the report gives the location in the bare
      file: the same column, and the line number less the preamble's lines. Positions in
      the preamble itself are nowhere. */
  lemma PreambleIsDiscounted(prefix: string, s: string, position: int)
    requires prefix != [] && prefix[|prefix| - 1] == NL
    ensures position <= |prefix| ==> Adjusted(s, position, |prefix|) == NOWHERE
    ensures |prefix| < position <= |prefix| + |s| ==>
              var p, q := Adjusted(s, position, |prefix|), Locate(prefix + s, position);
              && p == Locate(s, position - |prefix|)
              && q.line == p.line + (LineNo(prefix, |prefix|) - 1) && q.col == p.col && q.caret == p.caret
              && LineStart(prefix + s, position - 1) == |prefix| + LineStart(s, position - |prefix| - 1)
  {
    if |prefix| < position <= |prefix| + |s| {
      PrefixedLine(prefix, s, position - |prefix| - 1);
    }
  }
}
