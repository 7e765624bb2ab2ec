/** ConvertANTLRPositionToPosition of backend/common/position.go: a one-based line and zero-based
    column of a text become a one-based line and column, clamped to the text. */
module Positions {

  const MIN_INT32 := -0x8000_0000
  const MAX_INT32 := 0x7FFF_FFFF

  type Int32 = n: int | MIN_INT32 <= n <= MAX_INT32

  /** The int32 conversion wraps around. */
  function ToInt32(n: int): Int32 { (n + 0x8000_0000) % 0x1_0000_0000 - 0x8000_0000 }

  /** One more and one less, in int32. */
  function Plus1(n: Int32): Int32 { if n == MAX_INT32 then MIN_INT32 else n + 1 }

  function Minus1(n: Int32): Int32 { if n == MIN_INT32 then MAX_INT32 else n - 1 }

  datatype Position = Position(line: Int32, column: Int32)

  // ---------------------------------------------------------------- lines

  /** The lines of a text, between its newlines. */
  function Lines(text: string): (lines: seq<string>)
    ensures lines != []
  {
    if text == "" then [""]
    else
      var rest := Lines(text[1..]);
      if text[0] == '\n' then [""] + rest else [[text[0]] + rest[0]] + rest[1..]
  }

  function Min(a: int, b: int): int { if a <= b then a else b }

  function Max(a: int, b: int): int { if a >= b then a else b }

  /** What the conversion means: the line asked for and the column, if the line has it, one-based;
      past the last line, the start of the last line. The column plus one wraps around. */
  function Converted(a: Position, text: string): (int, Int32) {
    var lines := Lines(text);
    var line := Max(a.line, 1);
    if line > |lines| then (|lines|, 1)
    else (line, Plus1(Min(Max(a.column, 0), |lines[line-1]|)))
  }

  /** How many code points the loop looks at: the length of the text, converted to int32. */
  function Seen(text: string): (n: nat)
    ensures n <= |text| && (|text| <= MAX_INT32 ==> n == |text|)
  {
    Max(ToInt32(|text|), 0)
  }

  /** `rest` is what is left of `lines` from a line and a column on. */
  ghost predicate At(lines: seq<string>, rest: seq<string>, line: nat, column: nat) {
    && line >= 1 && rest != [] && |lines| == line - 1 + |rest|
    && |lines[line-1]| == column + |rest[0]|
    && forall k :: line <= k < |lines| ==> lines[k] == rest[k - line + 1]
  }

  lemma {:induction false} NextRune(lines: seq<string>, text: string, line: nat, column: nat)
    requires text != "" && At(lines, Lines(text), line, column)
    ensures if text[0] == '\n' then At(lines, Lines(text[1..]), line + 1, 0) else At(lines, Lines(text[1..]), line, column + 1)
  {
    if text[0] == '\n' {
      NextLine(lines, Lines(text[1..]), line, column);
    } else {
      NextColumn(lines, text[0], Lines(text[1..]), line, column);
    }
  }

  lemma {:induction false} NextLine(lines: seq<string>, tail: seq<string>, line: nat, column: nat)
    requires tail != [] && At(lines, [""] + tail, line, column)
    ensures At(lines, tail, line + 1, 0)
  {
    var rest := [""] + tail;
    forall k | line <= k < |lines| ensures lines[k] == tail[k - line] { assert rest[k - line + 1] == tail[k - line]; }
  }

  lemma {:induction false} NextColumn(lines: seq<string>, c: char, tail: seq<string>, line: nat, column: nat)
    requires tail != [] && At(lines, [[c] + tail[0]] + tail[1..], line, column)
    ensures At(lines, tail, line, column + 1)
  {
    var rest := [[c] + tail[0]] + tail[1..];
    forall k | line <= k < |lines| ensures lines[k] == tail[k - line + 1] { assert rest[k - line + 1] == tail[k - line + 1]; }
  }

  lemma {:induction false} LineBreak(text: string)
    ensures text == "" || text[0] == '\n' ==> Lines(text)[0] == ""
    ensures text == "" ==> |Lines(text)| == 1
  {
  }

  /** The loop at an offset: on which line and column that is, and how far it has counted on the
      line asked for. */
  ghost predicate Walking(a: Position, seen: string, offset: nat, line: nat, column: nat, counted: int) {
    && offset <= |seen| && 1 <= line <= Max(a.line, 1) && At(Lines(seen), Lines(seen[offset..]), line, column)
    && counted == (if line < a.line then 0 else column) && 0 <= counted <= Max(a.column, 0)
  }

  lemma {:induction false} WalkOn(a: Position, seen: string, offset: nat, line: nat, column: nat, counted: int)
    requires Walking(a, seen, offset, line, column, counted) && offset < |seen|
    ensures line < a.line && seen[offset] == '\n' ==> Walking(a, seen, offset + 1, line + 1, 0, counted)
    ensures line < a.line && seen[offset] != '\n' ==> Walking(a, seen, offset + 1, line, column + 1, counted)
    ensures line >= a.line && seen[offset] != '\n' && counted < a.column ==> Walking(a, seen, offset + 1, line, column + 1, counted + 1)
  {
    var rest := seen[offset..];
    assert rest[0] == seen[offset] && rest[1..] == seen[offset + 1..];
    NextRune(Lines(seen), rest, line, column);
  }

  lemma {:induction false} WalkEnds(a: Position, seen: string, offset: nat, line: nat, column: nat, counted: int)
    requires Walking(a, seen, offset, line, column, counted)
    requires offset < |seen| ==> line >= a.line && (counted >= a.column || seen[offset] == '\n')
    ensures line <= a.line || line == 1
    ensures (line, Plus1(counted)) == Converted(a, seen)
  {
    LineBreak(seen[offset..]);
  }

  method ConvertANTLRPositionToPosition(a: Position, text: string) returns (line: Int32, column: Int32)
    ensures (line, column) == Converted(a, text[..Seen(text)])
  {
    line := 1;
    var charOffsetInLine, globalCharOffset := 0, 0;
    var limit := ToInt32(|text|);
    ghost var seen, actual := text[..Seen(text)], 0;
    assert seen[0..] == seen;
    while globalCharOffset < limit
      invariant Max(limit, 0) == |seen|
      invariant Walking(a, seen, globalCharOffset, line, actual, charOffsetInLine)
      decreases |seen| - globalCharOffset
    {
      assert seen[globalCharOffset] == text[globalCharOffset];
      WalkOn(a, seen, globalCharOffset, line, actual, charOffsetInLine);
      if line < a.line {
        actual := if text[globalCharOffset] == '\n' then 0 else actual + 1;
        if text[globalCharOffset] == '\n' { line := line + 1; }
        globalCharOffset := globalCharOffset + 1;
        continue;
      }
      if charOffsetInLine >= a.column || text[globalCharOffset] == '\n' { break; }
      charOffsetInLine := charOffsetInLine + 1;
      globalCharOffset := globalCharOffset + 1;
      actual := actual + 1;
    }
    WalkEnds(a, seen, globalCharOffset, line, actual, charOffsetInLine);
    column := Plus1(charOffsetInLine);
  }

  // ---------------------------------------------------------------- offsets and back

  /** The ANTLR position of a code-point offset. */
  function PositionOf(text: string, offset: nat): (p: (nat, nat))
    requires offset <= |text|
    ensures 1 <= p.0 <= offset + 1 && p.1 <= offset
  {
    if offset == 0 then (1, 0)
    else
      var p := PositionOf(text, offset - 1);
      if text[offset-1] == '\n' then (p.0 + 1, 0) else (p.0, p.1 + 1)
  }

  /** Where a line starts. */
  function StartOf(lines: seq<string>, k: nat): nat
    requires k <= |lines|
  {
    if k == 0 then 0 else StartOf(lines, k - 1) + |lines[k-1]| + 1
  }

  lemma {:induction false} PositionInLines(text: string, offset: nat)
    requires offset <= |text|
    ensures var (line, column) := PositionOf(text, offset);
            var lines := Lines(text);
            At(lines, Lines(text[offset..]), line, column) && offset == StartOf(lines, line - 1) + column
  {
    if offset == 0 {
      assert text[0..] == text;
    } else {
      PositionInLines(text, offset - 1);
      var before := text[offset-1..];
      assert before[0] == text[offset-1] && before[1..] == text[offset..];
      var (line, column) := PositionOf(text, offset - 1);
      NextRune(Lines(text), before, line, column);
      LineBreak(before);
    }
  }

  predicate Before(p: (int, int), q: (int, int)) { p.0 < q.0 || (p.0 == q.0 && p.1 < q.1) }

  lemma {:induction false} PositionsIncrease(text: string, i: nat, j: nat)
    requires i < j <= |text|
    ensures Before(PositionOf(text, i), PositionOf(text, j))
    decreases j
  {
    if i < j - 1 { PositionsIncrease(text, i, j - 1); }
  }

  /** The position is one of int32 line and column. */
  predicate Fits(p: (nat, nat)) { p.0 <= MAX_INT32 && p.1 <= MAX_INT32 }

  /** What the converter answers for the position of an offset. */
  function ConvertedAt(text: string, i: nat): (int, Int32)
    requires i <= |text| && Fits(PositionOf(text, i))
  {
    var p := PositionOf(text, i);
    Converted(Position(p.0, p.1), text[..Seen(text)])
  }

  lemma {:induction false} PositionInPrefix(text: string, n: nat, i: nat)
    requires i <= n <= |text|
    ensures PositionOf(text[..n], i) == PositionOf(text, i)
  {
    if i > 0 { PositionInPrefix(text, n, i - 1); }
  }

  lemma {:induction false} PositionConverts(text: string, i: nat)
    requires i <= Seen(text) && Fits(PositionOf(text, i))
    ensures var p, lines := PositionOf(text, i), Lines(text[..Seen(text)]);
            ConvertedAt(text, i) == (p.0, Plus1(p.1)) && p.0 <= |lines| && i == StartOf(lines, p.0 - 1) + p.1
  {
    PositionInPrefix(text, Seen(text), i);
    PositionInLines(text[..Seen(text)], i);
  }

  /** The end of what the loop looks at is the end of its last line. */
  lemma {:induction false} EndPosition(text: string)
    ensures var lines := Lines(text); PositionOf(text, |text|) == (|lines|, |lines[|lines|-1]|)
  {
    PositionInLines(text, |text|);
    LineBreak(text[|text|..]);
  }

  /** The position of an offset converts to its line and its column plus one exactly when the offset
      lies in what the loop looks at and the column is not the largest int32: for a text that int32
      can count, at every offset but the end of a single line of 2^31-1 code points. */
  lemma {:induction false} ConvertsIff(text: string, i: nat)
    requires i <= |text| && Fits(PositionOf(text, i))
    ensures var p := PositionOf(text, i); ConvertedAt(text, i) == (p.0, p.1 + 1) <==> i <= Seen(text) && p.1 < MAX_INT32
  {
    var n := Seen(text);
    if i <= n {
      PositionConverts(text, i);
    } else {
      PositionInPrefix(text, n, n);
      EndPosition(text[..n]);
      PositionsIncrease(text, n, i);
    }
  }

  /** There, the offset can be computed from the converted position, and later offsets convert to
      later positions, again but for that end. */
  lemma {:induction false} OffsetRecovered(text: string, i: nat, j: nat)
    requires i <= Seen(text) && j <= Seen(text) && Fits(PositionOf(text, i)) && Fits(PositionOf(text, j))
    ensures var lines, c, d := Lines(text[..Seen(text)]), ConvertedAt(text, i), ConvertedAt(text, j);
            && 1 <= c.0 <= |lines| && i == StartOf(lines, c.0 - 1) + Minus1(c.1)
            && (i < j ==> (Before(c, d) <==> PositionOf(text, j).1 < MAX_INT32))
            && (i == j ==> !Before(c, d))
  {
    PositionConverts(text, i);
    PositionConverts(text, j);
    if i < j { PositionsIncrease(text, i, j); }
  }

  /** Which answers are the position asked for: those for a column the line has, below the largest. */
  lemma {:induction false} ExactIff(a: Position, text: string)
    requires a.line >= 1
    ensures Converted(a, text) == (a.line, a.column + 1) <==>
            if a.line <= |Lines(text)| then 0 <= a.column <= |Lines(text)[a.line-1]| && a.column < MAX_INT32 else false
  {
  }

  /** For a line past the text the column is 1, even where the last line is longer: not the end. */
  lemma {:induction false} PastTheEnd(a: Position, text: string)
    requires a.line > |Lines(text)|
    ensures Converted(a, text) == PositionOfEnd(text) <==> text == "" || text[|text|-1] == '\n'
  {
    PositionInLines(text, |text|);
    assert Lines(text[|text|..]) == [""];
    if text != "" {
      assert PositionOf(text, |text|).1 == 0 <==> text[|text|-1] == '\n';
    }
  }

  /** One-based line and column of the end of the text. */
  function PositionOfEnd(text: string): (int, int) {
    var p := PositionOf(text, |text|);
    (p.0, p.1 + 1)
  }
}
