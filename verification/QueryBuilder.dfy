/** The query builder of backend/common/qb/qb.go, on tokens: fragments of SQL text with
    placeholders, nested queries spliced in textually, placeholders numbered at the end. */
module QueryBuilder {
  import opened Results
  import opened SqlText
  import opened Strings

  datatype QueryPart = QueryPart(text: seq<Tok>, params: seq<Value>, failed: bool)

  /** A parameter of a part: a value, or a query whose text replaces the placeholder. */
  datatype Param = Val(v: Value) | Nested(parts: seq<QueryPart>)

  function RawText(parts: seq<QueryPart>): seq<Tok> {
    if parts == [] then [] else RawText(parts[..|parts|-1]) + parts[|parts|-1].text
  }

  function RawParams(parts: seq<QueryPart>): seq<Value> {
    if parts == [] then [] else RawParams(parts[..|parts|-1]) + parts[|parts|-1].params
  }

  predicate Failed(parts: seq<QueryPart>) { exists p :: p in parts && p.failed }

  /** makePart: each parameter in turn takes the first placeholder left. */
  function MakePart(text: seq<Tok>, params: seq<Param>): QueryPart
    decreases |text| + |params|
  {
    if text == [] then
      if params == [] then QueryPart([], [], false)
      else
        var rest := MakePart([], params[1..]);
        match params[0]
        case Val(v) => QueryPart([], [v] + rest.params, rest.failed)
        case Nested(q) =>
          if Failed(q) then QueryPart([], rest.params, true)
          else QueryPart([], RawParams(q) + rest.params, rest.failed)
    else if text[0] != Hole then
      var rest := MakePart(text[1..], params);
      QueryPart([text[0]] + rest.text, rest.params, rest.failed)
    else if params == [] then QueryPart(text, [], true)
    else
      match params[0]
      case Val(v) =>
        var rest := MakePart(text[1..], params[1..]);
        QueryPart([Hole] + rest.text, [v] + rest.params, rest.failed)
      case Nested(q) =>
        if Failed(q) then
          var rest := MakePart(text, params[1..]);
          QueryPart(rest.text, rest.params, true)
        else
          var rest := MakePart(text[1..], params[1..]);
          QueryPart(RawText(q) + rest.text, RawParams(q) + rest.params, rest.failed)
  }

  function Joined(parts: seq<QueryPart>, sep: seq<Tok>, text: seq<Tok>, params: seq<Param>): seq<QueryPart> {
    parts + [MakePart(if |parts| > 0 then sep + text else text, params)]
  }

  class Query {
    var parts: seq<QueryPart>

    constructor ()
      ensures parts == []
    {
      parts := [];
    }

    method Join(sep: seq<Tok>, text: seq<Tok>, params: seq<Param>)
      modifies this
      ensures parts == Joined(old(parts), sep, text, params)
    {
      var text' := text;
      if |parts| > 0 { text' := sep + text; }
      parts := parts + [MakePart(text', params)];
    }

    method Space(text: seq<Tok>, params: seq<Param>)
      modifies this
      ensures parts == Joined(old(parts), [], text, params)
    {
      Join([], text, params);
    }

    method And(text: seq<Tok>, params: seq<Param>)
      modifies this
      ensures parts == Joined(old(parts), [AndT], text, params)
    {
      Join([AndT], text, params);
    }

    method Or(text: seq<Tok>, params: seq<Param>)
      modifies this
      ensures parts == Joined(old(parts), [OrT], text, params)
    {
      Join([OrT], text, params);
    }
  }

  /** A query made by a single `Space`. */
  function Single(text: seq<Tok>, params: seq<Param>): seq<QueryPart> { [MakePart(text, params)] }

  // ---------------------------------------------------------------- final text

  function HoleCount(ts: seq<Tok>): nat {
    if ts == [] then 0 else (if ts[0] == Hole then 1 else 0) + HoleCount(ts[1..])
  }

  function NumberHoles(ts: seq<Tok>, k: nat): seq<Tok> {
    if ts == [] then []
    else if ts[0] == Hole then [Dollar(k + 1)] + NumberHoles(ts[1..], k + 1)
    else [ts[0]] + NumberHoles(ts[1..], k)
  }

  function ToSQL(parts: seq<QueryPart>): Result<(seq<Tok>, seq<Value>)> {
    if Failed(parts) || HoleCount(RawText(parts)) != |RawParams(parts)| then Error
    else Ok((NumberHoles(RawText(parts), 0), RawParams(parts)))
  }

  lemma {:induction false} NumberConcat(a: seq<Tok>, b: seq<Tok>, k: nat)
    ensures NumberHoles(a + b, k) == NumberHoles(a, k) + NumberHoles(b, k + HoleCount(a))
    ensures HoleCount(a + b) == HoleCount(a) + HoleCount(b)
  {
    if a == [] {
      assert a + b == b;
    } else {
      NumberConcat(a[1..], b, if a[0] == Hole then k + 1 else k);
      NumberConcatStep(a, a[0], a[1..], b, k);
    }
  }

  lemma {:induction false} NumberConcatStep(a: seq<Tok>, t: Tok, rest: seq<Tok>, b: seq<Tok>, k: nat)
    requires a == [t] + rest
    requires var k' := if t == Hole then k + 1 else k;
             NumberHoles(rest + b, k') == NumberHoles(rest, k') + NumberHoles(b, k' + HoleCount(rest))
    requires HoleCount(rest + b) == HoleCount(rest) + HoleCount(b)
    ensures NumberHoles(a + b, k) == NumberHoles(a, k) + NumberHoles(b, k + HoleCount(a))
    ensures HoleCount(a + b) == HoleCount(a) + HoleCount(b)
  {
    var k' := if t == Hole then k + 1 else k;
    NumberHead(t, rest + b, k);
    NumberHead(t, rest, k);
    HeadAssociates(t, rest, b);
    HeadAssociates(if t == Hole then Dollar(k + 1) else t, NumberHoles(rest, k'), NumberHoles(b, k' + HoleCount(rest)));
  }

  lemma {:induction false} HeadAssociates(t: Tok, a: seq<Tok>, b: seq<Tok>)
    ensures ([t] + a) + b == [t] + (a + b)
  {
  }

  lemma {:induction false} NumberHead(t: Tok, ts: seq<Tok>, k: nat)
    ensures NumberHoles([t] + ts, k) == [if t == Hole then Dollar(k + 1) else t] + NumberHoles(ts, if t == Hole then k + 1 else k)
    ensures HoleCount([t] + ts) == (if t == Hole then 1 else 0) + HoleCount(ts)
  {
    assert ([t] + ts)[1..] == ts;
  }

  /** The n-th placeholder is `$n`, and nothing else changes. */
  lemma {:induction false} NumberHolesAt(ts: seq<Tok>, k: nat, i: nat)
    requires i < |ts|
    ensures |NumberHoles(ts, k)| == |ts|
    ensures NumberHoles(ts, k)[i] == if ts[i] == Hole then Dollar(k + HoleCount(ts[..i]) + 1) else ts[i]
    decreases |ts|
  {
    var k' := if ts[0] == Hole then k + 1 else k;
    if |ts| > 1 { NumberHolesAt(ts[1..], k', if i > 0 then i - 1 else 0); }
    if i > 0 { assert ts[..i][1..] == ts[1..][..i-1]; }
  }

  /** A text with values becomes SQL exactly when it has one placeholder for each value. */
  lemma {:induction false} ToSQLIff(text: seq<Tok>, values: seq<Value>)
    ensures ToSQL(Single(text, Vals(values))).Ok? <==> HoleCount(text) == |values|
  {
    PartOfValues(text, values);
    SingleRaw(text, Vals(values));
  }

  lemma {:induction false} PartOfValues(text: seq<Tok>, values: seq<Value>)
    ensures var p := MakePart(text, Vals(values));
            && (p.failed <==> HoleCount(text) > |values|)
            && (!p.failed ==> p.text == text && p.params == values)
    decreases |text| + |values|
  {
    if text == [] {
      if values != [] {
        PartOfValues(text, values[1..]);
        assert Vals(values)[1..] == Vals(values[1..]) && [values[0]] + values[1..] == values;
      }
    } else if text[0] != Hole {
      PartOfValues(text[1..], values);
      assert [text[0]] + text[1..] == text;
    } else if values != [] {
      PartOfValues(text[1..], values[1..]);
      assert Vals(values)[1..] == Vals(values[1..]);
      assert [Hole] + text[1..] == text && [values[0]] + values[1..] == values;
    }
  }

  // ---------------------------------------------------------------- queries that render a layout

  /** The words with `?` for each argument. */
  function WriteHoles(words: seq<Word>): seq<Tok> {
    if words == [] then []
    else [if words[0].Arg? then Hole else Frag(words[0].s)] + WriteHoles(words[1..])
  }

  function WithHoles(l: Layout): seq<Tok> {
    match l
    case Plain(words) => WriteHoles(words)
    case Group(b) => [LPar] + WithHoles(b) + [RPar]
    case Negated(b) => [NotT] + WithHoles(b)
    case Both(x, y) => WithHoles(x) + [AndT] + WithHoles(y)
    case Either(x, y) => WithHoles(x) + [OrT] + WithHoles(y)
  }

  lemma {:induction false} NumberWords(words: seq<Word>, k: nat)
    ensures NumberHoles(WriteHoles(words), k) == Write(words, k) && HoleCount(WriteHoles(words)) == |WordArgs(words)|
  {
    if words != [] {
      assert WriteHoles(words)[1..] == WriteHoles(words[1..]);
      NumberWords(words[1..], if words[0].Arg? then k + 1 else k);
    }
  }

  lemma {:induction false} NumberAround(t: Tok, ts: seq<Tok>, k: nat)
    requires t != Hole
    ensures NumberHoles([t] + ts, k) == [t] + NumberHoles(ts, k) && HoleCount([t] + ts) == HoleCount(ts)
  {
    assert ([t] + ts)[1..] == ts;
  }

  /** Numbering the placeholders of a layout's text gives the layout's numbered text. */
  lemma {:induction false} NumberLayout(l: Layout, k: nat)
    ensures NumberHoles(WithHoles(l), k) == Numbered(l, k) && HoleCount(WithHoles(l)) == |Args(l)|
  {
    match l
    case Plain(words) => NumberWords(words, k);
    case Group(b) =>
      NumberLayout(b, k);
      NumberGroup(WithHoles(b), k);
    case Negated(b) =>
      NumberLayout(b, k);
      NumberAround(NotT, WithHoles(b), k);
    case Both(x, y) =>
      NumberLayout(x, k);
      NumberLayout(y, k + |Args(x)|);
      NumberBoth(l, x, AndT, y, k);
    case Either(x, y) =>
      NumberLayout(x, k);
      NumberLayout(y, k + |Args(x)|);
      NumberBoth(l, x, OrT, y, k);
  }

  lemma {:induction false} NumberBoth(l: Layout, x: Layout, t: Tok, y: Layout, k: nat)
    requires (l == Both(x, y) && t == AndT) || (l == Either(x, y) && t == OrT)
    requires NumberHoles(WithHoles(x), k) == Numbered(x, k) && HoleCount(WithHoles(x)) == |Args(x)|
    requires NumberHoles(WithHoles(y), k + |Args(x)|) == Numbered(y, k + |Args(x)|) && HoleCount(WithHoles(y)) == |Args(y)|
    ensures NumberHoles(WithHoles(l), k) == Numbered(l, k) && HoleCount(WithHoles(l)) == |Args(l)|
  {
    NumberPair(WithHoles(x), t, WithHoles(y), k);
  }

  lemma {:induction false} NumberGroup(ts: seq<Tok>, k: nat)
    ensures NumberHoles([LPar] + ts + [RPar], k) == [LPar] + NumberHoles(ts, k) + [RPar]
    ensures HoleCount([LPar] + ts + [RPar]) == HoleCount(ts)
  {
    NumberConcat(ts, [RPar], k);
    NumberAround(RPar, [], k + HoleCount(ts));
    NumberAround(LPar, ts + [RPar], k);
    assert [LPar] + ts + [RPar] == [LPar] + (ts + [RPar]) && [RPar] + [] == [RPar];
  }

  lemma {:induction false} NumberPair(x: seq<Tok>, t: Tok, y: seq<Tok>, k: nat)
    requires t != Hole
    ensures NumberHoles(x + [t] + y, k) == NumberHoles(x, k) + [t] + NumberHoles(y, k + HoleCount(x))
    ensures HoleCount(x + [t] + y) == HoleCount(x) + HoleCount(y)
  {
    NumberConcat(x, [t] + y, k);
    NumberAround(t, y, k + HoleCount(x));
    PutBetween(x, t, y);
    PutBetween(NumberHoles(x, k), t, NumberHoles(y, k + HoleCount(x)));
  }

  lemma {:induction false} PutBetween(a: seq<Tok>, t: Tok, b: seq<Tok>)
    ensures a + [t] + b == a + ([t] + b)
  {
  }

  predicate Renders(parts: seq<QueryPart>, l: Layout) {
    !Failed(parts) && RawText(parts) == WithHoles(l) && RawParams(parts) == Args(l)
  }

  /** A query that renders a well-grouped layout becomes SQL that reads as the layout means,
      with its arguments in the order they stand in the layout. */
  lemma {:induction false} RenderedSqlMeans<Row>(parts: seq<QueryPart>, l: Layout, row: Row, sem: Predicates<Row>) returns (q: Sql)
    requires Renders(parts, l) && WellGrouped(l)
    ensures ToSQL(parts) == Ok((Numbered(l, 0), Args(l)))
    ensures ReadOr(Numbered(l, 0)) == Read(q, []) && Eval(q, Args(l), row, sem) == Meaning(l, row, sem)
  {
    NumberLayout(l, 0);
    q := WellGroupedReadsAsMeant(l, row, sem);
  }

  lemma {:induction false} SingleRaw(text: seq<Tok>, params: seq<Param>)
    ensures var p, s := MakePart(text, params), Single(text, params);
            RawText(s) == p.text && RawParams(s) == p.params && (Failed(s) <==> p.failed)
  {
    var s := Single(text, params);
    assert s[..0] == [];
    assert RawText(s) == [] + s[0].text && RawParams(s) == [] + s[0].params;
    assert s[0] in s;
  }

  /** What `MakePart` does with a single nested query. */
  lemma {:induction false} SpliceOne(before: seq<Tok>, after: seq<Tok>, q: seq<QueryPart>)
    requires HoleCount(before) == 0 && HoleCount(after) == 0 && !Failed(q)
    ensures MakePart(before + [Hole] + after, [Nested(q)]) == QueryPart(before + RawText(q) + after, RawParams(q), false)
    decreases |before|
  {
    var text := before + [Hole] + after;
    if before == [] {
      SpliceHead(after, q);
      assert text == [Hole] + after && before + RawText(q) + after == RawText(q) + after;
    } else {
      var t, rest := before[0], before[1..];
      SpliceOne(rest, after, q);
      MakePartHead(t, rest + [Hole] + after, [Nested(q)]);
      AroundHead(t, rest, [Hole], after);
      AroundHead(t, rest, RawText(q), after);
      assert before == [t] + rest;
    }
  }

  lemma {:induction false} AroundHead(t: Tok, a: seq<Tok>, b: seq<Tok>, c: seq<Tok>)
    ensures ([t] + a) + b + c == [t] + (a + b + c)
  {
  }

  lemma {:induction false} MakePartHead(t: Tok, text: seq<Tok>, params: seq<Param>)
    requires t != Hole
    ensures var p := MakePart(text, params); MakePart([t] + text, params) == QueryPart([t] + p.text, p.params, p.failed)
  {
    assert ([t] + text)[1..] == text;
  }

  lemma {:induction false} SpliceHead(after: seq<Tok>, q: seq<QueryPart>)
    requires HoleCount(after) == 0 && !Failed(q)
    ensures MakePart([Hole] + after, [Nested(q)]) == QueryPart(RawText(q) + after, RawParams(q), false)
  {
    assert ([Hole] + after)[1..] == after && [Nested(q)][1..] == [];
    NoHoles(after);
    assert RawParams(q) + [] == RawParams(q);
  }

  lemma {:induction false} NoHoles(text: seq<Tok>)
    requires HoleCount(text) == 0
    ensures MakePart(text, []) == QueryPart(text, [], false)
  {
    if text != [] {
      NoHoles(text[1..]);
      assert [text[0]] + text[1..] == text;
    }
  }

  function Vals(values: seq<Value>): seq<Param> {
    seq(|values|, i requires 0 <= i < |values| => Val(values[i]))
  }

  /** A part whose parameters are values, one for each placeholder, is the text itself. */
  lemma {:induction false} PlainPart(text: seq<Tok>, values: seq<Value>)
    requires HoleCount(text) == |values|
    ensures MakePart(text, Vals(values)) == QueryPart(text, values, false)
  {
    if text == [] {
    } else if text[0] != Hole {
      PlainPart(text[1..], values);
      assert [text[0]] + text[1..] == text;
    } else {
      PlainPart(text[1..], values[1..]);
      assert Vals(values)[1..] == Vals(values[1..]);
      assert [Hole] + text[1..] == text && [values[0]] + values[1..] == values;
    }
  }

  /** Joining adds the separator, unless it is the first part, then the text; and the values. */
  lemma {:induction false} JoinedIs(parts: seq<QueryPart>, sep: seq<Tok>, text: seq<Tok>, values: seq<Value>)
    requires HoleCount(sep) == 0 && HoleCount(text) == |values|
    ensures var j := Joined(parts, sep, text, Vals(values));
            && RawText(j) == RawText(parts) + (if parts == [] then text else sep + text)
            && RawParams(j) == RawParams(parts) + values && (Failed(j) <==> Failed(parts))
  {
    var added := if |parts| > 0 then sep + text else text;
    var j := Joined(parts, sep, text, Vals(values));
    NumberConcat(sep, text, 0);
    PlainPart(added, values);
    assert j[..|parts|] == parts && j[|parts|] == QueryPart(added, values, false);
  }
}
