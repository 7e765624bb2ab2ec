/** Which tables a database filter names: those of its leaves' texts, wherever the connectives
    put them. */
module FilterScope {
  import opened SqlText
  import opened QueryBuilder
  import opened FilterCompiler
  import opened TableNames
  import Strings

  // ---------------------------------------------------------------- the leaves of a filter

  type Selector = Expr -> bool

  /** Some leaf under the connectives of `e` is selected. */
  ghost predicate SomeLeaf(d: Dialect, e: Expr, which: Selector)
    decreases e, 1
  {
    if IsOr(d, e) || IsAnd(e) || IsNot(d, e) then SomeLeafOf(d, e.args, which) else which(e)
  }

  ghost predicate SomeLeafOf(d: Dialect, es: seq<Expr>, which: Selector)
    decreases es, 0
  {
    es != [] && (SomeLeaf(d, es[0], which) || SomeLeafOf(d, es[1..], which))
  }

  predicate Tests(e: Expr, fn: string, variable: string) { e.Call? && e.fn == fn && LastName(e.args) == variable }

  /** The leaf compares an environment or an engine. */
  predicate ComparesInstance(e: Expr) {
    Tests(e, EQUALS, "environment") || Tests(e, EQUALS, "engine") || Tests(e, IN, "engine")
  }

  predicate ComparesTable(e: Expr) {
    Tests(e, EQUALS, "table") || (e.Call? && e.fn == CONTAINS && TargetName(e.target) == "table")
  }

  predicate ComparesLabel(e: Expr) { e.Call? && (e.fn == EQUALS || e.fn == IN) && "labels." <= LastName(e.args) }

  /** The leaf's own text holds what the listing looks for to join the schema table. */
  predicate MentionsSchema(e: Expr) {
    ComparesTable(e) || (ComparesLabel(e) && Strings.Contains(LastName(e.args)[7..], "ds.metadata"))
  }

  /** CEL identifiers hold no quote. */
  predicate QuoteInName(e: Expr) { e.Call? && '\'' in LastName(e.args) }
  // ---------------------------------------------------------------- checks of fragments

  type Check = string -> bool

  ghost function ScopeCheck(from: set<string>): Check { text => InScope(text, from) }

  ghost predicate AllFrags(ts: seq<Tok>, p: Check) { forall t :: t in ts && t.Frag? ==> p(t.text) }
  // ---------------------------------------------------------------- what a check says of the leaves

  /** A check that passes what is about `db`, passes what is about `instance` if and only if `i`,
      and what is about the schema table if and only if `s`. */
  ghost predicate Judges(p: Check, i: bool, s: bool) {
    && (forall t :: NamesOnly(t, "db") ==> p(t)) && (forall t :: NamesNone(t) ==> p(t))
    && (forall t :: NamesOnly(t, "instance") || NamesBoth(t) ==> p(t) == i)
    && (forall t :: NamesSchema(t) ==> p(t) == s)
  }

  ghost predicate JudgesLabel(p: Check, key: string, b: bool) {
    p(LabelColumn(key) + " = ") == b && p(LabelColumn(key) + " = ANY(") == b
  }

  lemma {:induction false} CompareFrags(left: string, v: Value, p: Check)
    ensures AllFrags(Compare(left, v).text, p) <==> p(left)
  {
    assert Compare(left, v).text[0] == Frag(left);
  }

  lemma {:induction false} AroundFrags(left: string, v: Value, right: string, p: Check)
    ensures AllFrags(Around(left, v, right).text, p) <==> p(left) && p(right)
  {
    assert Around(left, v, right).text[0] == Frag(left) && Around(left, v, right).text[2] == Frag(right);
  }

  lemma {:induction false} BareFrags(text: string, p: Check)
    ensures AllFrags(Bare(text).text, p) <==> p(text)
  {
    assert Bare(text).text[0] == Frag(text);
  }

  lemma {:induction false} LabelFrags(key: string, value: GoValue, p: Check, i: bool, s: bool, b: bool)
    requires LabelFilter(key, value).Ok? && Judges(p, i, s) && JudgesLabel(p, key, b)
    ensures AllFrags(LabelFilter(key, value).value.text, p) <==> b
  {
    if value.Scalar? {
      CompareFrags(LabelColumn(key) + " = ", Str(value.lit.s), p);
    } else {
      var ss := AsStrings(value.lits).value;
      CloseText();
      AroundFrags(LabelColumn(key) + " = ANY(", SqlText.Strings(ss), ")", p);
    }
  }

  lemma {:induction false} EngineFrags(value: GoValue, env: Env, p: Check, i: bool, s: bool)
    requires EngineIn(value, env).Ok? && Judges(p, i, s)
    ensures AllFrags(EngineIn(value, env).value.text, p) <==> i
  {
    var names := EngineNames(value.lits, env).value;
    EngineText(" = ANY(");
    CloseText();
    AroundFrags(ENGINE + " = ANY(", SqlText.Strings(names), ")", p);
  }

  lemma {:induction false} ResourceFrags(variable: string, value: GoValue, env: Env, p: Check, i: bool, s: bool)
    requires DatabaseEquals(variable, value, env).Ok? && Judges(p, i, s)
    requires variable == "project" || variable == "instance" || variable == "name" || variable == "exclude_unassigned"
    ensures AllFrags(DatabaseEquals(variable, value, env).value.text, p)
  {
    var c := DatabaseEquals(variable, value, env).value;
    if variable == "project" {
      ProjectText();
      CompareFrags("db.project = ", c.values[0], p);
    } else if variable == "instance" {
      InstanceText();
      CompareFrags("db.instance = ", c.values[0], p);
    } else if variable == "name" {
      NameText();
      CompareFrags("db.name = ", c.values[0], p);
    } else if value == Scalar(BoolL(true)) {
      NotUnassignedFrags(p, i, s);
    } else {
      DotFreeText("TRUE");
      BareFrags("TRUE", p);
    }
  }

  lemma {:induction false} TwoFrags(x: string, y: string, p: Check)
    ensures AllFrags([Frag(x), AndT, Frag(y)], p) <==> p(x) && p(y)
    ensures AllFrags([Frag(x), Hole, AndT, Frag(y)], p) <==> p(x) && p(y)
  {
    assert [Frag(x), AndT, Frag(y)][0] == Frag(x) && [Frag(x), AndT, Frag(y)][2] == Frag(y);
    assert [Frag(x), Hole, AndT, Frag(y)][0] == Frag(x) && [Frag(x), Hole, AndT, Frag(y)][3] == Frag(y);
  }

  lemma {:induction false} PairFrags(x: string, y: string, table: string, p: Check, i: bool, s: bool)
    requires Judges(p, i, s) && NamesOnly(x, "db") && NamesOnly(y, table) && (table == "db" || table == "instance")
    ensures AllFrags([Frag(x), AndT, Frag(y)], p) <==> (table == "instance" ==> i)
    ensures AllFrags([Frag(x), Hole, AndT, Frag(y)], p) <==> (table == "instance" ==> i)
  {
    TwoFrags(x, y, p);
  }

  lemma {:induction false} NotUnassignedFrags(p: Check, i: bool, s: bool)
    requires Judges(p, i, s)
    ensures AllFrags(NOT_UNASSIGNED, p)
  {
    NotProjectText();
    NotDefaultText();
    PairFrags("db.project != ", "db.project != 'default'", "db", p, i, s);
  }

  lemma {:induction false} NoEnvironmentFrags(p: Check, i: bool, s: bool)
    requires Judges(p, i, s)
    ensures AllFrags(NO_ENVIRONMENT, p) <==> i
  {
    NoEnvironmentText();
    NoInstanceEnvironmentText();
    PairFrags("db.environment IS NULL", "instance.environment IS NULL", "instance", p, i, s);
  }

  /** A label's name is none of the others. */
  lemma {:induction false} LabelIsFiltered(variable: string, value: GoValue, env: Env)
    requires "labels." <= variable
    ensures variable[0] == 'l' && DatabaseEquals(variable, value, env) == LabelFilter(variable[7..], value)
  {
    assert variable[0] == "labels."[0];
  }

  lemma {:induction false} InstanceFrags(variable: string, value: GoValue, env: Env, p: Check, i: bool, s: bool)
    requires DatabaseEquals(variable, value, env).Ok? && Judges(p, i, s)
    requires variable == "environment" || variable == "engine"
    ensures AllFrags(DatabaseEquals(variable, value, env).value.text, p) <==> i
  {
    var c := DatabaseEquals(variable, value, env).value;
    if variable == "engine" {
      EngineText(" = ");
      CompareFrags(ENGINE + " = ", c.values[0], p);
    } else if value.lit.s == "" {
      NoEnvironmentFrags(p, i, s);
    } else {
      EnvironmentText();
      CompareFrags(ENVIRONMENT + " = ", c.values[0], p);
    }
  }

  lemma {:induction false} EqualsFrags(variable: string, value: GoValue, env: Env, p: Check, i: bool, s: bool, b: bool)
    requires DatabaseEquals(variable, value, env).Ok? && Judges(p, i, s)
    requires "labels." <= variable ==> JudgesLabel(p, variable[7..], b)
    ensures AllFrags(DatabaseEquals(variable, value, env).value.text, p) <==>
            (variable == "environment" || variable == "engine" ==> i) && (variable == "table" ==> s) && ("labels." <= variable ==> b)
  {
    if "labels." <= variable {
      LabelIsFiltered(variable, value, env);
      LabelFrags(variable[7..], value, p, i, s, b);
    } else if variable == "environment" || variable == "engine" {
      InstanceFrags(variable, value, env, p, i, s);
    } else if variable == "table" {
      TableText(" = ");
      CloseText();
      AroundFrags(TABLE_NAME + " = ", Str(value.lit.s), ")", p);
    } else {
      ResourceFrags(variable, value, env, p, i, s);
    }
  }

  lemma {:induction false} ContainsFrags(e: Expr, env: Env, p: Check, i: bool, s: bool)
    requires e.Call? && e.fn == CONTAINS && Leaf(Databases, e, env).Ok? && Judges(p, i, s)
    ensures AllFrags(Leaf(Databases, e, env).value.text, p) <==> (TargetName(e.target) == "table" ==> s)
  {
    var pattern := Str("%" + env.toLower(e.args[0].lit.s) + "%");
    if TargetName(e.target) == "table" {
      TableText(" LIKE ");
      CloseText();
      AroundFrags(TABLE_NAME + " LIKE ", pattern, ")", p);
    } else {
      LowerNameText();
      CompareFrags("LOWER(db.name) LIKE ", pattern, p);
    }
  }

  lemma {:induction false} LeafFrags(e: Expr, env: Env, p: Check, i: bool, s: bool, b: bool)
    requires Leaf(Databases, e, env).Ok? && Judges(p, i, s)
    requires ComparesLabel(e) ==> JudgesLabel(p, LastName(e.args)[7..], b)
    ensures AllFrags(Leaf(Databases, e, env).value.text, p) <==>
            (ComparesInstance(e) ==> i) && (ComparesTable(e) ==> s) && (ComparesLabel(e) ==> b)
  {
    var variable, value := LastName(e.args), LastValue(e.args);
    if e.fn == EQUALS {
      EqualsFrags(variable, value, env, p, i, s, b);
    } else if e.fn == CONTAINS {
      ContainsFrags(e, env, p, i, s);
    } else if variable == "engine" {
      EngineFrags(value, env, p, i, s);
    } else {
      LabelFrags(variable[7..], value, p, i, s, b);
    }
  }

  // ---------------------------------------------------------------- every leaf, by both checks

  ghost function SchemaCheck(): Check { text => !Strings.Contains(text, SCHEMA_TEXT) }

  lemma {:induction false} ScopeJudges(from: set<string>)
    requires "db" in from
    ensures Judges(ScopeCheck(from), "instance" in from, "ds" in from)
  {
  }

  lemma {:induction false} SchemaJudges()
    ensures Judges(SchemaCheck(), true, false)
  {
  }

  /** A leaf's text names tables of `from` alone exactly when these include those that the leaf
      compares: `instance` for an environment or an engine, the schema table for a table. */
  lemma {:induction false} LeafInScope(e: Expr, env: Env, from: set<string>)
    requires Leaf(Databases, e, env).Ok? && "db" in from && !QuoteInName(e)
    ensures AllFrags(Leaf(Databases, e, env).value.text, ScopeCheck(from)) <==>
            (ComparesInstance(e) ==> "instance" in from) && (ComparesTable(e) ==> "ds" in from)
  {
    ScopeJudges(from);
    if ComparesLabel(e) { LabelInScope(LastName(e.args), from); }
    LeafFrags(e, env, ScopeCheck(from), "instance" in from, "ds" in from, true);
  }

  lemma {:induction false} LabelInScope(variable: string, from: set<string>)
    requires "labels." <= variable && '\'' !in variable && "db" in from
    ensures JudgesLabel(ScopeCheck(from), variable[7..], true)
  {
    LabelScope(variable[7..], " = ", from);
    LabelScope(variable[7..], " = ANY(", from);
  }

  lemma {:induction false} LeafMentions(e: Expr, env: Env)
    requires Leaf(Databases, e, env).Ok?
    ensures AllFrags(Leaf(Databases, e, env).value.text, SchemaCheck()) <==> !MentionsSchema(e)
  {
    SchemaJudges();
    if ComparesLabel(e) {
      var key := LastName(e.args)[7..];
      LabelMentions(key, " = ");
      LabelMentions(key, " = ANY(");
      LeafFrags(e, env, SchemaCheck(), true, false, !Strings.Contains(key, SCHEMA_TEXT));
    } else {
      LeafFrags(e, env, SchemaCheck(), true, false, true);
    }
  }

  // ---------------------------------------------------------------- whole filters

  lemma {:induction false} ConcatFrags(a: seq<Tok>, b: seq<Tok>, p: Check)
    ensures AllFrags(a + b, p) <==> AllFrags(a, p) && AllFrags(b, p)
  {
    if AllFrags(a + b, p) {
      forall t | t in a && t.Frag? ensures p(t.text) { assert t in a + b; }
      forall t | t in b && t.Frag? ensures p(t.text) { assert t in a + b; }
    }
  }

  /** Numbering the placeholders leaves the fragments. */
  lemma {:induction false} NumberedFrags(ts: seq<Tok>, k: nat, p: Check)
    ensures AllFrags(NumberHoles(ts, k), p) <==> AllFrags(ts, p)
  {
    if ts != [] {
      var first, k' := if ts[0] == Hole then Dollar(k + 1) else ts[0], if ts[0] == Hole then k + 1 else k;
      NumberedFrags(ts[1..], k', p);
      ConcatFrags([first], NumberHoles(ts[1..], k'), p);
      ConcatFrags([ts[0]], ts[1..], p);
      assert ts == [ts[0]] + ts[1..];
    }
  }

  /** The fragments that joining one operand adds are the operand's. */
  lemma {:induction false} JoinOneFrags(sep: Tok, parts: seq<QueryPart>, q: seq<QueryPart>, l: Layout, p: Check)
    requires (sep == OrT || sep == AndT) && Renders(q, l) && !Failed(parts)
    ensures var j := Joined(parts, [sep], [Hole], [Nested(q)]);
            !Failed(j) && (AllFrags(RawText(j), p) <==> AllFrags(RawText(parts), p) && AllFrags(RawText(q), p))
  {
    var between := if parts == [] then [] else [sep];
    JoinOne(sep, parts, q, l);
    ConcatFrags(RawText(parts) + between, WithHoles(l), p);
    ConcatFrags(RawText(parts), between, p);
  }

  ghost predicate AllQueries(qs: seq<seq<QueryPart>>, p: Check) {
    qs == [] || (AllFrags(RawText(qs[0]), p) && AllQueries(qs[1..], p))
  }

  /** The fragments of a joined query are those of its operands. */
  lemma {:induction false} JoinFrags(sep: Tok, parts: seq<QueryPart>, qs: seq<seq<QueryPart>>, ls: seq<Layout>, p: Check)
    requires (sep == OrT || sep == AndT) && RenderAll(qs, ls) && !Failed(parts)
    ensures AllFrags(RawText(JoinAll(sep, parts, qs)), p) <==> AllFrags(RawText(parts), p) && AllQueries(qs, p)
    decreases |qs|
  {
    if qs != [] {
      JoinOneFrags(sep, parts, qs[0], ls[0], p);
      JoinFrags(sep, Joined(parts, [sep], [Hole], [Nested(qs[0])]), qs[1..], ls[1..], p);
    }
  }

  /** A check of leaves, decided by a selector. */
  ghost predicate Decides(which: Selector, bad: Selector, env: Env, p: Check) {
    forall x :: Leaf(Databases, x, env).Ok? && !bad(x) ==> (which(x) <==> !AllFrags(Leaf(Databases, x, env).value.text, p))
  }

  ghost function NoRow(): Predicates<int> { (words, row) => Unknown }

  lemma {:induction false} GroupFrags(ts: seq<Tok>, p: Check)
    ensures AllFrags([LPar] + ts + [RPar], p) <==> AllFrags(ts, p)
  {
    ConcatFrags([LPar] + ts, [RPar], p);
    ConcatFrags([LPar], ts, p);
  }

  lemma {:induction false} WrapFrags(q: seq<QueryPart>, l: Layout, p: Check)
    requires Renders(q, l)
    ensures AllFrags(RawText(Parenthesized(q)), p) <==> AllFrags(RawText(q), p)
  {
    WrapRenders(q, l);
    GroupFrags(WithHoles(l), p);
  }

  lemma {:induction false} NotFrags(q: seq<QueryPart>, l: Layout, p: Check)
    requires Renders(q, l)
    ensures AllFrags(RawText(Single([LPar, NotT, LPar, Hole, RPar, RPar], [Nested(q)])), p) <==> AllFrags(RawText(q), p)
  {
    NotRenders(q, l);
    var body := WithHoles(Group(l));
    GroupFrags(WithHoles(l), p);
    ConcatFrags([NotT], body, p);
    GroupFrags([NotT] + body, p);
    assert WithHoles(Negated(Group(l))) == [NotT] + body;
  }

  lemma {:induction false} LeafTextFrags(e: Expr, env: Env, p: Check)
    requires !IsOr(Databases, e) && !IsAnd(e) && !IsNot(Databases, e) && Compile(Databases, e, env).Ok?
    ensures Leaf(Databases, e, env).Ok?
    ensures AllFrags(RawText(Compile(Databases, e, env).value), p) <==> AllFrags(Leaf(Databases, e, env).value.text, p)
  {
    var c := Leaf(Databases, e, env).value;
    LeafRenders(c, 0, NoRow());
    LeafLayoutIs(c);
  }

  /** All fragments of a compiled filter pass a check exactly when no leaf is one that fails it. */
  lemma {:induction false} CompiledFrags(e: Expr, env: Env, p: Check, which: Selector, bad: Selector)
    requires HasOperands(Databases, e) && Compile(Databases, e, env).Ok?
    requires Decides(which, bad, env, p) && !SomeLeaf(Databases, e, bad)
    ensures AllFrags(RawText(Compile(Databases, e, env).value), p) <==> !SomeLeaf(Databases, e, which)
    decreases e, 1
  {
    if IsOr(Databases, e) || IsAnd(e) {
      OperandFrags(e.args, env, p, which, bad);
      ConnectiveFrags(e, env, p);
    } else if IsNot(Databases, e) {
      NegationFrags(e, env, p);
      NegatedLeaf(Databases, e, which);
      NegatedLeaf(Databases, e, bad);
      CompiledFrags(e.args[0], env, p, which, bad);
    } else {
      LeafTextFrags(e, env, p);
    }
  }

  lemma {:induction false} ConnectiveFrags(e: Expr, env: Env, p: Check)
    requires IsOr(Databases, e) || IsAnd(e)
    requires HasOperands(Databases, e) && Compile(Databases, e, env).Ok?
    ensures AllFrags(RawText(Compile(Databases, e, env).value), p) <==> AllQueries(CompileAll(Databases, e.args, env).value, p)
  {
    var sep := if IsOr(Databases, e) then OrT else AndT;
    var qs := CompileAll(Databases, e.args, env).value;
    var ls := CompileAllIsFaithful(Databases, sep == OrT, e.args, env, 0, NoRow());
    JoinFrags(sep, [], qs, ls, p);
    JoinRenders(sep, qs, ls);
    WrapFrags(JoinAll(sep, [], qs), Chain(sep, ls), p);
  }

  lemma {:induction false} NegationFrags(e: Expr, env: Env, p: Check)
    requires IsNot(Databases, e) && HasOperands(Databases, e) && Compile(Databases, e, env).Ok?
    ensures |e.args| == 1 && HasOperands(Databases, e.args[0]) && Compile(Databases, e.args[0], env).Ok?
    ensures AllFrags(RawText(Compile(Databases, e, env).value), p) <==> AllFrags(RawText(Compile(Databases, e.args[0], env).value), p)
  {
    assert e.args[0] in e.args;
    var x := CompileIsFaithful(Databases, e.args[0], env, 0, NoRow());
    NotFrags(Compile(Databases, e.args[0], env).value, x, p);
  }

  lemma {:induction false} NegatedLeaf(d: Dialect, e: Expr, which: Selector)
    requires IsNot(d, e) && |e.args| == 1
    ensures SomeLeaf(d, e, which) <==> SomeLeaf(d, e.args[0], which)
  {
    assert e.args[1..] == [];
    assert SomeLeafOf(d, e.args, which) <==> SomeLeaf(d, e.args[0], which) || SomeLeafOf(d, e.args[1..], which);
  }

  lemma {:induction false} OperandFrags(es: seq<Expr>, env: Env, p: Check, which: Selector, bad: Selector)
    requires (forall a :: a in es ==> HasOperands(Databases, a)) && CompileAll(Databases, es, env).Ok?
    requires Decides(which, bad, env, p) && !SomeLeafOf(Databases, es, bad)
    ensures AllQueries(CompileAll(Databases, es, env).value, p) <==> !SomeLeafOf(Databases, es, which)
    decreases es, 0
  {
    if es != [] {
      assert es[0] in es;
      FirstOperand(Databases, true, es, env, 0, NoRow());
      CompiledFrags(es[0], env, p, which, bad);
      OperandFrags(es[1..], env, p, which, bad);
    }
  }

  // ---------------------------------------------------------------- scope and schema of a filter

  /** The leaves whose table is missing from `from`. */
  ghost function Missing(from: set<string>): Selector {
    e => (ComparesInstance(e) && "instance" !in from) || (ComparesTable(e) && "ds" !in from)
  }

  lemma {:induction false} SomeMissing(d: Dialect, e: Expr, from: set<string>)
    ensures SomeLeaf(d, e, Missing(from)) <==>
            (SomeLeaf(d, e, ComparesInstance) && "instance" !in from) || (SomeLeaf(d, e, ComparesTable) && "ds" !in from)
    decreases e, 1
  {
    if IsOr(d, e) || IsAnd(e) || IsNot(d, e) { SomeMissingOf(d, e.args, from); }
  }

  lemma {:induction false} SomeMissingOf(d: Dialect, es: seq<Expr>, from: set<string>)
    ensures SomeLeafOf(d, es, Missing(from)) <==>
            (SomeLeafOf(d, es, ComparesInstance) && "instance" !in from) || (SomeLeafOf(d, es, ComparesTable) && "ds" !in from)
    decreases es, 0
  {
    if es != [] {
      SomeMissing(d, es[0], from);
      SomeMissingOf(d, es[1..], from);
    }
  }

  lemma {:induction false} NeverSelected(d: Dialect, e: Expr, which: Selector)
    requires forall x :: !which(x)
    ensures !SomeLeaf(d, e, which)
    decreases e, 1
  {
    if IsOr(d, e) || IsAnd(e) || IsNot(d, e) { NeverSelectedOf(d, e.args, which); }
  }

  lemma {:induction false} NeverSelectedOf(d: Dialect, es: seq<Expr>, which: Selector)
    requires forall x :: !which(x)
    ensures !SomeLeafOf(d, es, which)
    decreases es, 0
  {
    if es != [] {
      NeverSelected(d, es[0], which);
      NeverSelectedOf(d, es[1..], which);
    }
  }

  lemma {:induction false} ParenthesizedFrags(e: Expr, env: Env, p: Check)
    requires HasOperands(Databases, e) && Compile(Databases, e, env).Ok?
    ensures var q := Compile(Databases, e, env).value;
            ToSQL(Parenthesized(q)).Ok? && (AllFrags(ToSQL(Parenthesized(q)).value.0, p) <==> AllFrags(RawText(q), p))
  {
    var q := Compile(Databases, e, env).value;
    var l := CompileIsFaithful(Databases, e, env, 0, NoRow());
    WrapFrags(q, l, p);
    var sql := FilterMeansWhatCelMeans(Databases, e, env, 0, NoRow());
    NumberedFrags(RawText(Parenthesized(q)), 0, p);
  }

  /** The finished text of an accepted database filter names tables of `from` alone exactly when
      these include `instance` if a leaf compares an environment or an engine, and the schema
      table if a leaf compares a table. */
  lemma {:induction false} FilterInScope(e: Expr, env: Env, from: set<string>)
    requires HasOperands(Databases, e) && Compile(Databases, e, env).Ok?
    requires "db" in from && !SomeLeaf(Databases, e, QuoteInName)
    ensures var sql := ToSQL(Parenthesized(Compile(Databases, e, env).value));
            && sql.Ok?
            && (AllFrags(sql.value.0, ScopeCheck(from)) <==>
                (SomeLeaf(Databases, e, ComparesInstance) ==> "instance" in from) && (SomeLeaf(Databases, e, ComparesTable) ==> "ds" in from))
  {
    forall x | Leaf(Databases, x, env).Ok? && !QuoteInName(x)
      ensures Missing(from)(x) <==> !AllFrags(Leaf(Databases, x, env).value.text, ScopeCheck(from))
    {
      LeafInScope(x, env, from);
    }
    assert Decides(Missing(from), QuoteInName, env, ScopeCheck(from));
    CompiledFrags(e, env, ScopeCheck(from), Missing(from), QuoteInName);
    SomeMissing(Databases, e, from);
    ParenthesizedFrags(e, env, ScopeCheck(from));
  }

  /** Its text holds what the listing looks for exactly when a leaf compares a table, or a label
      whose name holds it. */
  lemma {:induction false} FilterMentions(e: Expr, env: Env)
    requires HasOperands(Databases, e) && Compile(Databases, e, env).Ok?
    ensures var sql := ToSQL(Parenthesized(Compile(Databases, e, env).value));
            sql.Ok? && (!AllFrags(sql.value.0, SchemaCheck()) <==> SomeLeaf(Databases, e, MentionsSchema))
  {
    var never: Selector := x => false;
    forall x | Leaf(Databases, x, env).Ok?
      ensures MentionsSchema(x) <==> !AllFrags(Leaf(Databases, x, env).value.text, SchemaCheck())
    {
      LeafMentions(x, env);
    }
    assert Decides(MentionsSchema, never, env, SchemaCheck());
    NeverSelected(Databases, e, never);
    CompiledFrags(e, env, SchemaCheck(), MentionsSchema, never);
    ParenthesizedFrags(e, env, SchemaCheck());
  }
}
