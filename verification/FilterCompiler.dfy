/** The CEL filter compilers of backend/store/database.go and backend/store/plan.go, with the
    argument scan of backend/store/filter.go: from a parsed CEL expression to a SQL condition. */
module FilterCompiler {
  import opened Options
  import opened SqlText
  import opened QueryBuilder
  import Strings
  import ResourceNames

  // ---------------------------------------------------------------- CEL expressions

  datatype Literal = StrL(s: string) | BoolL(b: bool) | IntL(n: int) | OtherL

  datatype Expr =
    | Ident(name: string)
    | Select(operand: Expr, field: string)
    | Lit(lit: Literal)
    | ListE(elems: seq<Expr>)
    | Call(fn: string, target: Expr, args: seq<Expr>)
    | OtherE  // comprehensions, maps, messages, and the absent target of a global call

  const OR := "_||_"
  const AND := "_&&_"
  const NOT := "!_"
  const EQUALS := "_==_"
  const IN := "@in"
  const CONTAINS := "contains"
  const GREATER_EQUALS := "_>=_"
  const LESS_EQUALS := "_<=_"

  /** A returned query, an error, or a failed type assertion (which panics in Go). */
  datatype Outcome<+T> = Ok(value: T) | Err | Panic
  {
    predicate IsFailure() { !Ok? }
    function PropagateFailure<U>(): Outcome<U> requires !Ok? { if Err? then Err else Panic }
    function Extract(): T requires Ok? { value }
  }

  // ---------------------------------------------------------------- variable and value of a call

  datatype GoValue = Nil | Scalar(lit: Literal) | ListV(lits: seq<Literal>)

  /** The variable an argument names, if any. */
  function NameOf(e: Expr): Option<string> {
    match e
    case Ident(n) => Some(n)
    case Select(operand, field) => if operand.Ident? then Some(operand.name + "." + field) else None
    case _ => None
  }

  function Literals(es: seq<Expr>): seq<Literal> {
    if es == [] then []
    else Literals(es[..|es|-1]) + (if es[|es|-1].Lit? then [es[|es|-1].lit] else [])
  }

  /** The value an argument gives, if any; a list keeps its literals only. */
  function ValueOf(e: Expr): Option<GoValue> {
    match e
    case Lit(l) => Some(Scalar(l))
    case ListE(es) => Some(ListV(Literals(es)))
    case _ => None
  }

  function LastName(args: seq<Expr>): string {
    if args == [] then ""
    else match NameOf(args[|args|-1]) case Some(n) => n case None => LastName(args[..|args|-1])
  }

  function LastValue(args: seq<Expr>): GoValue {
    if args == [] then Nil
    else match ValueOf(args[|args|-1]) case Some(v) => v case None => LastValue(args[..|args|-1])
  }

  method GetVariableAndValueFromExpr(args: seq<Expr>) returns (variable: string, value: GoValue)
    ensures variable == LastName(args) && value == LastValue(args)
  {
    variable, value := "", Nil;
    for i := 0 to |args|
      invariant variable == LastName(args[..i]) && value == LastValue(args[..i])
    {
      var arg := args[i];
      assert args[..i+1][..i] == args[..i];
      match arg
      case Ident(n) => variable := n;
      case Select(operand, field) =>
        if operand.Ident? { variable := operand.name + "." + field; }
      case Lit(l) => value := Scalar(l);
      case ListE(es) =>
        var list := [];
        for j := 0 to |es|
          invariant list == Literals(es[..j])
        {
          assert es[..j+1][..j] == es[..j];
          if es[j].Lit? { list := list + [es[j].lit]; }
        }
        assert es[..|es|] == es;
        value := ListV(list);
      case _ =>
    }
    assert args[..|args|] == args;
  }

  /** The variable is the one named by the last argument that names one; order among the
      operands of a comparison does not matter when only one of them names a variable. */
  lemma {:induction false} LastNameIs(args: seq<Expr>, i: nat)
    requires i < |args| && NameOf(args[i]).Some?
    requires forall j :: i < j < |args| ==> NameOf(args[j]).None?
    ensures LastName(args) == NameOf(args[i]).value
  {
    if i < |args| - 1 { LastNameIs(args[..|args|-1], i); }
  }

  /** And the value is that of the last argument that gives one. */
  lemma {:induction false} LastValueIs(args: seq<Expr>, i: nat)
    requires i < |args| && ValueOf(args[i]).Some?
    requires forall j :: i < j < |args| ==> ValueOf(args[j]).None?
    ensures LastValue(args) == ValueOf(args[i]).value
  {
    if i < |args| - 1 { LastValueIs(args[..|args|-1], i); }
  }

  // ---------------------------------------------------------------- leaf conditions

  /** What the compilers look up outside the expression. */
  datatype Env = Env(workspace: string, engines: set<string>,
                     parseTime: string -> Option<int>, toLower: string -> string)

  /** The states of a resource by name, and whether it is deleted then. */
  const DELETED_OF_STATE: map<string, bool> := map["STATE_UNSPECIFIED" := false, "ACTIVE" := false, "DELETED" := true]

  datatype Dialect = Databases | Plans

  /** The text and arguments handed to `Space` for a leaf. */
  datatype Cond = Cond(text: seq<Tok>, values: seq<Value>)

  /** A two-operand AND written without parentheses. */
  const NO_ENVIRONMENT := [Frag("db.environment IS NULL"), AndT, Frag("instance.environment IS NULL")]
  const NOT_UNASSIGNED := [Frag("db.project != "), Hole, AndT, Frag("db.project != 'default'")]
  /** A two-operand OR written with parentheses. */
  const NO_ROLLOUT := [LPar, Frag("plan.config->>'hasRollout' IS NULL"), OrT,
                       Frag("plan.config->>'hasRollout' = "), Hole, RPar]

  /** The shapes of leaf text, with a value for each placeholder. */
  predicate LeafText(c: Cond) {
    || (|c.text| == 1 && c.text[0].Frag? && c.values == [])
    || (|c.text| == 2 && c.text[0].Frag? && c.text[1] == Hole && |c.values| == 1)
    || (|c.text| == 3 && c.text[0].Frag? && c.text[1] == Hole && c.text[2].Frag? && |c.values| == 1)
    || (c.text == NO_ENVIRONMENT && c.values == [])
    || (c.text == NOT_UNASSIGNED && |c.values| == 1)
    || (c.text == NO_ROLLOUT && |c.values| == 1)
  }

  function Compare(left: string, v: Value): (c: Cond)
    ensures LeafText(c)
  {
    Cond([Frag(left), Hole], [v])
  }

  function Around(left: string, v: Value, right: string): (c: Cond)
    ensures LeafText(c)
  {
    Cond([Frag(left), Hole, Frag(right)], [v])
  }

  function AnyOf(left: string, vs: seq<string>): (c: Cond)
    ensures LeafText(c)
  {
    Around(left + " = ANY(", Strings(vs), ")")
  }

  function Bare(text: string): (c: Cond)
    ensures LeafText(c)
  {
    Cond([Frag(text)], [])
  }

  const ENVIRONMENT := "COALESCE(" + "db" + "." + "environment, " + "instance" + "." + "environment)"
  const ENGINE := "instance" + "." + "metadata->>'engine'"

  const SCHEMA_BEFORE := "EXISTS (SELECT 1 FROM json_array_elements("
  const SCHEMAS := "metadata->'schemas') AS s, "
  const TABLES := "json_array_elements(s->'tables') AS t "
  const NAMED := "WHERE t->>'name'"
  const SCHEMA_AFTER := SCHEMAS + TABLES + NAMED
  const TABLE_NAME := SCHEMA_BEFORE + "ds" + "." + SCHEMA_AFTER

  function SpecExists(kind: string): (c: Cond)
    ensures LeafText(c)
  {
    Bare("EXISTS (SELECT 1 FROM jsonb_array_elements(plan.config->'specs') AS spec WHERE spec->>'" + kind + "' IS NOT NULL)")
  }

  function AsStrings(lits: seq<Literal>): Outcome<seq<string>> {
    if lits == [] then Ok([])
    else if !lits[0].StrL? then Panic
    else
      var rest :- AsStrings(lits[1..]);
      Ok([lits[0].s] + rest)
  }

  function LabelFilter(key: string, value: GoValue): (c: Outcome<Cond>)
    ensures c.Ok? ==> LeafText(c.value)
  {
    var column := "db.metadata->'labels'->>'" + key + "'";
    match value
    case Scalar(StrL(s)) => Ok(Compare(column + " = ", Str(s)))
    case ListV(lits) =>
      if lits == [] then Err
      else
        var ss :- AsStrings(lits);
        Ok(AnyOf(column, ss))
    case _ => Err
  }

  function EngineNames(lits: seq<Literal>, env: Env): Outcome<seq<string>> {
    if lits == [] then Ok([])
    else if !lits[0].StrL? then Panic
    else if lits[0].s !in env.engines then Err
    else
      var rest :- EngineNames(lits[1..], env);
      Ok([lits[0].s] + rest)
  }

  function EngineIn(value: GoValue, env: Env): (c: Outcome<Cond>)
    ensures c.Ok? ==> LeafText(c.value)
  {
    if !value.ListV? || value.lits == [] then Err
    else
      var names :- EngineNames(value.lits, env);
      Ok(AnyOf(ENGINE, names))
  }

  function IdOf(name: string, prefix: string): Outcome<string> {
    match ResourceNames.NameParentTokens(name, [prefix])
    case Ok(tokens) => Ok(tokens[0])
    case Error => Err
  }

  function SqlValue(value: GoValue): Value {
    match value
    case Scalar(StrL(s)) => Str(s)
    case Scalar(BoolL(b)) => Bool(b)
    case Scalar(IntL(n)) => Number(n)
    case Nil => Null
    case _ => Other
  }

  predicate IsString(value: GoValue) { value.Scalar? && value.lit.StrL? }

  function DatabaseEquals(variable: string, value: GoValue, env: Env): (c: Outcome<Cond>)
    ensures c.Ok? ==> LeafText(c.value)
  {
    if variable == "project" then
      if !IsString(value) then Panic
      else
        var id :- IdOf(value.lit.s, ResourceNames.PROJECT_NAME_PREFIX);
        Ok(Compare("db.project = ", Str(id)))
    else if variable == "instance" then
      if !IsString(value) then Panic
      else
        var id :- IdOf(value.lit.s, ResourceNames.INSTANCE_NAME_PREFIX);
        Ok(Compare("db.instance = ", Str(id)))
    else if variable == "environment" then
      if !IsString(value) then Err
      else if value.lit.s == "" then Ok(Cond(NO_ENVIRONMENT, []))
      else
        var id :- IdOf(value.lit.s, ResourceNames.ENVIRONMENT_NAME_PREFIX);
        Ok(Compare(ENVIRONMENT + " = ", Str(id)))
    else if variable == "engine" then
      if !IsString(value) then Panic
      else if value.lit.s !in env.engines then Err
      else Ok(Compare(ENGINE + " = ", Str(value.lit.s)))
    else if variable == "name" then Ok(Compare("db.name = ", SqlValue(value)))
    else if variable == "exclude_unassigned" then
      if value == Scalar(BoolL(true)) then Ok(Cond(NOT_UNASSIGNED, [Str("default-" + env.workspace)]))
      else Ok(Bare("TRUE"))
    else if variable == "table" then
      if !IsString(value) then Panic
      else Ok(Around(TABLE_NAME + " = ", Str(value.lit.s), ")"))
    else if "labels." <= variable then LabelFilter(variable[7..], value)
    else Err
  }

  /** Whether the state named is deleted, if there is one of that name or of what follows `STATE_`. */
  function DeletedOf(s: string): Option<bool> {
    var t := Strings.TrimPrefix(s, "STATE_");
    if s in DELETED_OF_STATE then Some(DELETED_OF_STATE[s])
    else if t in DELETED_OF_STATE then Some(DELETED_OF_STATE[t])
    else None
  }

  function PlanEquals(variable: string, value: GoValue, env: Env): (c: Outcome<Cond>)
    ensures c.Ok? ==> LeafText(c.value)
  {
    if variable == "creator" then
      if !IsString(value) then Panic
      else
        var email := Strings.TrimPrefix(value.lit.s, "users/");
        if email == "" then Err else Ok(Compare("plan.creator = ", Str(email)))
    else if variable == "has_rollout" then
      if !(value.Scalar? && value.lit.BoolL?) then Err
      else if !value.lit.b then Ok(Cond(NO_ROLLOUT, [Str("false")]))
      else Ok(Compare("plan.config->>'hasRollout' = ", Str("true")))
    else if variable == "has_issue" then
      if !(value.Scalar? && value.lit.BoolL?) then Err
      else if !value.lit.b then Ok(Bare("issue.id IS NULL")) else Ok(Bare("issue.id IS NOT NULL"))
    else if variable == "title" then Ok(Compare("plan.name = ", SqlValue(value)))
    else if variable == "spec_type" then
      if !IsString(value) then Err
      else if value.lit.s == "create_database_config" then Ok(SpecExists("createDatabaseConfig"))
      else if value.lit.s == "change_database_config" then Ok(SpecExists("changeDatabaseConfig"))
      else if value.lit.s == "export_data_config" then Ok(SpecExists("exportDataConfig"))
      else Err
    else if variable == "state" then
      if !IsString(value) then Err
      else
        match DeletedOf(value.lit.s)
        case None => Err
        case Some(deleted) => Ok(Compare("plan.deleted = ", Bool(deleted)))
    else Err
  }

  function TargetName(target: Expr): string { if target.Ident? then target.name else "" }

  function ContainsLeaf(d: Dialect, target: Expr, args: seq<Expr>, env: Env): (c: Outcome<Cond>)
    ensures c.Ok? ==> LeafText(c.value)
  {
    if |args| != 1 then Err
    else if !args[0].Lit? then Panic
    else if !args[0].lit.StrL? then Err
    else
      var pattern := Str("%" + env.toLower(args[0].lit.s) + "%");
      match (d, TargetName(target))
      case (Databases, "name") => Ok(Compare("LOWER(db.name) LIKE ", pattern))
      case (Databases, "table") => Ok(Around(TABLE_NAME + " LIKE ", pattern, ")"))
      case (Plans, "title") => Ok(Compare("LOWER(plan.name) LIKE ", pattern))
      case _ => Err
  }

  function PlanTime(fn: string, variable: string, value: GoValue, env: Env): (c: Outcome<Cond>)
    ensures c.Ok? ==> LeafText(c.value)
  {
    if !IsString(value) || variable != "create_time" then Err
    else
      match env.parseTime(value.lit.s)
      case None => Err
      case Some(t) => Ok(Compare(if fn == GREATER_EQUALS then "plan.created_at >= " else "plan.created_at <= ", Time(t)))
  }

  /** The condition for an expression that is not one of the dialect's connectives. */
  function Leaf(d: Dialect, e: Expr, env: Env): (c: Outcome<Cond>)
    ensures c.Ok? ==> LeafText(c.value)
  {
    if !e.Call? then Err
    else
      var variable, value := LastName(e.args), LastValue(e.args);
      if e.fn == EQUALS then
        if d.Databases? then DatabaseEquals(variable, value, env) else PlanEquals(variable, value, env)
      else if e.fn == CONTAINS then ContainsLeaf(d, e.target, e.args, env)
      else if d.Databases? && e.fn == IN then
        if variable == "engine" then EngineIn(value, env)
        else if "labels." <= variable then LabelFilter(variable[7..], value)
        else Err
      else if d.Plans? && (e.fn == GREATER_EQUALS || e.fn == LESS_EQUALS) then PlanTime(e.fn, variable, value, env)
      else Err
  }

  // ---------------------------------------------------------------- the compiler

  predicate IsOr(d: Dialect, e: Expr) { d.Databases? && e.Call? && e.fn == OR }
  predicate IsAnd(e: Expr) { e.Call? && e.fn == AND }
  predicate IsNot(d: Dialect, e: Expr) { d.Databases? && e.Call? && e.fn == NOT }

  /** `q.Or("?", qq)` or `q.And("?", qq)` for each compiled operand in turn. */
  function JoinAll(sep: Tok, parts: seq<QueryPart>, operands: seq<seq<QueryPart>>): seq<QueryPart>
    decreases |operands|
  {
    if operands == [] then parts
    else JoinAll(sep, Joined(parts, [sep], [Hole], [Nested(operands[0])]), operands[1..])
  }

  function Compile(d: Dialect, e: Expr, env: Env): Outcome<seq<QueryPart>>
    decreases e, 1
  {
    if IsOr(d, e) then
      var qs :- CompileAll(d, e.args, env);
      Ok(Single([LPar, Hole, RPar], [Nested(JoinAll(OrT, [], qs))]))
    else if IsAnd(e) then
      var qs :- CompileAll(d, e.args, env);
      Ok(Single([LPar, Hole, RPar], [Nested(JoinAll(AndT, [], qs))]))
    else if IsNot(d, e) then
      if |e.args| != 1 then Err
      else
        var q :- Compile(d, e.args[0], env);
        Ok(Single([LPar, NotT, LPar, Hole, RPar, RPar], [Nested(q)]))
    else
      var c :- Leaf(d, e, env);
      Ok(Single(c.text, Vals(c.values)))
  }

  function CompileAll(d: Dialect, es: seq<Expr>, env: Env): (r: Outcome<seq<seq<QueryPart>>>)
    ensures r.Ok? ==> |r.value| == |es|
    decreases es, 0
  {
    if es == [] then Ok([])
    else
      var q :- Compile(d, es[0], env);
      var rest :- CompileAll(d, es[1..], env);
      Ok([q] + rest)
  }

  /** What the filter functions return: the compiled condition in parentheses. */
  function Parenthesized(q: seq<QueryPart>): seq<QueryPart> { Single([LPar, Hole, RPar], [Nested(q)]) }

  /** The recursion as the source runs it: a fresh builder, one joined operand at a time. */
  method GetFilter(d: Dialect, e: Expr, env: Env) returns (r: Outcome<Query>)
    ensures r.Ok? <==> Compile(d, e, env).Ok?
    ensures r.Err? <==> Compile(d, e, env).Err?
    ensures r.Ok? ==> fresh(r.value) && r.value.parts == Compile(d, e, env).value
    decreases e, 1
  {
    if IsOr(d, e) || IsAnd(e) {
      var joined := JoinOperands(d, if IsOr(d, e) then OrT else AndT, e.args, env);
      if !joined.Ok? { return joined; }
      var out := new Query();
      out.Space([LPar, Hole, RPar], [Nested(joined.value.parts)]);
      return Ok(out);
    }
    var q := new Query();
    if IsNot(d, e) {
      if |e.args| != 1 { return Err; }
      var qq := GetFilter(d, e.args[0], env);
      if !qq.Ok? { return qq; }
      q.Space([LPar, NotT, LPar, Hole, RPar, RPar], [Nested(qq.value.parts)]);
      return Ok(q);
    }
    var c := Leaf(d, e, env);
    if c.Err? { return Err; }
    if c.Panic? { return Panic; }
    q.Space(c.value.text, Vals(c.value.values));
    return Ok(q);
  }

  /** Its loop over the operands of a connective. */
  method JoinOperands(d: Dialect, sep: Tok, args: seq<Expr>, env: Env) returns (r: Outcome<Query>)
    requires sep == OrT || sep == AndT
    ensures r.Ok? <==> CompileAll(d, args, env).Ok?
    ensures r.Err? <==> CompileAll(d, args, env).Err?
    ensures r.Ok? ==> fresh(r.value) && r.value.parts == JoinAll(sep, [], CompileAll(d, args, env).value)
    decreases args, 0
  {
    var q := new Query();
    for i := 0 to |args|
      invariant fresh(q)
      invariant forall qs :: CompileAll(d, args[i..], env) == Ok(qs) ==>
                  CompileAll(d, args, env).Ok? &&
                  JoinAll(sep, q.parts, qs) == JoinAll(sep, [], CompileAll(d, args, env).value)
      invariant CompileAll(d, args[i..], env).Err? ==> CompileAll(d, args, env).Err?
      invariant CompileAll(d, args[i..], env).Panic? ==> CompileAll(d, args, env).Panic?
    {
      assert args[i..][1..] == args[i+1..];
      var qq := GetFilter(d, args[i], env);
      if !qq.Ok? { return qq; }
      if sep == OrT {
        q.Or([Hole], [Nested(qq.value.parts)]);
      } else {
        q.And([Hole], [Nested(qq.value.parts)]);
      }
    }
    assert CompileAll(d, args[|args|..], env) == Ok([]);
    return Ok(q);
  }

  // ---------------------------------------------------------------- what a filter means

  /** A leaf means what its own text means, read alone. */
  ghost function OwnMeaning<Row>(c: Cond, row: Row, sem: Predicates<Row>): Tri {
    match ReadOr(NumberHoles(c.text, 0))
    case Read(q, rest) => Eval(q, c.values, row, sem)
    case Fail => Unknown
  }

  /** CEL's connectives over the leaf conditions. */
  ghost function CelMeaning<Row>(d: Dialect, e: Expr, env: Env, row: Row, sem: Predicates<Row>): Tri
    decreases e, 1
  {
    if IsOr(d, e) || IsAnd(e) then CelMeaningAll(d, IsOr(d, e), e.args, env, row, sem)
    else if IsNot(d, e) && |e.args| == 1 then Not3(CelMeaning(d, e.args[0], env, row, sem))
    else
      match Leaf(d, e, env)
      case Ok(c) => OwnMeaning(c, row, sem)
      case _ => Unknown
  }

  ghost function CelMeaningAll<Row>(d: Dialect, isOr: bool, es: seq<Expr>, env: Env, row: Row, sem: Predicates<Row>): Tri
    decreases es, 0
  {
    if es == [] then (if isOr then False else True)
    else
      var m, rest := CelMeaning(d, es[0], env, row, sem), CelMeaningAll(d, isOr, es[1..], env, row, sem);
      if isOr then Or3(m, rest) else And3(m, rest)
  }

  /** The arguments of the leaves, left to right. */
  ghost function LeafArgs(d: Dialect, e: Expr, env: Env): seq<Value>
    decreases e, 1
  {
    if IsOr(d, e) || IsAnd(e) || IsNot(d, e) then LeafArgsAll(d, e.args, env)
    else match Leaf(d, e, env) case Ok(c) => c.values case _ => []
  }

  ghost function LeafArgsAll(d: Dialect, es: seq<Expr>, env: Env): seq<Value>
    decreases es, 0
  {
    if es == [] then [] else LeafArgs(d, es[0], env) + LeafArgsAll(d, es[1..], env)
  }

  /** The CEL parser gives every connective at least one operand. */
  ghost predicate HasOperands(d: Dialect, e: Expr)
    decreases e
  {
    IsOr(d, e) || IsAnd(e) || IsNot(d, e) ==> e.args != [] && forall a :: a in e.args ==> HasOperands(d, a)
  }

  /** What the operators mean, by their names in CEL. */
  lemma {:induction false} CelConnectives<Row>(d: Dialect, t: Expr, a: Expr, b: Expr, env: Env, row: Row, sem: Predicates<Row>)
    ensures CelMeaning(Databases, Call("_||_", t, [a, b]), env, row, sem) ==
            Or3(CelMeaning(Databases, a, env, row, sem), CelMeaning(Databases, b, env, row, sem))
    ensures CelMeaning(d, Call("_&&_", t, [a, b]), env, row, sem) == And3(CelMeaning(d, a, env, row, sem), CelMeaning(d, b, env, row, sem))
    ensures CelMeaning(Databases, Call("!_", t, [a]), env, row, sem) == Not3(CelMeaning(Databases, a, env, row, sem))
  {
    TwoOperands(Databases, true, a, b, env, row, sem);
    TwoOperands(d, false, a, b, env, row, sem);
  }

  lemma {:induction false} TwoOperands<Row>(d: Dialect, isOr: bool, a: Expr, b: Expr, env: Env, row: Row, sem: Predicates<Row>)
    ensures var x, y := CelMeaning(d, a, env, row, sem), CelMeaning(d, b, env, row, sem);
            CelMeaningAll(d, isOr, [a, b], env, row, sem) == if isOr then Or3(x, y) else And3(x, y)
  {
    assert [a, b][1..] == [b] && [b][1..] == [];
    assert CelMeaningAll(d, isOr, [b], env, row, sem) == CelMeaning(d, b, env, row, sem);
  }

  /** What each compiler does not take: any other function, anything that is no call, and a negation of
      other than one operand. */
  lemma {:induction false} Unsupported(e: Expr, env: Env)
    ensures !(e.Call? && e.fn in {"_||_", "_&&_", "!_", "_==_", "contains", "@in"}) ==> Compile(Databases, e, env) == Err
    ensures !(e.Call? && e.fn in {"_&&_", "_==_", "contains", "_>=_", "_<=_"}) ==> Compile(Plans, e, env) == Err
    ensures e.Call? && e.fn == "!_" && |e.args| != 1 ==> Compile(Databases, e, env) == Err
  {
  }

  // ---------------------------------------------------------------- the layout a filter renders

  /** The condition, laid out as a leaf writes it. */
  ghost function LeafLayout(c: Cond): Layout
    requires LeafText(c)
  {
    if c.text == NO_ENVIRONMENT then Both(Plain([Text(c.text[0].text)]), Plain([Text(c.text[2].text)]))
    else if c.text == NOT_UNASSIGNED then
      Both(Plain([Text(c.text[0].text), Arg(c.values[0])]), Plain([Text(c.text[3].text)]))
    else if c.text == NO_ROLLOUT then
      Group(Either(Plain([Text(c.text[1].text)]), Plain([Text(c.text[3].text), Arg(c.values[0])])))
    else if |c.text| == 1 then Plain([Text(c.text[0].text)])
    else if |c.text| == 2 then Plain([Text(c.text[0].text), Arg(c.values[0])])
    else Plain([Text(c.text[0].text), Arg(c.values[0]), Text(c.text[2].text)])
  }

  lemma {:induction false} OneWord(a: Word)
    ensures WriteHoles([a]) == [if a.Arg? then Hole else Frag(a.s)] && WordArgs([a]) == if a.Arg? then [a.v] else []
  {
    assert [a][1..] == [];
  }

  lemma {:induction false} TwoWords(a: Word, b: Word)
    ensures WriteHoles([a, b]) == [if a.Arg? then Hole else Frag(a.s), if b.Arg? then Hole else Frag(b.s)]
    ensures WordArgs([a, b]) == (if a.Arg? then [a.v] else []) + (if b.Arg? then [b.v] else [])
  {
    assert [a, b][1..] == [b];
    OneWord(b);
  }

  lemma {:induction false} LeafLayoutIs(c: Cond)
    requires LeafText(c)
    ensures var l := LeafLayout(c); WithHoles(l) == c.text && Args(l) == c.values && WellGrouped(l) && !l.Either?
  {
    if c.text == NO_ENVIRONMENT {
      NoEnvironmentLayoutIs(c);
    } else if c.text == NOT_UNASSIGNED {
      NotUnassignedLayoutIs(c);
    } else if c.text == NO_ROLLOUT {
      NoRolloutLayoutIs(c);
    } else {
      PlainLayoutIs(c);
    }
  }

  lemma {:induction false} NoEnvironmentLayoutIs(c: Cond)
    requires LeafText(c) && c.text == NO_ENVIRONMENT
    ensures var l := LeafLayout(c); WithHoles(l) == c.text && Args(l) == c.values && WellGrouped(l) && !l.Either?
  {
    OneWord(Text(c.text[0].text));
    OneWord(Text(c.text[2].text));
  }

  lemma {:induction false} NotUnassignedLayoutIs(c: Cond)
    requires LeafText(c) && c.text == NOT_UNASSIGNED && c.text != NO_ENVIRONMENT
    ensures var l := LeafLayout(c); WithHoles(l) == c.text && Args(l) == c.values && WellGrouped(l) && !l.Either?
  {
    TwoWords(Text(c.text[0].text), Arg(c.values[0]));
    OneWord(Text(c.text[3].text));
  }

  lemma {:induction false} NoRolloutLayoutIs(c: Cond)
    requires LeafText(c) && c.text == NO_ROLLOUT && c.text != NO_ENVIRONMENT && c.text != NOT_UNASSIGNED
    ensures var l := LeafLayout(c); WithHoles(l) == c.text && Args(l) == c.values && WellGrouped(l) && !l.Either?
  {
    var x, y, v := c.text[1].text, c.text[3].text, c.values[0];
    GroupedOr(x, y, v);
    assert c.text == [LPar, Frag(x), OrT, Frag(y), Hole, RPar] && c.values == [v];
    assert LeafLayout(c) == Group(Either(Plain([Text(x)]), Plain([Text(y), Arg(v)])));
  }

  lemma {:induction false} GroupedOr(x: string, y: string, v: Value)
    ensures var l := Group(Either(Plain([Text(x)]), Plain([Text(y), Arg(v)])));
            WithHoles(l) == [LPar, Frag(x), OrT, Frag(y), Hole, RPar] && Args(l) == [v] && WellGrouped(l)
  {
    OneWord(Text(x));
    TwoWords(Text(y), Arg(v));
    var a, b := Plain([Text(x)]), Plain([Text(y), Arg(v)]);
    assert WithHoles(Either(a, b)) == WithHoles(a) + [OrT] + WithHoles(b) && Args(Either(a, b)) == Args(a) + Args(b);
    assert WellGrouped(a) && WellGrouped(b) && WellGrouped(Either(a, b));
    assert [LPar] + ([Frag(x)] + [OrT] + [Frag(y), Hole]) + [RPar] == [LPar, Frag(x), OrT, Frag(y), Hole, RPar];
  }

  lemma {:induction false} PlainLayoutIs(c: Cond)
    requires LeafText(c) && c.text != NO_ENVIRONMENT && c.text != NOT_UNASSIGNED && c.text != NO_ROLLOUT
    ensures var l := LeafLayout(c); WithHoles(l) == c.text && Args(l) == c.values && WellGrouped(l) && !l.Either?
  {
    if |c.text| == 1 {
      OneWord(Text(c.text[0].text));
    } else if |c.text| == 2 {
      TwoWords(Text(c.text[0].text), Arg(c.values[0]));
    } else {
      var words := [Text(c.text[0].text), Arg(c.values[0]), Text(c.text[2].text)];
      assert words[1..] == [Arg(c.values[0]), Text(c.text[2].text)];
      TwoWords(Arg(c.values[0]), Text(c.text[2].text));
    }
  }

  lemma {:induction false} LeafRenders<Row>(c: Cond, row: Row, sem: Predicates<Row>)
    requires LeafText(c)
    ensures Renders(Single(c.text, Vals(c.values)), LeafLayout(c))
    ensures Meaning(LeafLayout(c), row, sem) == OwnMeaning(c, row, sem)
  {
    var l := LeafLayout(c);
    LeafLayoutIs(c);
    NumberLayout(l, 0);
    PlainPart(c.text, c.values);
    SingleRaw(c.text, Vals(c.values));
    var q := WellGroupedReadsAsMeant(l, row, sem);
  }

  function Pair(sep: Tok, x: Layout, y: Layout): Layout { if sep == OrT then Either(x, y) else Both(x, y) }

  function Chain(sep: Tok, ls: seq<Layout>): Layout
    requires ls != []
  {
    if |ls| == 1 then ls[0] else Pair(sep, ls[0], Chain(sep, ls[1..]))
  }

  ghost predicate RenderAll(qs: seq<seq<QueryPart>>, ls: seq<Layout>) {
    |qs| == |ls| && forall i :: 0 <= i < |qs| ==> Renders(qs[i], ls[i])
  }

  lemma {:induction false} JoinOne(sep: Tok, parts: seq<QueryPart>, q: seq<QueryPart>, l: Layout)
    requires sep != Hole && Renders(q, l) && !Failed(parts)
    ensures var j := Joined(parts, [sep], [Hole], [Nested(q)]);
            && !Failed(j) && j != []
            && RawText(j) == RawText(parts) + (if parts == [] then [] else [sep]) + WithHoles(l)
            && RawParams(j) == RawParams(parts) + Args(l)
  {
    var before := if parts == [] then [] else [sep];
    SpliceOne(before, [], q);
    var j := Joined(parts, [sep], [Hole], [Nested(q)]);
    assert (if |parts| > 0 then [sep] + [Hole] else [Hole]) == before + [Hole] + [];
    assert before + WithHoles(l) + [] == before + WithHoles(l);
    AddedPart(parts, QueryPart(before + WithHoles(l), Args(l), false));
    Assoc(RawText(parts), before, WithHoles(l));
  }

  lemma {:induction false} AddedPart(parts: seq<QueryPart>, p: QueryPart)
    requires !Failed(parts) && !p.failed
    ensures !Failed(parts + [p]) && RawText(parts + [p]) == RawText(parts) + p.text && RawParams(parts + [p]) == RawParams(parts) + p.params
  {
    assert (parts + [p])[..|parts|] == parts;
  }

  /** What joining the remaining operands adds to a non-empty builder. */
  lemma {:induction false} JoinRest(sep: Tok, parts: seq<QueryPart>, qs: seq<seq<QueryPart>>, ls: seq<Layout>)
    requires sep == OrT || sep == AndT
    requires RenderAll(qs, ls) && qs != [] && parts != [] && !Failed(parts)
    ensures var j := JoinAll(sep, parts, qs);
            && !Failed(j) && RawText(j) == RawText(parts) + [sep] + WithHoles(Chain(sep, ls))
            && RawParams(j) == RawParams(parts) + Args(Chain(sep, ls))
    decreases |qs|
  {
    JoinOne(sep, parts, qs[0], ls[0]);
    var p := Joined(parts, [sep], [Hole], [Nested(qs[0])]);
    if |qs| > 1 {
      JoinRest(sep, p, qs[1..], ls[1..]);
      ChainStep(sep, ls);
      Assoc(RawText(parts) + [sep], WithHoles(ls[0]) + [sep], WithHoles(Chain(sep, ls[1..])));
      Assoc(RawText(parts) + [sep], WithHoles(ls[0]), [sep]);
      ArgsAssociate(RawParams(parts), Args(ls[0]), Args(Chain(sep, ls[1..])));
    } else {
      assert qs[1..] == [];
    }
  }

  lemma {:induction false} ArgsAssociate(a: seq<Value>, b: seq<Value>, c: seq<Value>)
    ensures a + b + c == a + (b + c)
  {
  }

  lemma {:induction false} Assoc(a: seq<Tok>, b: seq<Tok>, c: seq<Tok>)
    ensures (a + b) + c == a + (b + c)
  {
  }

  lemma {:induction false} ChainStep(sep: Tok, ls: seq<Layout>)
    requires (sep == OrT || sep == AndT) && |ls| > 1
    ensures WithHoles(Chain(sep, ls)) == WithHoles(ls[0]) + [sep] + WithHoles(Chain(sep, ls[1..]))
    ensures Args(Chain(sep, ls)) == Args(ls[0]) + Args(Chain(sep, ls[1..]))
  {
  }

  lemma {:induction false} JoinRenders(sep: Tok, qs: seq<seq<QueryPart>>, ls: seq<Layout>)
    requires (sep == OrT || sep == AndT) && RenderAll(qs, ls) && qs != []
    ensures Renders(JoinAll(sep, [], qs), Chain(sep, ls))
  {
    JoinOne(sep, [], qs[0], ls[0]);
    var p := Joined([], [sep], [Hole], [Nested(qs[0])]);
    assert RawText(p) == WithHoles(ls[0]) && RawParams(p) == Args(ls[0]);
    if |qs| > 1 {
      JoinRest(sep, p, qs[1..], ls[1..]);
      ChainStep(sep, ls);
      assert JoinAll(sep, [], qs) == JoinAll(sep, p, qs[1..]);
    } else {
      assert qs[1..] == [] && JoinAll(sep, [], qs) == p;
    }
  }

  lemma {:induction false} WrapRenders(q: seq<QueryPart>, l: Layout)
    requires Renders(q, l)
    ensures Renders(Single([LPar, Hole, RPar], [Nested(q)]), Group(l))
  {
    assert [LPar, Hole, RPar] == [LPar] + [Hole] + [RPar];
    assert [LPar][1..] == [] && [RPar][1..] == [];
    SpliceOne([LPar], [RPar], q);
    SingleRaw([LPar, Hole, RPar], [Nested(q)]);
  }

  lemma {:induction false} HoleFree(ts: seq<Tok>)
    requires Hole !in ts
    ensures HoleCount(ts) == 0
  {
    if ts != [] { HoleFree(ts[1..]); }
  }

  lemma {:induction false} NotText(t: seq<Tok>)
    ensures [LPar] + ([NotT] + ([LPar] + t + [RPar])) + [RPar] == [LPar, NotT, LPar] + t + [RPar, RPar]
  {
  }

  lemma {:induction false} NotRenders(q: seq<QueryPart>, l: Layout)
    requires Renders(q, l)
    ensures Renders(Single([LPar, NotT, LPar, Hole, RPar, RPar], [Nested(q)]), Group(Negated(Group(l))))
  {
    var text := [LPar, NotT, LPar, Hole, RPar, RPar];
    var before, after := [LPar, NotT, LPar], [RPar, RPar];
    assert text == before + [Hole] + after;
    HoleFree(before);
    HoleFree(after);
    SpliceOne(before, after, q);
    SingleRaw(text, [Nested(q)]);
    NotText(WithHoles(l));
    assert WithHoles(Negated(Group(l))) == [NotT] + ([LPar] + WithHoles(l) + [RPar]);
    assert Args(Negated(Group(l))) == Args(l);
  }

  /** `l` is a safe layout of what `e` means, and `q` renders it. */
  ghost predicate Faithful<Row>(q: seq<QueryPart>, l: Layout, m: Tri, args: seq<Value>, row: Row, sem: Predicates<Row>) {
    Renders(q, l) && WellGrouped(l) && !l.Either? && Meaning(l, row, sem) == m && Args(l) == args
  }

  lemma {:induction false} CompileIsFaithful<Row>(d: Dialect, e: Expr, env: Env, row: Row, sem: Predicates<Row>)
    returns (l: Layout)
    requires HasOperands(d, e) && Compile(d, e, env).Ok?
    ensures Faithful(Compile(d, e, env).value, l, CelMeaning(d, e, env, row, sem), LeafArgs(d, e, env), row, sem)
    decreases e, 1
  {
    if IsOr(d, e) || IsAnd(e) {
      var sep := if IsOr(d, e) then OrT else AndT;
      var qs := CompileAll(d, e.args, env).value;
      var ls := CompileAllIsFaithful(d, IsOr(d, e), e.args, env, row, sem);
      JoinRenders(sep, qs, ls);
      WrapRenders(JoinAll(sep, [], qs), Chain(sep, ls));
      l := Group(Chain(sep, ls));
    } else if IsNot(d, e) {
      assert e.args[0] in e.args;
      var x := CompileIsFaithful(d, e.args[0], env, row, sem);
      NotRenders(Compile(d, e.args[0], env).value, x);
      assert WellGrouped(Negated(Group(x))) && Args(Negated(Group(x))) == Args(x);
      assert Meaning(Negated(Group(x)), row, sem) == Not3(Meaning(x, row, sem));
      l := Group(Negated(Group(x)));
      assert e.args[1..] == [];
      assert LeafArgsAll(d, e.args, env) == LeafArgs(d, e.args[0], env) + [];
    } else {
      var c := Leaf(d, e, env).value;
      LeafRenders(c, row, sem);
      LeafLayoutIs(c);
      l := LeafLayout(c);
    }
  }

  lemma {:induction false} CompileAllIsFaithful<Row>(d: Dialect, isOr: bool, es: seq<Expr>, env: Env, row: Row, sem: Predicates<Row>)
    returns (ls: seq<Layout>)
    requires es != [] && (forall a :: a in es ==> HasOperands(d, a)) && CompileAll(d, es, env).Ok?
    ensures RenderAll(CompileAll(d, es, env).value, ls)
    ensures var l := Chain(if isOr then OrT else AndT, ls);
            && WellGrouped(l) && (!isOr ==> !l.Either?)
            && Meaning(l, row, sem) == CelMeaningAll(d, isOr, es, env, row, sem) && Args(l) == LeafArgsAll(d, es, env)
    decreases es, 0
  {
    FirstOperand(d, isOr, es, env, row, sem);
    var x := CompileIsFaithful(d, es[0], env, row, sem);
    if |es| == 1 {
      ls := [x];
      assert es[1..] == [];
    } else {
      var rest := CompileAllIsFaithful(d, isOr, es[1..], env, row, sem);
      ls := [x] + rest;
      ChainMeans(if isOr then OrT else AndT, x, rest, row, sem);
      RenderMore(Compile(d, es[0], env).value, x, CompileAll(d, es[1..], env).value, rest);
    }
  }

  /** The first operand and the others. */
  lemma {:induction false} FirstOperand<Row>(d: Dialect, isOr: bool, es: seq<Expr>, env: Env, row: Row, sem: Predicates<Row>)
    requires es != [] && CompileAll(d, es, env).Ok?
    ensures Compile(d, es[0], env).Ok? && CompileAll(d, es[1..], env).Ok?
    ensures CompileAll(d, es, env).value == [Compile(d, es[0], env).value] + CompileAll(d, es[1..], env).value
    ensures var m, rest := CelMeaning(d, es[0], env, row, sem), CelMeaningAll(d, isOr, es[1..], env, row, sem);
            CelMeaningAll(d, isOr, es, env, row, sem) == if isOr then Or3(m, rest) else And3(m, rest)
    ensures LeafArgsAll(d, es, env) == LeafArgs(d, es[0], env) + LeafArgsAll(d, es[1..], env)
  {
  }

  lemma {:induction false} RenderMore(q: seq<QueryPart>, l: Layout, qs: seq<seq<QueryPart>>, ls: seq<Layout>)
    requires Renders(q, l) && RenderAll(qs, ls)
    ensures RenderAll([q] + qs, [l] + ls)
  {
  }

  /** What one more operand in front adds to a chain. */
  lemma {:induction false} ChainMeans<Row>(sep: Tok, x: Layout, rest: seq<Layout>, row: Row, sem: Predicates<Row>)
    requires rest != []
    ensures var l, t := Chain(sep, [x] + rest), Chain(sep, rest);
            && l == Pair(sep, x, t) && Args(l) == Args(x) + Args(t)
            && Meaning(l, row, sem) == (if sep == OrT then Or3(Meaning(x, row, sem), Meaning(t, row, sem))
                                        else And3(Meaning(x, row, sem), Meaning(t, row, sem)))
            && (WellGrouped(x) && WellGrouped(t) && !x.Either? && (sep != OrT ==> !t.Either?) ==> WellGrouped(l))
  {
    assert ([x] + rest)[1..] == rest;
  }

  /** For every filter the compiler accepts, the finished SQL text, read with SQL's precedence
      and with each `$n` bound to the n-th argument, has on every row the three-valued meaning
      of the CEL tree over its leaves; its arguments are those of the leaves, left to right. */
  lemma {:induction false} FilterMeansWhatCelMeans<Row>(d: Dialect, e: Expr, env: Env, row: Row, sem: Predicates<Row>) returns (q: Sql)
    requires HasOperands(d, e) && Compile(d, e, env).Ok?
    ensures var parts := Parenthesized(Compile(d, e, env).value);
            && ToSQL(parts).Ok? && ToSQL(parts).value.1 == LeafArgs(d, e, env)
            && ReadOr(ToSQL(parts).value.0) == Read(q, [])
            && Eval(q, LeafArgs(d, e, env), row, sem) == CelMeaning(d, e, env, row, sem)
  {
    var l := CompileIsFaithful(d, e, env, row, sem);
    WrapRenders(Compile(d, e, env).value, l);
    q := RenderedSqlMeans(Parenthesized(Compile(d, e, env).value), Group(l), row, sem);
  }
}
