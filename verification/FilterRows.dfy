/** What the comparisons of the database filter say of a database row: backend/store/database.go
    against the resource names and values that a CEL filter compares with. */
module FilterRows {
  import opened Options
  import opened SqlText
  import opened FilterCompiler
  import opened TableNames
  import opened FilterScope
  import Like
  import Strings
  import ResourceNames

  /** The columns that the conditions read, with the labels and the names of the tables; an
      environment may be NULL. */
  datatype Row = Row(project: string, instance: string, name: string, engine: string,
                     environment: Option<string>, instanceEnvironment: Option<string>,
                     labels: map<string, string>, tables: seq<string>)

  /** A database without an environment of its own is in that of its instance. */
  function Effective(r: Row): Option<string> { if r.environment.Some? then r.environment else r.instanceEnvironment }

  function Truth(b: bool): Tri { if b then True else False }

  const PROJECT_IS := "db.project = "
  const PROJECT_IS_NOT := "db.project != "
  const INSTANCE_IS := "db.instance = "
  const NAME_IS := "db.name = "
  const ENGINE_IS := "instance" + "." + "metadata->>'engine'" + " = "
  const ENGINE_AMONG := "instance" + "." + "metadata->>'engine'" + " = ANY("
  const ENVIRONMENT_IS := "COALESCE(" + "db" + "." + "environment, " + "instance" + "." + "environment)" + " = "
  const NAME_LIKE := "LOWER(db.name) LIKE "
  const SOME_TABLE := "EXISTS (SELECT 1 FROM json_array_elements(" + "ds" + "." + ("metadata->'schemas') AS s, " +
                      "json_array_elements(s->'tables') AS t " + "WHERE t->>'name'")

  /** PostgreSQL's reading of a comparison of a column with a value. */
  ghost predicate ReadsColumn(sem: Predicates<Row>, text: string, holds: (Row, string) -> Tri) {
    forall s, r :: sem([Text(text), Arg(Str(s))], r) == holds(r, s)
  }

  ghost predicate ReadsTest(sem: Predicates<Row>, text: string, holds: Row -> Tri) {
    forall r :: sem([Text(text)], r) == holds(r)
  }

  /** PostgreSQL's reading of the predicates that the comparisons are made of: those that name
      the instance table have one only in a query that selects from it. */
  ghost predicate ReadsColumns(sem: Predicates<Row>, from: set<string>) {
    ReadsDatabase(sem) && ("instance" in from ==> ReadsInstance(sem))
  }

  ghost predicate ReadsDatabase(sem: Predicates<Row>) {
    && ReadsColumn(sem, PROJECT_IS, (r: Row, s) => Truth(r.project == s))
    && ReadsColumn(sem, PROJECT_IS_NOT, (r: Row, s) => Truth(r.project != s))
    && ReadsColumn(sem, INSTANCE_IS, (r: Row, s) => Truth(r.instance == s))
    && ReadsColumn(sem, NAME_IS, (r: Row, s) => Truth(r.name == s))
    && ReadsTest(sem, "db.environment IS NULL", (r: Row) => Truth(r.environment.None?))
    && ReadsTest(sem, "db.project != 'default'", (r: Row) => Truth(r.project != "default"))
  }

  ghost predicate ReadsInstance(sem: Predicates<Row>) {
    && ReadsColumn(sem, ENGINE_IS, (r: Row, s) => Truth(r.engine == s))
    && ReadsColumn(sem, ENVIRONMENT_IS, (r: Row, s) => if Effective(r).Some? then Truth(Effective(r).value == s) else Unknown)
    && ReadsTest(sem, "instance.environment IS NULL", (r: Row) => Truth(r.instanceEnvironment.None?))
  }

  /** What `variable == "s"` means: resources are compared by name; an empty environment is no
      environment; a database without one is neither in nor out of a given environment. */
  function Equals(variable: string, s: string, r: Row): Tri {
    if variable == "project" then Truth(s == "projects/" + r.project)
    else if variable == "instance" then Truth(s == "instances/" + r.instance)
    else if variable == "environment" then
      if s == "" then Truth(Effective(r).None?)
      else if Effective(r).None? then Unknown
      else Truth(s == "environments/" + Effective(r).value)
    else if variable == "engine" then Truth(s == r.engine)
    else Truth(s == r.name)
  }

  lemma {:induction false} PlainMeans(text: string, s: string, row: Row, sem: Predicates<Row>, holds: (Row, string) -> Tri)
    requires ReadsColumn(sem, text, holds)
    ensures OwnMeaning(Compare(text, Str(s)), row, sem) == holds(row, s)
  {
    var c := Compare(text, Str(s));
    LeafRenders(c, row, sem);
    assert LeafLayout(c) == Plain([Text(text), Arg(Str(s))]);
  }

  lemma {:induction false} TestMeans(text: string, row: Row, sem: Predicates<Row>, holds: Row -> Tri)
    requires ReadsTest(sem, text, holds) && text != "TRUE"
    ensures Meaning(Plain([Text(text)]), row, sem) == holds(row)
  {
    assert [Text(text)][0] == Text(text);
  }

  /** A name of one kind is the prefix and a slash-free id. */
  lemma {:induction false} IdIs(name: string, prefix: string, id: string)
    requires ResourceNames.IsPrefix(prefix) && Strings.SlashFree(id)
    ensures IdOf(name, prefix).Ok? ==> (IdOf(name, prefix).value == id <==> name == prefix + id)
  {
    if IdOf(name, prefix).Ok? {
      var x := IdOf(name, prefix).value;
      var tokens := ResourceNames.NameParentTokens(name, [prefix]).value;
      ResourceNames.NameParentTokensIff(name, [prefix], tokens);
      assert tokens == [x];
      OneToken(prefix, x);
      assert name == prefix + x;
      assert (prefix + x)[|prefix|..] == x && (prefix + id)[|prefix|..] == id;
    }
  }

  lemma {:induction false} OneToken(prefix: string, x: string)
    requires ResourceNames.IsPrefix(prefix)
    ensures Strings.Path(ResourceNames.Interleave([prefix], [x])) == prefix + x
  {
    var segs := ResourceNames.Interleave([prefix], [x]);
    assert segs[2*0] == ResourceNames.Kind(prefix) && segs[2*0+1] == x;
    assert segs == [ResourceNames.Kind(prefix), x];
    assert [ResourceNames.Kind(prefix), x][1..] == [x];
    assert prefix == ResourceNames.Kind(prefix) + "/";
  }

  predicate OneOf(variable: string) {
    variable == "project" || variable == "instance" || variable == "environment" || variable == "engine" || variable == "name"
  }

  /** The comparison, with its operands in either order. */
  predicate IsEquality(e: Expr, variable: string, lit: Literal) {
    e.Call? && e.fn == "_==_" && (e.args == [Ident(variable), Lit(lit)] || e.args == [Lit(lit), Ident(variable)])
  }

  lemma {:induction false} EqualityLeaf(e: Expr, variable: string, lit: Literal, env: Env)
    requires IsEquality(e, variable, lit)
    ensures Leaf(Databases, e, env) == DatabaseEquals(variable, Scalar(lit), env)
  {
    var args := e.args;
    assert args[..1][..0] == [] && args[..1] == [args[0]];
    assert LastName(args[..1]) == (if args[0].Ident? then variable else "");
    assert LastValue(args[..1]) == (if args[0].Lit? then Scalar(lit) else Nil);
  }

  /** A text is a name of the kind. */
  ghost predicate Named(s: string, prefix: string) { exists id :: Strings.SlashFree(id) && s == prefix + id }

  lemma {:induction false} IdOfAccepts(name: string, prefix: string)
    requires ResourceNames.IsPrefix(prefix)
    ensures IdOf(name, prefix).Ok? <==> Named(name, prefix)
    ensures !IdOf(name, prefix).Panic?
  {
    if IdOf(name, prefix).Ok? {
      var tokens := ResourceNames.NameParentTokens(name, [prefix]).value;
      ResourceNames.NameParentTokensIff(name, [prefix], tokens);
      assert tokens == [tokens[0]];
      OneToken(prefix, tokens[0]);
      assert Strings.SlashFree(tokens[0]) && name == prefix + tokens[0];
    }
    if Named(name, prefix) {
      var id :| Strings.SlashFree(id) && name == prefix + id;
      OneToken(prefix, id);
      ResourceNames.NameParentTokensIff(name, [prefix], [id]);
    }
  }

  /** Which comparisons the compiler takes: a project or an instance is compared by its name, an
      environment by its name or as empty, an engine if it is known, and a name with anything; a value
      that is no string panics but for an environment, which is refused. */
  lemma {:induction false} EqualityAccepted(e: Expr, variable: string, lit: Literal, env: Env)
    requires IsEquality(e, variable, lit) && OneOf(variable)
    ensures Leaf(Databases, e, env).Ok? <==>
            && (variable == "project" ==> lit.StrL? && Named(lit.s, "projects/"))
            && (variable == "instance" ==> lit.StrL? && Named(lit.s, "instances/"))
            && (variable == "environment" ==> lit.StrL? && (lit.s == "" || Named(lit.s, "environments/")))
            && (variable == "engine" ==> lit.StrL? && lit.s in env.engines)
    ensures Leaf(Databases, e, env).Panic? <==> !lit.StrL? && variable != "environment" && variable != "name"
  {
    EqualityLeaf(e, variable, lit, env);
    if lit.StrL? {
      if variable == "project" {
        IdOfAccepts(lit.s, "projects/");
      } else if variable == "instance" {
        IdOfAccepts(lit.s, "instances/");
      } else if variable == "environment" {
        IdOfAccepts(lit.s, "environments/");
      }
    }
  }

  /** The ids of a row are slash-free, as resource ids are. */
  predicate IdsSlashFree(r: Row) {
    && Strings.SlashFree(r.project) && Strings.SlashFree(r.instance)
    && (Effective(r).Some? ==> Strings.SlashFree(Effective(r).value))
  }

  lemma {:induction false} ResourceMeans(variable: string, s: string, env: Env, row: Row, sem: Predicates<Row>)
    requires ReadsDatabase(sem) && IdsSlashFree(row) && (variable == "project" || variable == "instance")
    requires DatabaseEquals(variable, Scalar(StrL(s)), env).Ok?
    ensures OwnMeaning(DatabaseEquals(variable, Scalar(StrL(s)), env).value, row, sem) == Equals(variable, s, row)
  {
    if variable == "project" {
      var id := IdOf(s, "projects/").value;
      IdIs(s, "projects/", row.project);
      PlainMeans(PROJECT_IS, id, row, sem, (r: Row, s) => Truth(r.project == s));
    } else {
      var id := IdOf(s, "instances/").value;
      IdIs(s, "instances/", row.instance);
      PlainMeans(INSTANCE_IS, id, row, sem, (r: Row, s) => Truth(r.instance == s));
    }
  }

  lemma {:induction false} ColumnMeans(variable: string, s: string, env: Env, row: Row, sem: Predicates<Row>)
    requires ReadsDatabase(sem) && (variable == "name" || (variable == "engine" && ReadsInstance(sem)))
    requires DatabaseEquals(variable, Scalar(StrL(s)), env).Ok?
    ensures OwnMeaning(DatabaseEquals(variable, Scalar(StrL(s)), env).value, row, sem) == Equals(variable, s, row)
  {
    if variable == "engine" {
      PlainMeans(ENGINE_IS, s, row, sem, (r: Row, s) => Truth(r.engine == s));
    } else {
      PlainMeans(NAME_IS, s, row, sem, (r: Row, s) => Truth(r.name == s));
    }
  }

  lemma {:induction false} EnvironmentMeans(s: string, env: Env, row: Row, sem: Predicates<Row>)
    requires ReadsDatabase(sem) && ReadsInstance(sem) && IdsSlashFree(row)
    requires DatabaseEquals("environment", Scalar(StrL(s)), env).Ok?
    ensures OwnMeaning(DatabaseEquals("environment", Scalar(StrL(s)), env).value, row, sem) == Equals("environment", s, row)
  {
    if s == "" {
      var c := Cond(NO_ENVIRONMENT, []);
      LeafRenders(c, row, sem);
      assert LeafLayout(c) == Both(Plain([Text("db.environment IS NULL")]), Plain([Text("instance.environment IS NULL")]));
      TestMeans("db.environment IS NULL", row, sem, (r: Row) => Truth(r.environment.None?));
      TestMeans("instance.environment IS NULL", row, sem, (r: Row) => Truth(r.instanceEnvironment.None?));
    } else {
      var id := IdOf(s, "environments/").value;
      if Effective(row).Some? { IdIs(s, "environments/", Effective(row).value); }
      PlainMeans(ENVIRONMENT_IS, id, row, sem, (r: Row, s) => if Effective(r).Some? then Truth(Effective(r).value == s) else Unknown);
    }
  }

  /** For every accepted comparison of a project, an instance, an environment, an engine or a
      name, operands in either order, in a query that selects from `db`: its text is in the
      query's scope exactly when it compares neither environment nor engine, or the query selects
      from `instance` too; and then, on every row, it holds exactly when the row's own resource
      name or value is the one compared with. */
  lemma {:induction false} EqualityMeans(e: Expr, variable: string, s: string, env: Env, from: set<string>, row: Row, sem: Predicates<Row>)
    requires "db" in from && ReadsColumns(sem, from) && IdsSlashFree(row) && OneOf(variable)
    requires IsEquality(e, variable, StrL(s)) && Leaf(Databases, e, env).Ok?
    ensures var c := Leaf(Databases, e, env).value;
            && (AllFrags(c.text, ScopeCheck(from)) <==> (variable == "environment" || variable == "engine" ==> "instance" in from))
            && (AllFrags(c.text, ScopeCheck(from)) ==> OwnMeaning(c, row, sem) == Equals(variable, s, row))
  {
    EqualityLeaf(e, variable, StrL(s), env);
    EqualityInScope(e, variable, s, env, from);
    if variable == "project" || variable == "instance" {
      ResourceMeans(variable, s, env, row, sem);
    } else if variable == "name" || (variable == "engine" && "instance" in from) {
      ColumnMeans(variable, s, env, row, sem);
    } else if "instance" in from {
      EnvironmentMeans(s, env, row, sem);
    }
  }

  lemma {:induction false} EqualityInScope(e: Expr, variable: string, s: string, env: Env, from: set<string>)
    requires "db" in from && OneOf(variable) && IsEquality(e, variable, StrL(s)) && Leaf(Databases, e, env).Ok?
    ensures AllFrags(Leaf(Databases, e, env).value.text, ScopeCheck(from)) <==>
            (variable == "environment" || variable == "engine" ==> "instance" in from)
  {
    EqualityName(e, variable, s);
    PlainName(variable);
    LeafInScope(e, env, from);
  }

  lemma {:induction false} EqualityName(e: Expr, variable: string, s: string)
    requires IsEquality(e, variable, StrL(s))
    ensures LastName(e.args) == variable
  {
    var args := e.args;
    assert args[..1][..0] == [] && args[..1] == [args[0]];
    assert LastName(args[..1]) == (if args[0].Ident? then variable else "");
  }

  lemma {:induction false} PlainName(variable: string)
    requires OneOf(variable)
    ensures '\'' !in variable && variable != "table"
  {
  }

  lemma {:induction false} NotUnassignedMeans(id: string, row: Row, sem: Predicates<Row>)
    requires ReadsDatabase(sem)
    ensures OwnMeaning(Cond(NOT_UNASSIGNED, [Str(id)]), row, sem) == Truth(row.project != id && row.project != "default")
  {
    var c := Cond(NOT_UNASSIGNED, [Str(id)]);
    LeafRenders(c, row, sem);
    assert LeafLayout(c) == Both(Plain([Text(PROJECT_IS_NOT), Arg(Str(id))]), Plain([Text("db.project != 'default'")]));
    TestMeans("db.project != 'default'", row, sem, (r: Row) => Truth(r.project != "default"));
    assert Meaning(Plain([Text(PROJECT_IS_NOT), Arg(Str(id))]), row, sem) == Truth(row.project != id);
  }

  /** `exclude_unassigned == true` keeps the databases outside the two default projects, and any
      other value of it keeps all. */
  lemma {:induction false} ExcludeUnassignedMeans(e: Expr, lit: Literal, env: Env, row: Row, sem: Predicates<Row>)
    requires ReadsDatabase(sem) && IsEquality(e, "exclude_unassigned", lit)
    ensures Leaf(Databases, e, env).Ok?
    ensures OwnMeaning(Leaf(Databases, e, env).value, row, sem) ==
            Truth(lit == BoolL(true) ==> row.project != "default-" + env.workspace && row.project != "default")
  {
    EqualityLeaf(e, "exclude_unassigned", lit, env);
    if lit == BoolL(true) {
      var id := "default-" + env.workspace;
      NotUnassignedMeans(id, row, sem);
    } else {
      LeafRenders(Bare("TRUE"), row, sem);
      assert LeafLayout(Bare("TRUE")) == Plain([Text("TRUE")]);
    }
  }

  // ---------------------------------------------------------------- tables, parts of names, labels, lists

  /** PostgreSQL's reading of the conditions on tables of the schema, of LIKE and of labels; `lower`
      is its lower-casing. An absent label is NULL. */
  ghost predicate ReadsLike(sem: Predicates<Row>, lower: string -> string) {
    ReadsColumn(sem, NAME_LIKE, (r: Row, p) => Truth(Like.Matches(lower(r.name), p)))
  }

  ghost predicate ReadsTables(sem: Predicates<Row>) {
    && (forall s, r :: sem([Text(SOME_TABLE + " = "), Arg(Str(s)), Text(")")], r) == Truth(s in r.tables))
    && (forall p, r :: sem([Text(SOME_TABLE + " LIKE "), Arg(Str(p)), Text(")")], r) == Truth(SomeTableLike(r, p)))
  }

  predicate SomeTableLike(r: Row, p: string) { exists t :: t in r.tables && Like.Matches(t, p) }

  ghost predicate ReadsLabel(sem: Predicates<Row>, key: string) {
    var column := "db.metadata->'labels'->>'" + key + "'";
    && (forall s, r :: sem([Text(column + " = "), Arg(Str(s))], r) == LabelAmong(r, key, [s]))
    && (forall ss, r :: sem([Text(column + " = ANY("), Arg(SqlText.Strings(ss)), Text(")")], r) == LabelAmong(r, key, ss))
  }

  function LabelAmong(r: Row, key: string, ss: seq<string>): Tri { if key in r.labels then Truth(r.labels[key] in ss) else Unknown }

  ghost predicate ReadsEngineList(sem: Predicates<Row>) {
    forall ss, r :: sem([Text(ENGINE_AMONG), Arg(SqlText.Strings(ss)), Text(")")], r) == Truth(r.engine in ss)
  }

  /** A call of one name and one value, in either order. */
  predicate Compares(e: Expr, fn: string, variable: Expr, value: Expr) {
    e.Call? && e.fn == fn && (e.args == [variable, value] || e.args == [value, variable])
  }

  lemma {:induction false} Scanned(e: Expr, fn: string, variable: Expr, value: Expr)
    requires Compares(e, fn, variable, value) && NameOf(variable).Some? && ValueOf(value).Some?
    ensures LastName(e.args) == NameOf(variable).value && LastValue(e.args) == ValueOf(value).value
  {
    var args := e.args;
    assert args[..1][..0] == [] && args[..1] == [args[0]];
    assert LastName(args[..1]) == (match NameOf(args[0]) case Some(n) => n case None => "");
    assert LastValue(args[..1]) == (match ValueOf(args[0]) case Some(v) => v case None => Nil);
  }

  lemma {:induction false} AroundMeans(left: string, v: Value, row: Row, sem: Predicates<Row>)
    ensures OwnMeaning(Around(left, v, ")"), row, sem) == sem([Text(left), Arg(v), Text(")")], row)
  {
    var c := Around(left, v, ")");
    LeafRenders(c, row, sem);
    assert LeafLayout(c) == Plain([Text(left), Arg(v), Text(")")]);
  }

  /** `table == s`: a table of the database has the name. */
  lemma {:induction false} TableMeans(e: Expr, s: string, env: Env, row: Row, sem: Predicates<Row>)
    requires Compares(e, "_==_", Ident("table"), Lit(StrL(s))) && ReadsTables(sem)
    ensures Leaf(Databases, e, env).Ok? && OwnMeaning(Leaf(Databases, e, env).value, row, sem) == Truth(s in row.tables)
  {
    Scanned(e, "_==_", Ident("table"), Lit(StrL(s)));
    AroundMeans(SOME_TABLE + " = ", Str(s), row, sem);
    assert Leaf(Databases, e, env) == DatabaseEquals("table", Scalar(StrL(s)), env);
  }

  predicate IsContains(e: Expr, variable: string, x: string) {
    e.Call? && e.fn == "contains" && e.target == Ident(variable) && e.args == [Lit(StrL(x))]
  }

  ghost predicate NoWildcard(x: string) { forall c :: c in x ==> !Like.Wildcard(c) }

  /** `name.contains(x)`: the lower-cased name is like the lower-cased text between percent signs;
      it holds the text, if that has no wildcard. */
  lemma {:induction false} NameContainsMeans(e: Expr, x: string, env: Env, row: Row, sem: Predicates<Row>, lower: string -> string)
    requires IsContains(e, "name", x) && ReadsLike(sem, lower)
    ensures Leaf(Databases, e, env).Ok?
    ensures OwnMeaning(Leaf(Databases, e, env).value, row, sem) == Truth(Like.Matches(lower(row.name), "%" + env.toLower(x) + "%"))
    ensures NoWildcard(env.toLower(x)) ==>
              OwnMeaning(Leaf(Databases, e, env).value, row, sem) == Truth(Like.Substring(env.toLower(x), lower(row.name)))
  {
    PlainMeans(NAME_LIKE, "%" + env.toLower(x) + "%", row, sem, (r: Row, p) => Truth(Like.Matches(lower(r.name), p)));
    assert Leaf(Databases, e, env) == ContainsLeaf(Databases, Ident("name"), e.args, env);
    Like.SubstringIff(env.toLower(x));
  }

  /** `table.contains(x)`: some table's name, as it is, is like the lower-cased text between percent
      signs; it holds the text, if that has no wildcard. */
  lemma {:induction false} TableContainsMeans(e: Expr, x: string, env: Env, row: Row, sem: Predicates<Row>)
    requires IsContains(e, "table", x) && ReadsTables(sem)
    ensures Leaf(Databases, e, env).Ok?
    ensures OwnMeaning(Leaf(Databases, e, env).value, row, sem) == Truth(SomeTableLike(row, "%" + env.toLower(x) + "%"))
    ensures NoWildcard(env.toLower(x)) ==>
              OwnMeaning(Leaf(Databases, e, env).value, row, sem) == Truth(exists t :: t in row.tables && Like.Substring(env.toLower(x), t))
  {
    AroundMeans(SOME_TABLE + " LIKE ", Str("%" + env.toLower(x) + "%"), row, sem);
    assert Leaf(Databases, e, env) == ContainsLeaf(Databases, Ident("table"), e.args, env);
    Like.SubstringIff(env.toLower(x));
  }

  function LabelOf(key: string): Expr { Select(Ident("labels"), key) }

  lemma {:induction false} LabelName(key: string)
    ensures NameOf(LabelOf(key)) == Some("labels." + key) && "labels." <= "labels." + key && ("labels." + key)[7..] == key
  {
    assert "labels" + "." + key == "labels." + key;
  }

  /** `labels.key == s`: the database has the label with that value; without the label it is unknown. */
  lemma {:induction false} LabelMeans(e: Expr, key: string, s: string, env: Env, row: Row, sem: Predicates<Row>)
    requires Compares(e, "_==_", LabelOf(key), Lit(StrL(s))) && ReadsLabel(sem, key)
    ensures Leaf(Databases, e, env).Ok?
    ensures OwnMeaning(Leaf(Databases, e, env).value, row, sem) == if key in row.labels then Truth(row.labels[key] == s) else Unknown
  {
    Scanned(e, "_==_", LabelOf(key), Lit(StrL(s)));
    LabelName(key);
    LabelIsFiltered("labels." + key, Scalar(StrL(s)), env);
    var c := Compare("db.metadata->'labels'->>'" + key + "'" + " = ", Str(s));
    LeafRenders(c, row, sem);
    assert LeafLayout(c) == Plain([Text("db.metadata->'labels'->>'" + key + "'" + " = "), Arg(Str(s))]);
  }

  /** A list of strings. */
  function StringList(ss: seq<string>): Expr { ListE(StringExprs(ss)) }

  function StringExprs(ss: seq<string>): (es: seq<Expr>)
    ensures |es| == |ss| && forall i :: 0 <= i < |ss| ==> es[i] == Lit(StrL(ss[i]))
  {
    seq(|ss|, i requires 0 <= i < |ss| => Lit(StrL(ss[i])))
  }

  function StringLits(ss: seq<string>): (lits: seq<Literal>)
    ensures |lits| == |ss| && forall i :: 0 <= i < |ss| ==> lits[i] == StrL(ss[i])
  {
    seq(|ss|, i requires 0 <= i < |ss| => StrL(ss[i]))
  }

  lemma {:induction false} LiteralsOf(ss: seq<string>)
    ensures Literals(StringExprs(ss)) == StringLits(ss)
  {
    if ss != [] {
      var n := |ss| - 1;
      LiteralsOf(ss[..n]);
      assert StringExprs(ss)[..n] == StringExprs(ss[..n]);
      assert StringLits(ss) == StringLits(ss[..n]) + [StrL(ss[n])];
    }
  }

  lemma {:induction false} AsStringsOf(ss: seq<string>)
    ensures AsStrings(StringLits(ss)) == Ok(ss)
  {
    if ss != [] {
      AsStringsOf(ss[1..]);
      assert StringLits(ss)[1..] == StringLits(ss[1..]) && ss == [ss[0]] + ss[1..];
    } else {
      assert StringLits(ss) == [];
    }
  }

  lemma {:induction false} EngineNamesOf(ss: seq<string>, env: Env)
    ensures if forall s :: s in ss ==> s in env.engines then EngineNames(StringLits(ss), env) == Ok(ss) else EngineNames(StringLits(ss), env) == Err
  {
    if ss != [] {
      EngineNamesOf(ss[1..], env);
      assert StringLits(ss)[1..] == StringLits(ss[1..]) && ss == [ss[0]] + ss[1..];
      assert forall s :: s in ss <==> s == ss[0] || s in ss[1..];
    } else {
      assert StringLits(ss) == [];
    }
  }

  /** `labels.key in [...]`: an empty list is refused; else the label's value is in the list. */
  lemma {:induction false} LabelInMeans(e: Expr, key: string, ss: seq<string>, env: Env, row: Row, sem: Predicates<Row>)
    requires Compares(e, "@in", LabelOf(key), StringList(ss)) && ReadsLabel(sem, key)
    ensures Leaf(Databases, e, env).Ok? <==> ss != []
    ensures ss != [] ==>
              OwnMeaning(Leaf(Databases, e, env).value, row, sem) == if key in row.labels then Truth(row.labels[key] in ss) else Unknown
  {
    Scanned(e, "@in", LabelOf(key), StringList(ss));
    LabelName(key);
    LiteralsOf(ss);
    AsStringsOf(ss);
    assert ("labels." + key)[0] == 'l';
    if ss != [] { AroundMeans("db.metadata->'labels'->>'" + key + "'" + " = ANY(", SqlText.Strings(ss), row, sem); }
  }

  /** `engine in [...]`: accepted for known engines only, and in scope only in a query that selects
      from `instance`; there it holds if the engine is in the list. */
  lemma {:induction false} EngineInMeans(e: Expr, ss: seq<string>, env: Env, from: set<string>, row: Row, sem: Predicates<Row>)
    requires Compares(e, "@in", Ident("engine"), StringList(ss)) && "db" in from && ("instance" in from ==> ReadsEngineList(sem))
    ensures Leaf(Databases, e, env).Ok? <==> ss != [] && forall s :: s in ss ==> s in env.engines
    ensures Leaf(Databases, e, env).Ok? ==>
              && (AllFrags(Leaf(Databases, e, env).value.text, ScopeCheck(from)) <==> "instance" in from)
              && ("instance" in from ==> OwnMeaning(Leaf(Databases, e, env).value, row, sem) == Truth(row.engine in ss))
  {
    Scanned(e, "@in", Ident("engine"), StringList(ss));
    LiteralsOf(ss);
    EngineNamesOf(ss, env);
    if Leaf(Databases, e, env).Ok? {
      LeafInScope(e, env, from);
      AroundMeans(ENGINE_AMONG, SqlText.Strings(ss), row, sem);
    }
  }
}
