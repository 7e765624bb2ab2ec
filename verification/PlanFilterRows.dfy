/** What the leaves of the plan filter say of a plan: backend/store/plan.go against the values that a
    CEL filter compares with. */
module PlanFilterRows {
  import opened Options
  import opened SqlText
  import opened FilterCompiler
  import FilterRows
  import Like
  import Strings

  /** The columns that the conditions read: the stored `hasRollout`, if there is one, whether the plan
      has an issue, and the kinds of its specs. */
  datatype Row = Row(creator: string, title: string, hasRollout: Option<string>, hasIssue: bool, specs: set<string>,
                     deleted: bool, createdAt: int)

  function Truth(b: bool): Tri { if b then True else False }

  ghost predicate ReadsText(sem: Predicates<Row>, text: string, holds: (Row, string) -> Tri) {
    forall s, r :: sem([Text(text), Arg(Str(s))], r) == holds(r, s)
  }

  ghost predicate ReadsTime(sem: Predicates<Row>, text: string, holds: (Row, int) -> Tri) {
    forall t, r :: sem([Text(text), Arg(Time(t))], r) == holds(r, t)
  }

  ghost predicate ReadsTest(sem: Predicates<Row>, text: string, holds: Row -> Tri) {
    forall r :: sem([Text(text)], r) == holds(r)
  }

  /** PostgreSQL's reading of the conditions on a plan; `lower` is its lower-casing. */
  ghost predicate ReadsPlan(sem: Predicates<Row>, lower: string -> string) {
    && ReadsText(sem, "plan.creator = ", (r: Row, s) => Truth(r.creator == s))
    && ReadsText(sem, "plan.name = ", (r: Row, s) => Truth(r.title == s))
    && ReadsText(sem, "LOWER(plan.name) LIKE ", (r: Row, p) => Truth(Like.Matches(lower(r.title), p)))
    && ReadsText(sem, "plan.config->>'hasRollout' = ", (r: Row, s) => if r.hasRollout.Some? then Truth(r.hasRollout.value == s) else Unknown)
    && ReadsTest(sem, "plan.config->>'hasRollout' IS NULL", (r: Row) => Truth(r.hasRollout.None?))
    && ReadsTest(sem, "issue.id IS NULL", (r: Row) => Truth(!r.hasIssue))
    && ReadsTest(sem, "issue.id IS NOT NULL", (r: Row) => Truth(r.hasIssue))
  }

  ghost predicate ReadsDeleted(sem: Predicates<Row>) {
    forall b, r :: sem([Text("plan.deleted = "), Arg(Bool(b))], r) == Truth(r.deleted == b)
  }

  ghost predicate ReadsCreated(sem: Predicates<Row>) {
    && ReadsTime(sem, "plan.created_at >= ", (r: Row, t) => Truth(r.createdAt >= t))
    && ReadsTime(sem, "plan.created_at <= ", (r: Row, t) => Truth(r.createdAt <= t))
  }

  ghost predicate ReadsSpecs(sem: Predicates<Row>) {
    forall kind, r :: sem([Text("EXISTS (SELECT 1 FROM jsonb_array_elements(plan.config->'specs') AS spec WHERE spec->>'" + kind + "' IS NOT NULL)")], r)
                      == Truth(kind in r.specs)
  }

  lemma {:induction false} ValueMeans(text: string, v: Value, row: Row, sem: Predicates<Row>)
    ensures OwnMeaning(Compare(text, v), row, sem) == sem([Text(text), Arg(v)], row)
  {
    var c := Compare(text, v);
    LeafRenders(c, row, sem);
    assert LeafLayout(c) == Plain([Text(text), Arg(v)]);
  }

  lemma {:induction false} BareMeans(text: string, row: Row, sem: Predicates<Row>)
    requires |text| > 4
    ensures OwnMeaning(Bare(text), row, sem) == sem([Text(text)], row)
  {
    var c := Bare(text);
    LeafRenders(c, row, sem);
    assert LeafLayout(c) == Plain([Text(text)]);
    assert [Text(text)][0] != Text("TRUE");
  }

  lemma {:induction false} EqualityLeaf(e: Expr, variable: string, lit: Literal, env: Env)
    requires FilterRows.Compares(e, "_==_", Ident(variable), Lit(lit))
    ensures Leaf(Plans, e, env) == PlanEquals(variable, Scalar(lit), env)
  {
    FilterRows.Scanned(e, "_==_", Ident(variable), Lit(lit));
  }

  /** `creator == s`, with or without `users/` in front: the plan was created by that email; an
      empty email is refused. */
  lemma {:induction false} CreatorMeans(e: Expr, s: string, env: Env, row: Row, sem: Predicates<Row>, lower: string -> string)
    requires FilterRows.Compares(e, "_==_", Ident("creator"), Lit(StrL(s))) && ReadsPlan(sem, lower)
    ensures Leaf(Plans, e, env).Ok? <==> s != "" && s != "users/"
    ensures Leaf(Plans, e, env).Ok? ==>
              OwnMeaning(Leaf(Plans, e, env).value, row, sem) ==
              Truth(if "users/" <= s then s == "users/" + row.creator else s == row.creator)
  {
    EqualityLeaf(e, "creator", StrL(s), env);
    var email := Strings.TrimPrefix(s, "users/");
    if "users/" <= s { assert s == "users/" + email && ("users/" + row.creator)[6..] == row.creator; }
    ValueMeans("plan.creator = ", Str(email), row, sem);
  }

  /** `has_rollout == b`: true asks for a stored `true`, false for none or a stored `false`. */
  lemma {:induction false} HasRolloutMeans(e: Expr, b: bool, env: Env, row: Row, sem: Predicates<Row>, lower: string -> string)
    requires FilterRows.Compares(e, "_==_", Ident("has_rollout"), Lit(BoolL(b))) && ReadsPlan(sem, lower)
    ensures Leaf(Plans, e, env).Ok?
    ensures var m := OwnMeaning(Leaf(Plans, e, env).value, row, sem);
            && (b ==> m == if row.hasRollout.None? then Unknown else Truth(row.hasRollout == Some("true")))
            && (!b ==> m == Truth(row.hasRollout in {None, Some("false")}))
  {
    EqualityLeaf(e, "has_rollout", BoolL(b), env);
    if b { ValueMeans("plan.config->>'hasRollout' = ", Str("true"), row, sem); } else { NoRolloutMeans(row, sem, lower); }
  }

  lemma {:induction false} NoRolloutMeans(row: Row, sem: Predicates<Row>, lower: string -> string)
    requires ReadsPlan(sem, lower)
    ensures OwnMeaning(Cond(NO_ROLLOUT, [Str("false")]), row, sem) == Truth(row.hasRollout in {None, Some("false")})
  {
    var c := Cond(NO_ROLLOUT, [Str("false")]);
    LeafRenders(c, row, sem);
    NoRolloutLayoutIs(c);
    GroupedOrMeans(c.text[1].text, c.text[3].text, c.values[0], row, sem);
    RolloutReads(row, sem, lower);
  }

  lemma {:induction false} RolloutReads(row: Row, sem: Predicates<Row>, lower: string -> string)
    requires ReadsPlan(sem, lower)
    ensures sem([Text("plan.config->>'hasRollout' IS NULL")], row) == Truth(row.hasRollout.None?)
    ensures sem([Text("plan.config->>'hasRollout' = "), Arg(Str("false"))], row) ==
            if row.hasRollout.Some? then Truth(row.hasRollout.value == "false") else Unknown
  {
  }

  lemma {:induction false} GroupedOrMeans(x: string, y: string, v: Value, row: Row, sem: Predicates<Row>)
    requires |x| > 4
    ensures Meaning(Group(Either(Plain([Text(x)]), Plain([Text(y), Arg(v)]))), row, sem) == Or3(sem([Text(x)], row), sem([Text(y), Arg(v)], row))
  {
    assert [Text(x)][0] != Text("TRUE");
    var a, b := Plain([Text(x)]), Plain([Text(y), Arg(v)]);
    assert Meaning(Either(a, b), row, sem) == Or3(Meaning(a, row, sem), Meaning(b, row, sem));
  }

  /** `has_issue == b`: the plan has an issue, or has none. */
  lemma {:induction false} HasIssueMeans(e: Expr, b: bool, env: Env, row: Row, sem: Predicates<Row>, lower: string -> string)
    requires FilterRows.Compares(e, "_==_", Ident("has_issue"), Lit(BoolL(b))) && ReadsPlan(sem, lower)
    ensures Leaf(Plans, e, env).Ok? && OwnMeaning(Leaf(Plans, e, env).value, row, sem) == Truth(row.hasIssue == b)
  {
    EqualityLeaf(e, "has_issue", BoolL(b), env);
    if b { BareMeans("issue.id IS NOT NULL", row, sem); } else { BareMeans("issue.id IS NULL", row, sem); }
  }

  /** `title == s`: that is the plan's title. */
  lemma {:induction false} TitleMeans(e: Expr, s: string, env: Env, row: Row, sem: Predicates<Row>, lower: string -> string)
    requires FilterRows.Compares(e, "_==_", Ident("title"), Lit(StrL(s))) && ReadsPlan(sem, lower)
    ensures Leaf(Plans, e, env).Ok? && OwnMeaning(Leaf(Plans, e, env).value, row, sem) == Truth(row.title == s)
  {
    EqualityLeaf(e, "title", StrL(s), env);
    ValueMeans("plan.name = ", Str(s), row, sem);
  }

  /** `title.contains(x)`: as for the names of databases. */
  lemma {:induction false} TitleContainsMeans(e: Expr, x: string, env: Env, row: Row, sem: Predicates<Row>, lower: string -> string)
    requires FilterRows.IsContains(e, "title", x) && ReadsPlan(sem, lower)
    ensures Leaf(Plans, e, env).Ok?
    ensures OwnMeaning(Leaf(Plans, e, env).value, row, sem) == Truth(Like.Matches(lower(row.title), "%" + env.toLower(x) + "%"))
    ensures FilterRows.NoWildcard(env.toLower(x)) ==>
              OwnMeaning(Leaf(Plans, e, env).value, row, sem) == Truth(Like.Substring(env.toLower(x), lower(row.title)))
  {
    ValueMeans("LOWER(plan.name) LIKE ", Str("%" + env.toLower(x) + "%"), row, sem);
    assert Leaf(Plans, e, env) == ContainsLeaf(Plans, Ident("title"), e.args, env);
    Like.SubstringIff(env.toLower(x));
  }

  /** `spec_type == s`: one of the three kinds, and the plan has a spec of it. */
  lemma {:induction false} SpecTypeMeans(e: Expr, s: string, env: Env, row: Row, sem: Predicates<Row>)
    requires FilterRows.Compares(e, "_==_", Ident("spec_type"), Lit(StrL(s))) && ReadsSpecs(sem)
    ensures Leaf(Plans, e, env).Ok? <==> s in {"create_database_config", "change_database_config", "export_data_config"}
    ensures s == "create_database_config" ==> OwnMeaning(Leaf(Plans, e, env).value, row, sem) == Truth("createDatabaseConfig" in row.specs)
    ensures s == "change_database_config" ==> OwnMeaning(Leaf(Plans, e, env).value, row, sem) == Truth("changeDatabaseConfig" in row.specs)
    ensures s == "export_data_config" ==> OwnMeaning(Leaf(Plans, e, env).value, row, sem) == Truth("exportDataConfig" in row.specs)
  {
    EqualityLeaf(e, "spec_type", StrL(s), env);
    if s == "create_database_config" {
      SpecMeans("createDatabaseConfig", row, sem);
    } else if s == "change_database_config" {
      SpecMeans("changeDatabaseConfig", row, sem);
    } else if s == "export_data_config" {
      SpecMeans("exportDataConfig", row, sem);
    }
  }

  lemma {:induction false} SpecMeans(kind: string, row: Row, sem: Predicates<Row>)
    requires ReadsSpecs(sem)
    ensures OwnMeaning(SpecExists(kind), row, sem) == Truth(kind in row.specs)
  {
    var text := "EXISTS (SELECT 1 FROM jsonb_array_elements(plan.config->'specs') AS spec WHERE spec->>'" + kind + "' IS NOT NULL)";
    assert |text| > 4;
    BareMeans(text, row, sem);
  }

  /** `state == s`, with or without `STATE_` in front: deleted plans for `DELETED`, the others for the
      other states. */
  lemma {:induction false} StateMeans(e: Expr, s: string, env: Env, row: Row, sem: Predicates<Row>)
    requires FilterRows.Compares(e, "_==_", Ident("state"), Lit(StrL(s))) && ReadsDeleted(sem)
    ensures Leaf(Plans, e, env).Ok? <==> s in {"STATE_UNSPECIFIED", "ACTIVE", "DELETED"} || s in {"STATE_STATE_UNSPECIFIED", "STATE_ACTIVE", "STATE_DELETED"}
    ensures Leaf(Plans, e, env).Ok? ==>
              OwnMeaning(Leaf(Plans, e, env).value, row, sem) == Truth(row.deleted == (s == "DELETED" || s == "STATE_DELETED"))
  {
    EqualityLeaf(e, "state", StrL(s), env);
    DeletedOfIs(s);
    if DeletedOf(s).Some? { ValueMeans("plan.deleted = ", Bool(DeletedOf(s).value), row, sem); }
  }

  lemma {:induction false} DeletedOfIs(s: string)
    ensures DeletedOf(s).Some? <==> s in {"STATE_UNSPECIFIED", "ACTIVE", "DELETED"} || s in {"STATE_STATE_UNSPECIFIED", "STATE_ACTIVE", "STATE_DELETED"}
    ensures DeletedOf(s).Some? ==> DeletedOf(s).value == (s == "DELETED" || s == "STATE_DELETED")
  {
    UnspecifiedTrimmed(s);
    ActiveTrimmed(s);
    DeletedTrimmed(s);
  }

  lemma {:induction false} Trimmed(s: string, prefix: string, word: string)
    ensures Strings.TrimPrefix(s, prefix) == word <==> s == prefix + word || (s == word && !(prefix <= s))
  {
    if prefix <= s { assert s == prefix + s[|prefix|..]; }
  }

  lemma {:induction false} UnspecifiedTrimmed(s: string)
    ensures Strings.TrimPrefix(s, "STATE_") == "STATE_UNSPECIFIED" <==> s == "STATE_STATE_UNSPECIFIED"
  {
    Trimmed(s, "STATE_", "STATE_UNSPECIFIED");
    assert "STATE_" + "STATE_UNSPECIFIED" == "STATE_STATE_UNSPECIFIED";
  }

  lemma {:induction false} ActiveTrimmed(s: string)
    ensures Strings.TrimPrefix(s, "STATE_") == "ACTIVE" <==> s == "ACTIVE" || s == "STATE_ACTIVE"
  {
    Trimmed(s, "STATE_", "ACTIVE");
    assert "STATE_" + "ACTIVE" == "STATE_ACTIVE" && "ACTIVE"[0] != "STATE_"[0];
  }

  lemma {:induction false} DeletedTrimmed(s: string)
    ensures Strings.TrimPrefix(s, "STATE_") == "DELETED" <==> s == "DELETED" || s == "STATE_DELETED"
  {
    Trimmed(s, "STATE_", "DELETED");
    assert "STATE_" + "DELETED" == "STATE_DELETED" && "DELETED"[0] != "STATE_"[0];
  }

  /** `create_time >= s` and `create_time <= s`: the plan was created then or later, then or earlier. */
  lemma {:induction false} CreateTimeMeans(e: Expr, s: string, env: Env, row: Row, sem: Predicates<Row>)
    requires FilterRows.Compares(e, "_>=_", Ident("create_time"), Lit(StrL(s))) || FilterRows.Compares(e, "_<=_", Ident("create_time"), Lit(StrL(s)))
    requires ReadsCreated(sem)
    ensures Leaf(Plans, e, env).Ok? <==> env.parseTime(s).Some?
    ensures env.parseTime(s).Some? ==>
              OwnMeaning(Leaf(Plans, e, env).value, row, sem) ==
              Truth(if e.fn == "_>=_" then row.createdAt >= env.parseTime(s).value else row.createdAt <= env.parseTime(s).value)
  {
    FilterRows.Scanned(e, e.fn, Ident("create_time"), Lit(StrL(s)));
    assert "_>=_"[1] == '>' && "_<=_"[1] == '<';
    if env.parseTime(s).Some? {
      ValueMeans(if e.fn == "_>=_" then "plan.created_at >= " else "plan.created_at <= ", Time(env.parseTime(s).value), row, sem);
    }
  }
}
