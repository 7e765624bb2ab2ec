/** `ListDatabases` of backend/store/database.go: the WHERE clause it assembles and the
    keyset cursor that pages through its result. */
module DatabaseListing {
  import opened Options
  import opened Results
  import opened SqlText
  import opened QueryBuilder
  import opened FilterCompiler
  import opened TableNames
  import opened FilterScope
  import Strings

  // ---------------------------------------------------------------- keys and their order

  /** The sort key of a database row; (instance, name) is the table's primary key. */
  datatype Key = Key(project: string, instance: string, name: string)

  /** A strict total order on strings: the database's collation. */
  ghost predicate StrictOrder(lt: (string, string) -> bool) {
    && (forall a, b :: lt(a, b) ==> a != b && !lt(b, a))
    && (forall a, b, c :: lt(a, b) && lt(b, c) ==> lt(a, c))
    && (forall a, b :: a != b ==> lt(a, b) || lt(b, a))
  }

  /** SQL's row comparison `(project, instance, name) > (...)`, as less-than. */
  predicate KeyLess(a: Key, b: Key, lt: (string, string) -> bool) {
    lt(a.project, b.project) ||
    (a.project == b.project && (lt(a.instance, b.instance) || (a.instance == b.instance && lt(a.name, b.name))))
  }

  /** It compares at the first column in which the keys differ. */
  lemma {:induction false} KeyLessIsLexicographic(a: Key, b: Key, lt: (string, string) -> bool)
    ensures var x, y := [a.project, a.instance, a.name], [b.project, b.instance, b.name];
            KeyLess(a, b, lt) <==> exists k :: 0 <= k < 3 && x[..k] == y[..k] && lt(x[k], y[k])
  {
    var x, y := [a.project, a.instance, a.name], [b.project, b.instance, b.name];
    assert x[..1] == [a.project] && y[..1] == [b.project];
    assert x[..2] == [a.project, a.instance] && y[..2] == [b.project, b.instance];
    if KeyLess(a, b, lt) {
      var k := if lt(a.project, b.project) then 0 else if lt(a.instance, b.instance) then 1 else 2;
      assert x[..k] == y[..k] && lt(x[k], y[k]);
    }
    if exists k :: 0 <= k < 3 && x[..k] == y[..k] && lt(x[k], y[k]) {
      var k :| 0 <= k < 3 && x[..k] == y[..k] && lt(x[k], y[k]);
      if k >= 1 { assert x[..k][0] == y[..k][0]; }
      if k == 2 { assert x[..k][1] == y[..k][1]; }
    }
  }

  ghost predicate Sorted(rows: seq<Key>, lt: (string, string) -> bool) {
    forall i, j :: 0 <= i < j < |rows| ==> KeyLess(rows[i], rows[j], lt)
  }

  // ---------------------------------------------------------------- cursors

  /** strings.SplitN(cursor, ":", 3), when it yields three parts. */
  function DecodeCursor(cursor: string): Option<Key> {
    match Strings.Cut(cursor, ":")
    case Error => None
    case Ok(first) =>
      match Strings.Cut(first.1, ":")
      case Error => None
      case Ok(second) => Some(Key(first.0, second.0, second.1))
  }

  /** The documented format, `project:instance:name`. */
  function EncodeCursor(k: Key): string { k.project + ":" + k.instance + ":" + k.name }

  lemma {:induction false} CutAtColon(a: string, b: string)
    requires ':' !in a
    ensures Strings.Cut(a + ":" + b, ":") == Result.Ok((a, b))
  {
    var s := a + ":" + b;
    assert s[|a|..|a|+1] == ":";
    forall k: nat | k < |a| ensures !Strings.OccursAt(s, ":", k) {
      Strings.OccursHead(s, ":", k);
      assert s[k] == a[k];
    }
    Strings.IndexIs(s, ":", |a|);
    assert s[..|a|] == a && s[|a|+1..] == b;
  }

  lemma {:induction false} CutBeforeColon(s: string)
    ensures Strings.Cut(s, ":").Ok? ==> ':' !in Strings.Cut(s, ":").value.0
  {
    var i := Strings.Index(s, ":");
    if i >= 0 {
      forall k | 0 <= k < i ensures s[k] != ':' {
        assert !Strings.OccursAt(s, ":", k);
        assert s[k..k+1] == [s[k]];
      }
    }
  }

  /** A cursor reads back as the key it was made from exactly when the project and instance
      ids contain no colon; the database name may. */
  lemma {:induction false} CursorRoundTripIff(k: Key)
    ensures DecodeCursor(EncodeCursor(k)) == Some(k) <==> ':' !in k.project && ':' !in k.instance
  {
    var s := EncodeCursor(k);
    CutBeforeColon(s);
    if ':' !in k.project {
      assert s == k.project + ":" + (k.instance + ":" + k.name);
      CutAtColon(k.project, k.instance + ":" + k.name);
      CutBeforeColon(k.instance + ":" + k.name);
      if ':' !in k.instance { CutAtColon(k.instance, k.name); }
    }
  }

  // ---------------------------------------------------------------- pages

  /** The rows after a cursor, in order. */
  function RowsAfter(rows: seq<Key>, c: Key, lt: (string, string) -> bool): seq<Key> {
    if rows == [] then []
    else (if KeyLess(c, rows[0], lt) then [rows[0]] else []) + RowsAfter(rows[1..], c, lt)
  }

  function First<T>(ts: seq<T>, limit: nat): seq<T> { if |ts| <= limit then ts else ts[..limit] }

  /** One call: the rows after the cursor (all rows if it does not decode), cut to the limit. */
  function Page(rows: seq<Key>, cursor: Option<string>, limit: nat, lt: (string, string) -> bool): seq<Key> {
    var from := match cursor
      case None => rows
      case Some(s) => (match DecodeCursor(s) case None => rows case Some(c) => RowsAfter(rows, c, lt));
    First(from, limit)
  }

  /** The calls a client can make with one limit, by cursor. */
  type Pager = Option<string> -> seq<Key>

  function PagerOf(rows: seq<Key>, limit: nat, lt: (string, string) -> bool): Pager {
    cursor => Page(rows, cursor, limit, lt)
  }

  /** A walk from a cursor, so far: each page starts after the last row of the page before
      it, and only the last page may fall short of the limit. */
  ghost predicate IsWalk(pages: seq<seq<Key>>, pager: Pager, cursor: Option<string>, limit: nat) {
    pages == [] ||
    (pages[0] == pager(cursor) &&
     (|pages| > 1 ==> |pages[0]| == limit > 0 &&
                      IsWalk(pages[1..], pager, Some(EncodeCursor(pages[0][limit-1])), limit)))
  }

  /** A walk is over when its last page fell short of the limit. */
  ghost predicate Finished(pages: seq<seq<Key>>, limit: nat) {
    pages != [] && |pages[|pages|-1]| < limit
  }

  function Flatten(pages: seq<seq<Key>>): seq<Key> {
    if pages == [] then [] else pages[0] + Flatten(pages[1..])
  }

  lemma {:induction false} AllAfter(rows: seq<Key>, c: Key, lt: (string, string) -> bool)
    requires forall i :: 0 <= i < |rows| ==> KeyLess(c, rows[i], lt)
    ensures RowsAfter(rows, c, lt) == rows
  {
    if rows != [] {
      AllAfter(rows[1..], c, lt);
      assert rows == [rows[0]] + rows[1..];
    }
  }

  lemma {:induction false} RowsAfterRow(rows: seq<Key>, k: nat, lt: (string, string) -> bool)
    requires StrictOrder(lt) && Sorted(rows, lt) && k < |rows|
    ensures RowsAfter(rows, rows[k], lt) == rows[k+1..]
  {
    if k == 0 {
      AllAfter(rows[1..], rows[0], lt);
      assert !KeyLess(rows[0], rows[0], lt);
    } else {
      RowsAfterRow(rows[1..], k - 1, lt);
      assert KeyLess(rows[0], rows[k], lt) && !KeyLess(rows[k], rows[0], lt);
      assert rows[1..][k-1] == rows[k] && rows[1..][k..] == rows[k+1..];
    }
  }

  ghost predicate ColonFree(rows: seq<Key>) {
    forall i :: 0 <= i < |rows| ==> ':' !in rows[i].project && ':' !in rows[i].instance
  }

  function CursorAt(rows: seq<Key>, k: nat): Option<string>
    requires k <= |rows|
  {
    if k == 0 then None else Some(EncodeCursor(rows[k-1]))
  }

  /** The page after row `k - 1` is the next stretch of the list. */
  lemma {:induction false} NextPage(rows: seq<Key>, k: nat, limit: nat, lt: (string, string) -> bool)
    requires StrictOrder(lt) && Sorted(rows, lt) && ColonFree(rows) && k <= |rows|
    ensures Page(rows, CursorAt(rows, k), limit, lt) == rows[k..(if k + limit <= |rows| then k + limit else |rows|)]
  {
    if k > 0 {
      CursorRoundTripIff(rows[k-1]);
      RowsAfterRow(rows, k - 1, lt);
    }
    FirstOf(rows, k, limit);
  }

  lemma {:induction false} FirstOf(rows: seq<Key>, k: nat, limit: nat)
    requires k <= |rows|
    ensures (if |rows[k..]| <= limit then rows[k..] else rows[k..][..limit]) == rows[k..(if k + limit <= |rows| then k + limit else |rows|)]
  {
  }

  /** Every page is the stretch of the list that its cursor says. */
  ghost predicate Consecutive(pager: Pager, rows: seq<Key>, limit: nat) {
    forall k :: 0 <= k <= |rows| ==> pager(CursorAt(rows, k)) == rows[k..(if k + limit <= |rows| then k + limit else |rows|)]
  }

  lemma {:induction false} FullPage(page: seq<Key>, rows: seq<Key>, k: nat, limit: nat)
    requires k <= |rows| && limit >= 1 && |page| == limit
    requires page == rows[k..(if k + limit <= |rows| then k + limit else |rows|)]
    ensures k + limit <= |rows| && page == rows[k..k+limit] && page[limit-1] == rows[k+limit-1]
    ensures rows[k..] == page + rows[k+limit..]
  {
  }

  /** A walk from row `k` collects consecutive rows from there on, all of them once it is
      finished, and cannot have more full pages than the rows allow. */
  lemma {:induction false} WalkFromRow(pages: seq<seq<Key>>, pager: Pager, rows: seq<Key>, k: nat, limit: nat)
    requires Consecutive(pager, rows, limit) && k <= |rows| && limit >= 1
    requires IsWalk(pages, pager, CursorAt(rows, k), limit)
    ensures Flatten(pages) <= rows[k..]
    ensures Finished(pages, limit) ==> Flatten(pages) == rows[k..]
    ensures |pages| <= |rows| - k + 1
    decreases |pages|
  {
    if |pages| == 1 {
      assert pages[1..] == [] && Flatten(pages) == pages[0];
    } else if |pages| > 1 {
      var k' := k + limit;
      FullPage(pages[0], rows, k, limit);
      WalkFromRow(pages[1..], pager, rows, k', limit);
    }
  }

  /** A walk from the start collects a prefix of the sorted list; once it is finished it has
      collected exactly the unpaged list, no row lost and none repeated; and with a limit of at
      least one it cannot go on for ever. */
  lemma {:induction false} WalkIsWholeList(pages: seq<seq<Key>>, rows: seq<Key>, limit: nat, lt: (string, string) -> bool)
    requires StrictOrder(lt) && Sorted(rows, lt) && ColonFree(rows) && limit >= 1
    requires IsWalk(pages, PagerOf(rows, limit, lt), None, limit)
    ensures Flatten(pages) <= rows
    ensures Finished(pages, limit) ==> Flatten(pages) == rows
    ensures |pages| <= |rows| + 1
  {
    var pager := PagerOf(rows, limit, lt);
    assert Consecutive(pager, rows, limit) by {
      forall k | 0 <= k <= |rows|
        ensures pager(CursorAt(rows, k)) == rows[k..(if k + limit <= |rows| then k + limit else |rows|)]
      {
        NextPage(rows, k, limit, lt);
      }
    }
    WalkFromRow(pages, pager, rows, 0, limit);
    assert rows[0..] == rows;
  }

  /** A walk that is not finished can always take another page. */
  lemma {:induction false} WalkContinues(pages: seq<seq<Key>>, pager: Pager, cursor: Option<string>, limit: nat)
    returns (longer: seq<seq<Key>>)
    requires limit >= 1 && IsWalk(pages, pager, cursor, limit) && !Finished(pages, limit)
    requires forall c :: |pager(c)| <= limit
    ensures IsWalk(longer, pager, cursor, limit) && |longer| == |pages| + 1 && pages <= longer
    decreases |pages|
  {
    if pages == [] {
      longer := [pager(cursor)];
    } else {
      var next := Some(EncodeCursor(pages[0][limit-1]));
      var rest := WalkContinues(pages[1..], pager, next, limit);
      longer := [pages[0]] + rest;
      assert longer[1..] == rest;
    }
  }

  // ---------------------------------------------------------------- the WHERE clause

  /** The parts of FindDatabaseMessage that become conditions. */
  datatype Find = Find(filter: Option<seq<QueryPart>>, workspace: string, project: Option<string>,
                       environment: Option<string>, instance: Option<string>, name: Option<string>,
                       names: seq<string>, engine: Option<string>, showDeleted: bool, cursor: Option<string>)

  /** A condition handed to `And`: its text and its parameters. */
  datatype Piece = Piece(text: seq<Tok>, params: seq<Param>)

  function PieceOf(text: seq<Tok>, v: Value): seq<Piece> { [Piece(text, [Val(v)])] }

  function IfSome(column: string, v: Option<string>): seq<Piece> {
    if v.Some? then PieceOf([Frag(column + " = "), Hole], Str(v.value)) else []
  }

  const AFTER_CURSOR := [Frag("(" + "db" + "." + "project, " + "db.instance, " + "db.name) > ("), Hole, Frag(", "), Hole, Frag(", "), Hole, Frag(")")]

  function CursorPiece(cursor: Option<string>): seq<Piece> {
    if cursor.None? then []
    else
      match DecodeCursor(cursor.value)
      case None => []
      case Some(k) => [Piece(AFTER_CURSOR, [Val(Str(k.project)), Val(Str(k.instance)), Val(Str(k.name))])]
  }

  function If(b: bool, ps: seq<Piece>): seq<Piece> { if b then ps else [] }

  function FilterPiece(filter: Option<seq<QueryPart>>): seq<Piece> {
    if filter.Some? then [Piece([Hole], [Nested(filter.value)])] else []
  }

  const WORKSPACE := [Frag("db.workspace = "), Hole]
  const NAME_LIST := [Frag("db.name = ANY("), Hole, Frag(")")]
  const DELETED := [Frag("db.deleted = "), Hole]

  function Pieces(f: Find): seq<Piece> { OtherPieces(f) + CursorPiece(f.cursor) }

  /** All conditions but the cursor's. */
  function OtherPieces(f: Find): seq<Piece> {
    FilterPiece(f.filter)
    + If(f.workspace != "", PieceOf(WORKSPACE, Str(f.workspace)))
    + IfSome("db.project", f.project) + IfSome("db.effective_environment", f.environment)
    + IfSome("db.instance", f.instance) + IfSome("db.name", f.name)
    + If(|f.names| > 0, PieceOf(NAME_LIST, SqlText.Strings(f.names)))
    + IfSome("db.engine", f.engine)
    + If(!f.showDeleted, PieceOf(DELETED, Bool(false)))
  }

  function AndAll(parts: seq<QueryPart>, pieces: seq<Piece>): seq<QueryPart>
    decreases |pieces|
  {
    if pieces == [] then parts
    else AndAll(Joined(parts, [AndT], pieces[0].text, pieces[0].params), pieces[1..])
  }

  function WhereParts(f: Find): seq<QueryPart> { AndAll(Single([Frag("TRUE")], []), Pieces(f)) }

  lemma {:induction false} AndAllConcat(parts: seq<QueryPart>, a: seq<Piece>, b: seq<Piece>)
    ensures AndAll(parts, a + b) == AndAll(AndAll(parts, a), b)
    decreases |a|
  {
    if a == [] {
      assert a + b == b;
    } else {
      assert (a + b)[1..] == a[1..] + b;
      AndAllConcat(Joined(parts, [AndT], a[0].text, a[0].params), a[1..], b);
    }
  }

  /** `where.And(...)` for a condition that may be absent. */
  method AndIf(where: Query, ps: seq<Piece>, ghost start: seq<QueryPart>, ghost done: seq<Piece>)
    requires |ps| <= 1 && where.parts == AndAll(start, done)
    modifies where
    ensures where.parts == AndAll(start, done + ps)
  {
    AndAllConcat(start, done, ps);
    if ps != [] {
      where.And(ps[0].text, ps[0].params);
      assert ps[1..] == [];
    }
  }

  /** A finished filter whose text holds what its own table conditions hold joins the schema table. */
  predicate JoinsSchema(filter: Option<seq<QueryPart>>) {
    filter.Some? &&
    match ToSQL(filter.value)
    case Error => false
    case Ok(sql) => exists t :: t in sql.0 && t.Frag? && Strings.Contains(t.text, SCHEMA_TEXT)
  }

  const SCHEMA_JOIN := [Frag("INNER JOIN db_schema ds ON db.instance = ds.instance"), AndT, Frag("db.name = ds.db_name")]

  function FromParts(f: Find): seq<QueryPart> {
    var db := Single([Frag("db")], []);
    if JoinsSchema(f.filter) then Joined(db, [], SCHEMA_JOIN, []) else db
  }

  /** The text of FROM. */
  lemma {:induction false} FromIs(f: Find)
    ensures RawText(FromParts(f)) ==
            [Frag("db")] + if JoinsSchema(f.filter) then
              [Frag("INNER JOIN db_schema ds ON db.instance = ds.instance"), AndT, Frag("db.name = ds.db_name")] else []
  {
    assert HoleCount([Frag("db")][1..]) == 0 && HoleCount([Frag("db")]) == 0;
    NoHoles([Frag("db")]);
    SingleRaw([Frag("db")], []);
    if JoinsSchema(f.filter) {
      SchemaJoinHoles();
      JoinedIs(Single([Frag("db")], []), [], SCHEMA_JOIN, []);
      assert Vals([]) == [] && [] + SCHEMA_JOIN == SCHEMA_JOIN;
    }
  }

  lemma {:induction false} SchemaJoinHoles()
    ensures HoleCount(SCHEMA_JOIN) == 0
  {
    assert SCHEMA_JOIN[1..][1..][1..] == [];
    assert HoleCount(SCHEMA_JOIN[1..][1..]) == 0 && HoleCount(SCHEMA_JOIN[1..]) == HoleCount(SCHEMA_JOIN[1..][1..]);
  }

  /** The names of the tables in FROM. */
  function Tables(f: Find): set<string> { if JoinsSchema(f.filter) then {"db", "ds"} else {"db"} }

  method BuildFrom(f: Find) returns (from: Query)
    ensures fresh(from) && from.parts == FromParts(f)
  {
    from := new Query();
    from.Space([Frag("db")], []);
    assert [] + [Frag("db")] == [Frag("db")];
    if JoinsSchema(f.filter) { from.Space(SCHEMA_JOIN, []); }
  }

  /** FROM, and the WHERE clause as the source assembles it, condition by condition. */
  method BuildWhere(f: Find) returns (from: Query, where: Query)
    ensures fresh(from) && from.parts == FromParts(f)
    ensures fresh(where) && where.parts == WhereParts(f)
  {
    from := BuildFrom(f);
    where := new Query();
    where.Space([Frag("TRUE")], []);
    ghost var start := where.parts;
    assert start == Single([Frag("TRUE")], []);
    ghost var p1 := FilterPiece(f.filter);
    AndIf(where, FilterPiece(f.filter), start, []);
    assert [] + p1 == p1;
    ghost var p2 := p1 + If(f.workspace != "", PieceOf(WORKSPACE, Str(f.workspace)));
    AndIf(where, If(f.workspace != "", PieceOf(WORKSPACE, Str(f.workspace))), start, p1);
    ghost var p3 := p2 + IfSome("db.project", f.project);
    AndIf(where, IfSome("db.project", f.project), start, p2);
    ghost var p4 := p3 + IfSome("db.effective_environment", f.environment);
    AndIf(where, IfSome("db.effective_environment", f.environment), start, p3);
    ghost var p5 := p4 + IfSome("db.instance", f.instance);
    AndIf(where, IfSome("db.instance", f.instance), start, p4);
    ghost var p6 := p5 + IfSome("db.name", f.name);
    AndIf(where, IfSome("db.name", f.name), start, p5);
    ghost var p7 := p6 + If(|f.names| > 0, PieceOf(NAME_LIST, SqlText.Strings(f.names)));
    AndIf(where, If(|f.names| > 0, PieceOf(NAME_LIST, SqlText.Strings(f.names))), start, p6);
    ghost var p8 := p7 + IfSome("db.engine", f.engine);
    AndIf(where, IfSome("db.engine", f.engine), start, p7);
    ghost var p9 := p8 + If(!f.showDeleted, PieceOf(DELETED, Bool(false)));
    AndIf(where, If(!f.showDeleted, PieceOf(DELETED, Bool(false))), start, p8);
    AndIf(where, CursorPiece(f.cursor), start, p9);
  }

  // ---------------------------------------------------------------- what the clause means

  /** What a condition means when its text stands alone, and the arguments it brings. */
  ghost function PieceMeaning<Row>(p: Piece, row: Row, sem: Predicates<Row>): Tri {
    match ToSQL(Single(p.text, p.params))
    case Error => Unknown
    case Ok(sql) =>
      match ReadOr(sql.0)
      case Read(q, rest) => Eval(q, sql.1, row, sem)
      case Fail => Unknown
  }

  type Meanings = Piece -> Tri

  function AllOf(ps: seq<Piece>, meaning: Meanings): Tri {
    if ps == [] then True else And3(meaning(ps[0]), AllOf(ps[1..], meaning))
  }

  ghost function MeaningsOn<Row>(row: Row, sem: Predicates<Row>): Meanings { p => PieceMeaning(p, row, sem) }

  /** All the conditions together. */
  ghost function PiecesMeaning<Row>(ps: seq<Piece>, row: Row, sem: Predicates<Row>): Tri { AllOf(ps, MeaningsOn(row, sem)) }

  ghost function PiecesArgs(ps: seq<Piece>): seq<Value> {
    if ps == [] then [] else MakePart(ps[0].text, ps[0].params).params + PiecesArgs(ps[1..])
  }

  /** The condition renders a layout that is safe as an operand of AND. */
  ghost predicate PieceHas(p: Piece, l: Layout) {
    MakePart(p.text, p.params) == QueryPart(WithHoles(l), Args(l), false) && WellGrouped(l) && !l.Either?
  }

  ghost predicate PiecesHave(ps: seq<Piece>, ls: seq<Layout>) {
    |ps| == |ls| && forall i :: 0 <= i < |ps| ==> PieceHas(ps[i], ls[i])
  }

  lemma {:induction false} PieceMeans<Row>(p: Piece, l: Layout, row: Row, sem: Predicates<Row>)
    requires PieceHas(p, l)
    ensures PieceMeaning(p, row, sem) == Meaning(l, row, sem)
  {
    SingleRaw(p.text, p.params);
    var q := RenderedSqlMeans(Single(p.text, p.params), l, row, sem);
  }

  lemma {:induction false} AndRenders(parts: seq<QueryPart>, l: Layout, p: Piece, m: Layout)
    requires Renders(parts, l) && parts != [] && PieceHas(p, m)
    ensures Renders(Joined(parts, [AndT], p.text, p.params), Both(l, m))
  {
    var j := Joined(parts, [AndT], p.text, p.params);
    assert ([AndT] + p.text)[1..] == p.text;
    assert j[..|j|-1] == parts && j[|j|-1] == QueryPart([AndT] + WithHoles(m), Args(m), false);
    assert RawText(j) == WithHoles(l) + ([AndT] + WithHoles(m));
  }

  /** Joining conditions one after the other to a safe layout keeps it safe, and conjoins their meanings. */
  lemma {:induction false} AndAllMeans<Row>(parts: seq<QueryPart>, l: Layout, ps: seq<Piece>, ls: seq<Layout>,
                                            row: Row, sem: Predicates<Row>) returns (all: Layout)
    requires Renders(parts, l) && parts != [] && WellGrouped(l) && !l.Either? && PiecesHave(ps, ls)
    ensures Renders(AndAll(parts, ps), all) && WellGrouped(all) && !all.Either?
    ensures Meaning(all, row, sem) == And3(Meaning(l, row, sem), PiecesMeaning(ps, row, sem))
    ensures Args(all) == Args(l) + PiecesArgs(ps)
    decreases |ps|
  {
    if ps == [] {
      all := l;
    } else {
      var piece, m := ps[0], ls[0];
      AndRenders(parts, l, piece, m);
      PieceMeans(piece, m, row, sem);
      all := AndAllMeans(Joined(parts, [AndT], piece.text, piece.params), Both(l, m), ps[1..], ls[1..], row, sem);
      And3Associates(Meaning(l, row, sem), Meaning(m, row, sem), PiecesMeaning(ps[1..], row, sem));
      ArgsAssociate(Args(l), Args(m), PiecesArgs(ps[1..]));
    }
  }

  /** A finished filter, as the compilers return it: a query in parentheses. */
  ghost predicate IsFilter(parts: seq<QueryPart>, l: Layout) {
    Renders(parts, Group(l)) && WellGrouped(l)
  }

  lemma {:induction false} FilterPieceHas(parts: seq<QueryPart>, l: Layout)
    requires IsFilter(parts, l)
    ensures PieceHas(Piece([Hole], [Nested(parts)]), Group(l))
  {
    SpliceOne([], [], parts);
    assert [Hole] == [] + [Hole] + [];
  }

  lemma {:induction false} ValuePieceHas(left: string, right: seq<Tok>, v: Value) returns (l: Layout)
    requires right == [] || (|right| == 1 && right[0].Frag?)
    ensures PieceHas(Piece([Frag(left), Hole] + right, [Val(v)]), l)
  {
    var c := Cond([Frag(left), Hole] + right, [v]);
    LeafLayoutIs(c);
    l := LeafLayout(c);
    NumberLayout(l, 0);
    PlainPart(c.text, [v]);
    assert Vals([v]) == [Val(v)];
  }

  function CursorWords(k: Key): seq<Word> {
    [Text("(" + "db" + "." + "project, " + "db.instance, " + "db.name) > ("), Arg(Str(k.project)), Text(", "), Arg(Str(k.instance)),
     Text(", "), Arg(Str(k.name)), Text(")")]
  }

  lemma {:induction false} TextThenArg(s: string, v: Value, rest: seq<Word>)
    ensures WriteHoles([Text(s), Arg(v)] + rest) == [Frag(s), Hole] + WriteHoles(rest)
    ensures WordArgs([Text(s), Arg(v)] + rest) == [v] + WordArgs(rest)
  {
    var words := [Text(s), Arg(v)] + rest;
    assert words[1..] == [Arg(v)] + rest && ([Arg(v)] + rest)[1..] == rest;
    assert WriteHoles(words[1..]) == [Hole] + WriteHoles(rest) && WordArgs(words[1..]) == [v] + WordArgs(rest);
  }

  lemma {:induction false} CursorTail(a: string, x: Value, b: string, y: Value, c: string, z: Value, d: string)
    ensures var words := [Text(a), Arg(x), Text(b), Arg(y), Text(c), Arg(z), Text(d)];
            WriteHoles(words) == [Frag(a), Hole, Frag(b), Hole, Frag(c), Hole, Frag(d)] && WordArgs(words) == [x, y, z]
  {
    var w3 := [Text(d)];
    var w2 := [Text(c), Arg(z)] + w3;
    var w1 := [Text(b), Arg(y)] + w2;
    OneWord(Text(d));
    TextThenArg(c, z, w3);
    TextThenArg(b, y, w2);
    TextThenArg(a, x, w1);
    Seven(Text(a), Arg(x), Text(b), Arg(y), Text(c), Arg(z), Text(d));
    Seven(Frag(a), Hole, Frag(b), Hole, Frag(c), Hole, Frag(d));
    assert [x] + ([y] + ([z] + [])) == [x, y, z];
  }

  lemma {:induction false} Seven<T>(a: T, b: T, c: T, d: T, e: T, f: T, g: T)
    ensures [a, b, c, d, e, f, g] == [a, b] + ([c, d] + ([e, f] + [g]))
  {
  }

  lemma {:induction false} CursorReads(k: Key)
    ensures WriteHoles(CursorWords(k)) == AFTER_CURSOR
    ensures WordArgs(CursorWords(k)) == [Str(k.project), Str(k.instance), Str(k.name)]
  {
    CursorTail(AFTER_CURSOR[0].text, Str(k.project), AFTER_CURSOR[2].text, Str(k.instance), AFTER_CURSOR[4].text, Str(k.name), AFTER_CURSOR[6].text);
  }

  /** Text with a value for each placeholder renders its words. */
  lemma {:induction false} PlainHas(words: seq<Word>)
    requires words != []
    ensures PieceHas(Piece(WriteHoles(words), Vals(WordArgs(words))), Plain(words))
  {
    NumberLayout(Plain(words), 0);
    PlainPart(WriteHoles(words), WordArgs(words));
  }

  lemma {:induction false} CursorPieceHas(k: Key)
    ensures PieceHas(Piece(AFTER_CURSOR, [Val(Str(k.project)), Val(Str(k.instance)), Val(Str(k.name))]), Plain(CursorWords(k)))
  {
    CursorReads(k);
    PlainHas(CursorWords(k));
    ThreeVals(Str(k.project), Str(k.instance), Str(k.name));
  }

  lemma {:induction false} ThreeVals(x: Value, y: Value, z: Value)
    ensures Vals([x, y, z]) == [Val(x), Val(y), Val(z)]
  {
  }

  lemma {:induction false} PiecesConcat(a: seq<Piece>, las: seq<Layout>, b: seq<Piece>, lbs: seq<Layout>)
    requires PiecesHave(a, las) && PiecesHave(b, lbs)
    ensures PiecesHave(a + b, las + lbs)
  {
  }

  lemma {:induction false} OnePiece(b: bool, left: string, right: seq<Tok>, v: Value, ps: seq<Piece>, ls: seq<Layout>) returns (ls': seq<Layout>)
    requires right == [] || (|right| == 1 && right[0].Frag?)
    requires PiecesHave(ps, ls)
    ensures PiecesHave(ps + If(b, PieceOf([Frag(left), Hole] + right, v)), ls')
  {
    if b {
      var l := ValuePieceHas(left, right, v);
      PiecesConcat(ps, ls, PieceOf([Frag(left), Hole] + right, v), [l]);
      ls' := ls + [l];
    } else {
      assert ps + [] == ps;
      ls' := ls;
    }
  }

  lemma {:induction false} SomePiece(column: string, v: Option<string>, ps: seq<Piece>, ls: seq<Layout>) returns (ls': seq<Layout>)
    requires PiecesHave(ps, ls)
    ensures PiecesHave(ps + IfSome(column, v), ls')
  {
    assert [Frag(column + " = "), Hole] + [] == [Frag(column + " = "), Hole];
    ls' := OnePiece(v.Some?, column + " = ", [], if v.Some? then Str(v.value) else Null, ps, ls);
  }

  /** Every condition of the clause is safe as an operand of AND. */
  lemma {:induction false} AllPiecesHave(f: Find, filter: Layout) returns (ls: seq<Layout>)
    requires f.filter.Some? ==> IsFilter(f.filter.value, filter)
    ensures PiecesHave(Pieces(f), ls)
  {
    ls := OtherPiecesHave(f, filter);
    if f.cursor.Some? && DecodeCursor(f.cursor.value).Some? {
      var k := DecodeCursor(f.cursor.value).value;
      CursorPieceHas(k);
      PiecesConcat(OtherPieces(f), ls, CursorPiece(f.cursor), [Plain(CursorWords(k))]);
      ls := ls + [Plain(CursorWords(k))];
    } else {
      assert OtherPieces(f) + [] == OtherPieces(f);
    }
  }

  lemma {:induction false} OtherPiecesHave(f: Find, filter: Layout) returns (ls: seq<Layout>)
    requires f.filter.Some? ==> IsFilter(f.filter.value, filter)
    ensures PiecesHave(OtherPieces(f), ls)
  {
    ls := [];
    if f.filter.Some? {
      FilterPieceHas(f.filter.value, filter);
      ls := [Group(filter)];
    }
    var p1 := FilterPiece(f.filter);
    assert WORKSPACE == WORKSPACE + [] && DELETED == DELETED + [] && NAME_LIST == [NAME_LIST[0], Hole] + [NAME_LIST[2]];
    ls := OnePiece(f.workspace != "", WORKSPACE[0].text, [], Str(f.workspace), p1, ls);
    var p2 := p1 + If(f.workspace != "", PieceOf(WORKSPACE, Str(f.workspace)));
    ls := SomePiece("db.project", f.project, p2, ls);
    var p3 := p2 + IfSome("db.project", f.project);
    ls := SomePiece("db.effective_environment", f.environment, p3, ls);
    var p4 := p3 + IfSome("db.effective_environment", f.environment);
    ls := SomePiece("db.instance", f.instance, p4, ls);
    var p5 := p4 + IfSome("db.instance", f.instance);
    ls := SomePiece("db.name", f.name, p5, ls);
    var p6 := p5 + IfSome("db.name", f.name);
    ls := OnePiece(|f.names| > 0, NAME_LIST[0].text, [NAME_LIST[2]], SqlText.Strings(f.names), p6, ls);
    var p7 := p6 + If(|f.names| > 0, PieceOf(NAME_LIST, SqlText.Strings(f.names)));
    ls := SomePiece("db.engine", f.engine, p7, ls);
    var p8 := p7 + IfSome("db.engine", f.engine);
    ls := OnePiece(!f.showDeleted, DELETED[0].text, [], Bool(false), p8, ls);
  }

  /** The WHERE clause, read with SQL's precedence, holds of a row exactly as all its conditions
      together do, whatever compiled filter is spliced into it; its arguments keep their order. */
  lemma {:induction false} WhereMeansAllConditions<Row>(f: Find, filter: Layout, row: Row, sem: Predicates<Row>) returns (q: Sql)
    requires f.filter.Some? ==> IsFilter(f.filter.value, filter)
    ensures ToSQL(WhereParts(f)).Ok? && ToSQL(WhereParts(f)).value.1 == PiecesArgs(Pieces(f))
    ensures ReadOr(ToSQL(WhereParts(f)).value.0) == Read(q, [])
    ensures Eval(q, PiecesArgs(Pieces(f)), row, sem) == PiecesMeaning(Pieces(f), row, sem)
  {
    var ls := AllPiecesHave(f, filter);
    q := AndedMeans(Pieces(f), ls, row, sem);
  }

  lemma {:induction false} AndedMeans<Row>(ps: seq<Piece>, ls: seq<Layout>, row: Row, sem: Predicates<Row>) returns (q: Sql)
    requires PiecesHave(ps, ls)
    ensures var sql := ToSQL(AndAll(Single([Frag("TRUE")], []), ps));
            sql.Ok? && sql.value.1 == PiecesArgs(ps) && ReadOr(sql.value.0) == Read(q, [])
    ensures Eval(q, PiecesArgs(ps), row, sem) == PiecesMeaning(ps, row, sem)
  {
    var l := TrueRenders();
    var start := Single([Frag("TRUE")], []);
    var all := AndAllMeans(start, l, ps, ls, row, sem);
    assert Args(all) == PiecesArgs(ps);
    assert Meaning(all, row, sem) == PiecesMeaning(ps, row, sem);
    q := RenderedSqlMeans(AndAll(start, ps), all, row, sem);
  }

  lemma {:induction false} TrueRenders() returns (l: Layout)
    ensures Renders(Single([Frag("TRUE")], []), l) && WellGrouped(l) && l == Plain([Text("TRUE")]) && Args(l) == []
  {
    l := Plain([Text("TRUE")]);
    OneWord(Text("TRUE"));
    assert [Frag("TRUE")][1..] == [];
    NoHoles([Frag("TRUE")]);
    SingleRaw([Frag("TRUE")], []);
  }

  /** In particular a filter spliced into the clause keeps the meaning its CEL tree has. */
  lemma {:induction false} FilterInWhere<Row>(e: Expr, env: Env, row: Row, sem: Predicates<Row>) returns (l: Layout)
    requires HasOperands(Databases, e) && Compile(Databases, e, env).Ok?
    ensures var parts := Parenthesized(Compile(Databases, e, env).value);
            IsFilter(parts, l) && PieceMeaning(Piece([Hole], [Nested(parts)]), row, sem) == CelMeaning(Databases, e, env, row, sem)
  {
    l := CompileIsFaithful(Databases, e, env, row, sem);
    var parts := Parenthesized(Compile(Databases, e, env).value);
    WrapRenders(Compile(Databases, e, env).value, l);
    FilterPieceHas(parts, l);
    PieceMeans(Piece([Hole], [Nested(parts)]), Group(l), row, sem);
  }

  // ---------------------------------------------------------------- the tables that the query names

  ghost predicate PieceAll(p: Piece, check: Check) { AllFrags(MakePart(p.text, p.params).text, check) }

  ghost predicate PiecesAll(ps: seq<Piece>, check: Check) {
    ps == [] || (PieceAll(ps[0], check) && PiecesAll(ps[1..], check))
  }

  lemma {:induction false} PiecesAllConcat(a: seq<Piece>, b: seq<Piece>, check: Check)
    ensures PiecesAll(a + b, check) <==> PiecesAll(a, check) && PiecesAll(b, check)
  {
    if a == [] {
      assert a + b == b;
    } else {
      assert (a + b)[1..] == a[1..] + b;
      PiecesAllConcat(a[1..], b, check);
    }
  }

  /** The fragments of the clause are those of its conditions. */
  lemma {:induction false} AndAllFrags(parts: seq<QueryPart>, ps: seq<Piece>, check: Check)
    requires parts != []
    ensures AllFrags(RawText(AndAll(parts, ps)), check) <==> AllFrags(RawText(parts), check) && PiecesAll(ps, check)
    decreases |ps|
  {
    if ps != [] {
      var j := Joined(parts, [AndT], ps[0].text, ps[0].params);
      var added := MakePart(ps[0].text, ps[0].params).text;
      MakePartHead(AndT, ps[0].text, ps[0].params);
      assert j[..|j|-1] == parts && RawText(j) == RawText(parts) + ([AndT] + added);
      ConcatFrags(RawText(parts), [AndT] + added, check);
      ConcatFrags([AndT], added, check);
      AndAllFrags(j, ps[1..], check);
    }
  }

  lemma {:induction false} FilterPieceFrags(q: seq<QueryPart>, check: Check)
    requires !Failed(q)
    ensures PiecesAll(FilterPiece(Some(q)), check) <==> AllFrags(RawText(q), check)
  {
    SpliceOne([], [], q);
    assert [Hole] == [] + [Hole] + [] && [] + RawText(q) + [] == RawText(q);
    assert FilterPiece(Some(q))[1..] == [];
  }

  lemma {:induction false} ValueHoles(left: string, right: seq<Tok>)
    requires right == [] || (|right| == 1 && right[0].Frag?)
    ensures HoleCount([Frag(left), Hole] + right) == 1
  {
    var text := [Frag(left), Hole] + right;
    assert text[1..] == [Hole] + right && ([Hole] + right)[1..] == right;
    if right != [] { assert right[1..] == [] && HoleCount(right) == HoleCount(right[1..]); }
    assert HoleCount(text) == HoleCount([Hole] + right) == 1 + HoleCount(right);
  }

  lemma {:induction false} ValueText(text: seq<Tok>, left: string, right: seq<Tok>, v: Value)
    requires text == [Frag(left), Hole] + right && (right == [] || (|right| == 1 && right[0].Frag?))
    ensures MakePart(text, [Val(v)]).text == text
  {
    ValueHoles(left, right);
    PlainPart(text, [v]);
    assert Vals([v]) == [Val(v)];
  }

  lemma {:induction false} AsItStands(p: Piece, check: Check)
    requires MakePart(p.text, p.params).text == p.text
    ensures PieceAll(p, check) <==> AllFrags(p.text, check)
  {
  }

  lemma {:induction false} ValueFrags(text: seq<Tok>, left: string, right: seq<Tok>, check: Check)
    requires text == [Frag(left), Hole] + right && forall t :: t in right && t.Frag? ==> check(t.text)
    ensures AllFrags(text, check) <==> check(left)
  {
    ConcatFrags([Frag(left), Hole], right, check);
    OneFrag(left, check);
  }

  lemma {:induction false} OneFrag(left: string, check: Check)
    ensures AllFrags([Frag(left), Hole], check) <==> check(left)
  {
    assert [Frag(left), Hole][0] == Frag(left);
  }

  lemma {:induction false} LastPasses(right: seq<Tok>, check: Check)
    requires right == [] || (|right| == 1 && right[0].Frag? && check(right[0].text))
    ensures forall t :: t in right && t.Frag? ==> check(t.text)
  {
  }

  lemma {:induction false} OnePieceAll(p: Piece, check: Check)
    ensures PiecesAll([p], check) <==> PieceAll(p, check)
  {
    assert [p][1..] == [];
  }

  lemma {:induction false} OnePieceFrags(b: bool, left: string, right: seq<Tok>, v: Value, ps: seq<Piece>, check: Check)
    requires check(left) && (right == [] || (|right| == 1 && right[0].Frag? && check(right[0].text)))
    ensures PiecesAll(ps + If(b, PieceOf([Frag(left), Hole] + right, v)), check) <==> PiecesAll(ps, check)
  {
    var text := [Frag(left), Hole] + right;
    PiecesAllConcat(ps, If(b, PieceOf(text, v)), check);
    if b { ValueFits(text, left, right, v, check); }
  }

  lemma {:induction false} ValueFits(text: seq<Tok>, left: string, right: seq<Tok>, v: Value, check: Check)
    requires text == [Frag(left), Hole] + right && check(left)
    requires right == [] || (|right| == 1 && right[0].Frag? && check(right[0].text))
    ensures PiecesAll(PieceOf(text, v), check)
  {
    ValueText(text, left, right, v);
    LastPasses(right, check);
    ValueFrags(text, left, right, check);
    AsItStands(Piece(text, [Val(v)]), check);
    OnePieceAll(Piece(text, [Val(v)]), check);
  }

  lemma {:induction false} EqualsText(column: string)
    requires "db" + "." <= column && forall k :: 2 < k < |column| ==> column[k] != '.'
    ensures NamesOnly(column + " = ", "db")
  {
    assert column + " = " == "" + "db" + "." + (column[3..] + " = ");
    OneNameOnly(column + " = ", "", "db", column[3..] + " = ");
  }

  lemma {:induction false} SomePieceFrags(column: string, v: Option<string>, ps: seq<Piece>, from: set<string>)
    requires NamesOnly(column + " = ", "db") && "db" in from
    ensures PiecesAll(ps + IfSome(column, v), ScopeCheck(from)) <==> PiecesAll(ps, ScopeCheck(from))
  {
    assert [Frag(column + " = "), Hole] + [] == [Frag(column + " = "), Hole];
    OnePieceFrags(v.Some?, column + " = ", [], if v.Some? then Str(v.value) else Null, ps, ScopeCheck(from));
  }

  lemma {:induction false} ProjectFrags(v: Option<string>, ps: seq<Piece>, from: set<string>)
    requires "db" in from
    ensures PiecesAll(ps + IfSome("db.project", v), ScopeCheck(from)) <==> PiecesAll(ps, ScopeCheck(from))
  {
    EqualsText("db.project");
    SomePieceFrags("db.project", v, ps, from);
  }

  lemma {:induction false} EnvironmentFrags(v: Option<string>, ps: seq<Piece>, from: set<string>)
    requires "db" in from
    ensures PiecesAll(ps + IfSome("db.effective_environment", v), ScopeCheck(from)) <==> PiecesAll(ps, ScopeCheck(from))
  {
    EqualsText("db.effective_environment");
    SomePieceFrags("db.effective_environment", v, ps, from);
  }

  lemma {:induction false} InstanceColumnFrags(v: Option<string>, ps: seq<Piece>, from: set<string>)
    requires "db" in from
    ensures PiecesAll(ps + IfSome("db.instance", v), ScopeCheck(from)) <==> PiecesAll(ps, ScopeCheck(from))
  {
    EqualsText("db.instance");
    SomePieceFrags("db.instance", v, ps, from);
  }

  lemma {:induction false} NameFrags(v: Option<string>, ps: seq<Piece>, from: set<string>)
    requires "db" in from
    ensures PiecesAll(ps + IfSome("db.name", v), ScopeCheck(from)) <==> PiecesAll(ps, ScopeCheck(from))
  {
    EqualsText("db.name");
    SomePieceFrags("db.name", v, ps, from);
  }

  lemma {:induction false} EngineColumnFrags(v: Option<string>, ps: seq<Piece>, from: set<string>)
    requires "db" in from
    ensures PiecesAll(ps + IfSome("db.engine", v), ScopeCheck(from)) <==> PiecesAll(ps, ScopeCheck(from))
  {
    EqualsText("db.engine");
    SomePieceFrags("db.engine", v, ps, from);
  }

  lemma {:induction false} WorkspaceFrags(b: bool, v: Value, ps: seq<Piece>, from: set<string>)
    requires "db" in from
    ensures PiecesAll(ps + If(b, PieceOf(WORKSPACE, v)), ScopeCheck(from)) <==> PiecesAll(ps, ScopeCheck(from))
  {
    ColumnText(WORKSPACE[0].text, "db");
    assert WORKSPACE == [WORKSPACE[0], Hole] + [];
    OnePieceFrags(b, WORKSPACE[0].text, [], v, ps, ScopeCheck(from));
  }

  lemma {:induction false} NameListFrags(b: bool, v: Value, ps: seq<Piece>, from: set<string>)
    requires "db" in from
    ensures PiecesAll(ps + If(b, PieceOf(NAME_LIST, v)), ScopeCheck(from)) <==> PiecesAll(ps, ScopeCheck(from))
  {
    ColumnText(NAME_LIST[0].text, "db");
    CloseText();
    assert NAME_LIST == [NAME_LIST[0], Hole] + [NAME_LIST[2]];
    OnePieceFrags(b, NAME_LIST[0].text, [NAME_LIST[2]], v, ps, ScopeCheck(from));
  }

  lemma {:induction false} DeletedFrags(b: bool, v: Value, ps: seq<Piece>, from: set<string>)
    requires "db" in from
    ensures PiecesAll(ps + If(b, PieceOf(DELETED, v)), ScopeCheck(from)) <==> PiecesAll(ps, ScopeCheck(from))
  {
    ColumnText(DELETED[0].text, "db");
    assert DELETED == [DELETED[0], Hole] + [];
    OnePieceFrags(b, DELETED[0].text, [], v, ps, ScopeCheck(from));
  }

  lemma {:induction false} CursorText()
    ensures forall from :: "db" in from ==> InScope(AFTER_CURSOR[0].text, from)
  {
    var a, b, c := "(" + "db" + "." + "project, ", "db.instance, ", "db.name) > (";
    CursorTextHead();
    CursorTextMiddle();
    CursorTextTail();
    forall from | "db" in from ensures InScope(a + b + c, from) {
      ScopeConcat(a, b, from);
      ScopeConcat(a + b, c, from);
    }
  }

  lemma {:induction false} CursorTextHead()
    ensures NamesOnly("(" + "db" + "." + "project, ", "db") && '\'' !in "(" + "db" + "." + "project, "
  {
    OneNameOnly("(" + "db" + "." + "project, ", "(", "db", "project, ");
  }

  lemma {:induction false} CursorTextMiddle()
    ensures NamesOnly("db.instance, ", "db") && '\'' !in "db.instance, "
  {
    ColumnText("db.instance, ", "db");
  }

  lemma {:induction false} CursorTextTail()
    ensures NamesOnly("db.name) > (", "db")
  {
    ColumnText("db.name) > (", "db");
  }

  lemma {:induction false} CursorFrags(from: set<string>)
    requires "db" in from
    ensures AllFrags(AFTER_CURSOR, ScopeCheck(from))
  {
    CursorText();
    DotFreeText(", ");
    CloseText();
  }

  lemma {:induction false} CursorPieceFrags(cursor: Option<string>, from: set<string>)
    requires "db" in from
    ensures PiecesAll(CursorPiece(cursor), ScopeCheck(from))
  {
    if cursor.Some? && DecodeCursor(cursor.value).Some? {
      var k := DecodeCursor(cursor.value).value;
      CursorPieceHas(k);
      CursorReads(k);
      CursorFrags(from);
      assert CursorPiece(cursor)[1..] == [];
    }
  }

  /** All conditions but a filter name columns of `db` alone. */
  lemma {:induction false} OtherPiecesFrags(f: Find, from: set<string>)
    requires "db" in from
    ensures PiecesAll(Pieces(f), ScopeCheck(from)) <==> PiecesAll(FilterPiece(f.filter), ScopeCheck(from))
  {
    var check := ScopeCheck(from);
    var p1 := FilterPiece(f.filter);
    WorkspaceFrags(f.workspace != "", Str(f.workspace), p1, from);
    var p2 := p1 + If(f.workspace != "", PieceOf(WORKSPACE, Str(f.workspace)));
    ProjectFrags(f.project, p2, from);
    var p3 := p2 + IfSome("db.project", f.project);
    EnvironmentFrags(f.environment, p3, from);
    var p4 := p3 + IfSome("db.effective_environment", f.environment);
    InstanceColumnFrags(f.instance, p4, from);
    var p5 := p4 + IfSome("db.instance", f.instance);
    NameFrags(f.name, p5, from);
    var p6 := p5 + IfSome("db.name", f.name);
    NameListFrags(|f.names| > 0, SqlText.Strings(f.names), p6, from);
    var p7 := p6 + If(|f.names| > 0, PieceOf(NAME_LIST, SqlText.Strings(f.names)));
    EngineColumnFrags(f.engine, p7, from);
    var p8 := p7 + IfSome("db.engine", f.engine);
    DeletedFrags(!f.showDeleted, Bool(false), p8, from);
    PiecesAllConcat(OtherPieces(f), CursorPiece(f.cursor), check);
    CursorPieceFrags(f.cursor, from);
  }

  lemma {:induction false} WhereFrags(f: Find, filter: Layout, from: set<string>)
    requires (f.filter.Some? ==> IsFilter(f.filter.value, filter)) && "db" in from
    ensures ToSQL(WhereParts(f)).Ok?
    ensures AllFrags(ToSQL(WhereParts(f)).value.0, ScopeCheck(from)) <==>
            (f.filter.Some? ==> AllFrags(RawText(f.filter.value), ScopeCheck(from)))
  {
    var q := WhereMeansAllConditions(f, filter, 0, NoRow());
    NumberedFrags(RawText(WhereParts(f)), 0, ScopeCheck(from));
    ClauseFrags(Pieces(f), from);
    OtherPiecesFrags(f, from);
    if f.filter.Some? { FilterPieceFrags(f.filter.value, ScopeCheck(from)); }
  }

  lemma {:induction false} ClauseFrags(ps: seq<Piece>, from: set<string>)
    ensures AllFrags(RawText(AndAll(Single([Frag("TRUE")], []), ps)), ScopeCheck(from)) <==> PiecesAll(ps, ScopeCheck(from))
  {
    var l := TrueRenders();
    OneWord(Text("TRUE"));
    DotFreeText("TRUE");
    AndAllFrags(Single([Frag("TRUE")], []), ps, ScopeCheck(from));
  }

  /** PostgreSQL refuses a query whose text names a table that FROM does not have. */
  ghost predicate Accepted(f: Find) {
    match ToSQL(WhereParts(f))
    case Error => false
    case Ok(sql) => AllFrags(sql.0, ScopeCheck(Tables(f)))
  }

  /** The filter is the compiled form of `e`, if there is one. */
  ghost predicate HasFilter(f: Find, e: Option<Expr>, env: Env) {
    match e
    case None => f.filter.None?
    case Some(x) =>
      && HasOperands(Databases, x) && !SomeLeaf(Databases, x, QuoteInName)
      && Compile(Databases, x, env).Ok? && f.filter == Some(Parenthesized(Compile(Databases, x, env).value))
  }

  ghost predicate SomeLeafOfFilter(e: Option<Expr>, which: Selector) { e.Some? && SomeLeaf(Databases, e.value, which) }

  /** The schema table is joined exactly when a leaf compares a table, or a label whose name holds
      the text looked for. */
  lemma {:induction false} JoinsIff(f: Find, e: Option<Expr>, env: Env)
    requires HasFilter(f, e, env)
    ensures JoinsSchema(f.filter) <==> SomeLeafOfFilter(e, MentionsSchema)
  {
    if e.Some? { FilterMentions(e.value, env); }
  }

  lemma {:induction false} TableMentions(d: Dialect, e: Expr)
    ensures SomeLeaf(d, e, ComparesTable) ==> SomeLeaf(d, e, MentionsSchema)
    decreases e, 1
  {
    if IsOr(d, e) || IsAnd(e) || IsNot(d, e) { TableMentionsOf(d, e.args); }
  }

  lemma {:induction false} TableMentionsOf(d: Dialect, es: seq<Expr>)
    ensures SomeLeafOf(d, es, ComparesTable) ==> SomeLeafOf(d, es, MentionsSchema)
    decreases es, 0
  {
    if es != [] {
      TableMentions(d, es[0]);
      TableMentionsOf(d, es[1..]);
    }
  }

  lemma {:induction false} FilteredFrags(f: Find, e: Expr, env: Env, from: set<string>)
    requires HasFilter(f, Some(e), env) && "db" in from
    ensures ToSQL(WhereParts(f)).Ok? && ToSQL(f.filter.value).Ok?
    ensures AllFrags(ToSQL(WhereParts(f)).value.0, ScopeCheck(from)) <==> AllFrags(ToSQL(f.filter.value).value.0, ScopeCheck(from))
  {
    var q := Compile(Databases, e, env).value;
    var l := CompileIsFaithful(Databases, e, env, 0, NoRow());
    WrapRenders(q, l);
    WhereFrags(f, l, from);
    NumberedFrags(RawText(Parenthesized(q)), 0, ScopeCheck(from));
    ParenthesizedFrags(e, env, ScopeCheck(from));
  }

  lemma {:induction false} TablesInScope(f: Find, e: Expr, env: Env)
    requires HasFilter(f, Some(e), env)
    ensures ToSQL(f.filter.value).Ok?
    ensures AllFrags(ToSQL(f.filter.value).value.0, ScopeCheck(Tables(f))) <==> !SomeLeaf(Databases, e, ComparesInstance)
  {
    FilterInScope(e, env, Tables(f));
    JoinsIff(f, Some(e), env);
    TableMentions(Databases, e);
  }

  /** The listing is refused exactly when a leaf of its filter compares an environment or an
      engine: these compile to columns of a table that FROM never has. */
  lemma {:induction false} AcceptedIff(f: Find, e: Option<Expr>, env: Env)
    requires HasFilter(f, e, env)
    ensures Accepted(f) <==> !SomeLeafOfFilter(e, ComparesInstance)
  {
    if e.None? {
      WhereFrags(f, Plain([]), Tables(f));
    } else {
      FilteredFrags(f, e.value, env, Tables(f));
      TablesInScope(f, e.value, env);
    }
  }

  // ---------------------------------------------------------------- the page a query returns

  /** PostgreSQL's reading of the cursor condition: the row's key comes after the cursor's. */
  ghost predicate ReadsCursor<Row(!new)>(sem: Predicates<Row>, key: Row -> Key, lt: (string, string) -> bool) {
    forall k, row :: sem(CursorWords(k), row) == if KeyLess(k, key(row), lt) then True else False
  }

  lemma {:induction false} CursorMeans<Row>(k: Key, row: Row, sem: Predicates<Row>)
    ensures PieceMeaning(Piece(AFTER_CURSOR, [Val(Str(k.project)), Val(Str(k.instance)), Val(Str(k.name))]), row, sem) == sem(CursorWords(k), row)
  {
    CursorPieceHas(k);
    PieceMeans(Piece(AFTER_CURSOR, [Val(Str(k.project)), Val(Str(k.instance)), Val(Str(k.name))]), Plain(CursorWords(k)), row, sem);
    assert |CursorWords(k)| == 7;
  }

  lemma {:induction false} AllOfAppend(ps: seq<Piece>, p: Piece, meaning: Meanings)
    ensures AllOf(ps + [p], meaning) == True <==> AllOf(ps, meaning) == True && meaning(p) == True
  {
    if ps == [] {
      assert ps + [p] == [p] && [p][1..] == [];
    } else {
      AllOfAppend(ps[1..], p, meaning);
      assert (ps + [p])[1..] == ps[1..] + [p];
    }
  }

  function With<Row>(rows: seq<Row>, keep: Row -> bool): seq<Row> {
    if rows == [] then [] else (if keep(rows[0]) then [rows[0]] else []) + With(rows[1..], keep)
  }

  /** The rows on which the clause is true. */
  ghost function TrueOn<Row>(f: Find, sem: Predicates<Row>): Row -> bool { row => PiecesMeaning(Pieces(f), row, sem) == True }

  /** These rows, in table order. */
  ghost function Listed<Row>(rows: seq<Row>, f: Find, sem: Predicates<Row>): seq<Row> { With(rows, TrueOn(f, sem)) }

  function KeysOf<Row>(rows: seq<Row>, key: Row -> Key): (keys: seq<Key>)
    ensures |keys| == |rows|
  {
    if rows == [] then [] else [key(rows[0])] + KeysOf(rows[1..], key)
  }

  ghost predicate HasCursor(f: Find, k: Key) { f.cursor.Some? && DecodeCursor(f.cursor.value) == Some(k) }

  /** The cursor's condition comes last. */
  lemma {:induction false} CursorIsLast(f: Find, k: Key)
    requires HasCursor(f, k)
    ensures Pieces(f) == Pieces(f.(cursor := None)) +
              [Piece(AFTER_CURSOR, [Val(Str(k.project)), Val(Str(k.instance)), Val(Str(k.name))])]
  {
    assert OtherPieces(f) + [] == OtherPieces(f) == OtherPieces(f.(cursor := None));
  }

  lemma {:induction false} CursorAdds<Row(!new)>(f: Find, k: Key, row: Row, sem: Predicates<Row>, key: Row -> Key, lt: (string, string) -> bool)
    requires ReadsCursor(sem, key, lt) && HasCursor(f, k)
    ensures PiecesMeaning(Pieces(f), row, sem) == True <==>
            PiecesMeaning(Pieces(f.(cursor := None)), row, sem) == True && KeyLess(k, key(row), lt)
  {
    var c := Piece(AFTER_CURSOR, [Val(Str(k.project)), Val(Str(k.instance)), Val(Str(k.name))]);
    CursorIsLast(f, k);
    AllOfAppend(Pieces(f.(cursor := None)), c, MeaningsOn(row, sem));
    CursorMeans(k, row, sem);
    assert MeaningsOn(row, sem)(c) == sem(CursorWords(k), row);
  }

  /** With the cursor the clause is true on exactly the later rows among those it is true on without. */
  lemma {:induction false} CursorSelects<Row(!new)>(rows: seq<Row>, f: Find, k: Key, sem: Predicates<Row>, key: Row -> Key, lt: (string, string) -> bool)
    requires ReadsCursor(sem, key, lt) && HasCursor(f, k)
    ensures KeysOf(Listed(rows, f, sem), key) == RowsAfter(KeysOf(Listed(rows, f.(cursor := None), sem), key), k, lt)
  {
    var with, without := TrueOn(f, sem), TrueOn(f.(cursor := None), sem);
    forall r ensures with(r) <==> without(r) && KeyLess(k, key(r), lt) { CursorAdds(f, k, r, sem, key, lt); }
    LaterRows(rows, with, without, k, key, lt);
  }

  lemma {:induction false} LaterRows<Row(!new)>(rows: seq<Row>, with: Row -> bool, without: Row -> bool, k: Key, key: Row -> Key, lt: (string, string) -> bool)
    requires forall r :: with(r) <==> without(r) && KeyLess(k, key(r), lt)
    ensures KeysOf(With(rows, with), key) == RowsAfter(KeysOf(With(rows, without), key), k, lt)
  {
    if rows != [] {
      LaterRows(rows[1..], with, without, k, key, lt);
      AddRow(rows[0], With(rows[1..], with), key);
      AddRow(rows[0], With(rows[1..], without), key);
    }
  }

  lemma {:induction false} AddRow<Row>(row: Row, rows: seq<Row>, key: Row -> Key)
    ensures KeysOf([row] + rows, key) == [key(row)] + KeysOf(rows, key)
    ensures ([key(row)] + KeysOf(rows, key))[1..] == KeysOf(rows, key)
    ensures [] + rows == rows
  {
    assert ([row] + rows)[1..] == rows;
  }

  /** The databases that FROM has: all, or those with a schema row once that table is joined. */
  function Selected<Row>(rows: seq<Row>, f: Find, hasSchema: Row -> bool): seq<Row> {
    if JoinsSchema(f.filter) then With(rows, hasSchema) else rows
  }

  /** What the query answers on a table in key order: nothing if it is refused, or else the first
      rows of FROM on which the clause is true, as many as the limit. */
  ghost function Answer<Row>(rows: seq<Row>, f: Find, limit: nat, sem: Predicates<Row>, hasSchema: Row -> bool): Option<seq<Row>> {
    if !Accepted(f) then None
    else Some(First(Listed(Selected(rows, f, hasSchema), f, sem), limit))
  }

  /** A page is what the assembled query answers. It is refused exactly when the filter compares
      an environment or an engine; otherwise, on any table in key order, with any other conditions,
      it is the page after the cursor of the rows of FROM on which the clause without it is true. */
  lemma {:induction false} PageIsQuery<Row(!new)>(rows: seq<Row>, f: Find, e: Option<Expr>, env: Env, limit: nat, sem: Predicates<Row>,
                                                  hasSchema: Row -> bool, key: Row -> Key, lt: (string, string) -> bool)
    requires ReadsCursor(sem, key, lt) && HasFilter(f, e, env)
    ensures var answer := Answer(rows, f, limit, sem, hasSchema);
            && (answer.None? <==> SomeLeafOfFilter(e, ComparesInstance))
            && (answer.Some? ==>
                  KeysOf(answer.value, key) ==
                  Page(KeysOf(Listed(Selected(rows, f, hasSchema), f.(cursor := None), sem), key), f.cursor, limit, lt))
  {
    AcceptedIff(f, e, env);
    PageOfListed(Selected(rows, f, hasSchema), f, limit, sem, key, lt);
  }

  lemma {:induction false} PageOfListed<Row(!new)>(rows: seq<Row>, f: Find, limit: nat, sem: Predicates<Row>, key: Row -> Key, lt: (string, string) -> bool)
    requires ReadsCursor(sem, key, lt)
    ensures KeysOf(First(Listed(rows, f, sem), limit), key) == Page(KeysOf(Listed(rows, f.(cursor := None), sem), key), f.cursor, limit, lt)
  {
    AfterCursor(rows, f, sem, key, lt);
    FirstKeys(Listed(rows, f, sem), limit, key);
  }

  lemma {:induction false} AfterCursor<Row(!new)>(rows: seq<Row>, f: Find, sem: Predicates<Row>, key: Row -> Key, lt: (string, string) -> bool)
    requires ReadsCursor(sem, key, lt)
    ensures var all := KeysOf(Listed(rows, f.(cursor := None), sem), key);
            KeysOf(Listed(rows, f, sem), key) ==
            if f.cursor.Some? && DecodeCursor(f.cursor.value).Some? then RowsAfter(all, DecodeCursor(f.cursor.value).value, lt) else all
  {
    if f.cursor.Some? && DecodeCursor(f.cursor.value).Some? {
      CursorSelects(rows, f, DecodeCursor(f.cursor.value).value, sem, key, lt);
    } else {
      assert Pieces(f) == Pieces(f.(cursor := None));
      SameWith(rows, TrueOn(f, sem), TrueOn(f.(cursor := None), sem));
    }
  }

  lemma {:induction false} FirstKeys<Row>(rows: seq<Row>, n: nat, key: Row -> Key)
    ensures n <= |rows| ==> KeysOf(rows[..n], key) == KeysOf(rows, key)[..n]
  {
    if 0 < n <= |rows| {
      FirstKeys(rows[1..], n - 1, key);
      assert rows[..n] == [rows[0]] + rows[1..][..n-1];
      AddRow(rows[0], rows[1..][..n-1], key);
    }
  }

  lemma {:induction false} SameWith<Row(!new)>(rows: seq<Row>, a: Row -> bool, b: Row -> bool)
    requires forall r :: a(r) == b(r)
    ensures With(rows, a) == With(rows, b)
  {
    if rows != [] { SameWith(rows[1..], a, b); }
  }

  // ---------------------------------------------------------------- what the join leaves out

  lemma {:induction false} WithAll<Row>(rows: seq<Row>, keep: Row -> bool)
    ensures forall r :: r in With(rows, keep) <==> r in rows && keep(r)
    ensures |With(rows, keep)| <= |rows|
  {
    if rows != [] { WithAll(rows[1..], keep); }
  }

  /** The join leaves a filter's rows as they are exactly when each of them has a schema row. */
  lemma {:induction false} NothingLostIff<Row>(rows: seq<Row>, f: Find, sem: Predicates<Row>, hasSchema: Row -> bool)
    ensures Listed(Selected(rows, f, hasSchema), f, sem) == Listed(rows, f, sem) <==>
            (JoinsSchema(f.filter) ==> forall r :: r in rows && TrueOn(f, sem)(r) ==> hasSchema(r))
  {
    if JoinsSchema(f.filter) { KeptIff(rows, TrueOn(f, sem), hasSchema); }
  }

  lemma {:induction false} KeptIff<Row>(rows: seq<Row>, wanted: Row -> bool, keep: Row -> bool)
    ensures With(With(rows, keep), wanted) == With(rows, wanted) <==> forall r :: r in rows && wanted(r) ==> keep(r)
  {
    var listed := With(rows, wanted);
    WithWith(rows, keep, wanted);
    WithAll(rows, wanted);
    AllKept(listed, keep);
    assert With(With(rows, keep), wanted) == With(listed, keep);
    if With(listed, keep) == listed {
      forall r | r in rows && wanted(r) ensures keep(r) { assert r in listed; }
    } else {
      var r :| r in listed && !keep(r);
      assert r in rows && wanted(r);
    }
  }

  lemma {:induction false} WithWith<Row>(rows: seq<Row>, a: Row -> bool, b: Row -> bool)
    ensures With(With(rows, a), b) == With(With(rows, b), a)
  {
    if rows != [] {
      WithWith(rows[1..], a, b);
      WithHead(rows[0], With(rows[1..], a), b);
      WithHead(rows[0], With(rows[1..], b), a);
    }
  }

  lemma {:induction false} WithHead<Row>(row: Row, rows: seq<Row>, keep: Row -> bool)
    ensures With([row] + rows, keep) == (if keep(row) then [row] else []) + With(rows, keep)
    ensures [] + rows == rows
  {
    assert ([row] + rows)[1..] == rows;
  }

  lemma {:induction false} AllKept<Row>(rows: seq<Row>, keep: Row -> bool)
    ensures With(rows, keep) == rows <==> forall r :: r in rows ==> keep(r)
  {
    if rows != [] {
      AllKept(rows[1..], keep);
      WithAll(rows[1..], keep);
      if keep(rows[0]) {
        assert ([rows[0]] + With(rows[1..], keep))[1..] == With(rows[1..], keep);
        assert rows == [rows[0]] + rows[1..];
      }
    }
  }

  // ---------------------------------------------------------------- which databases are listed

  /** The columns that the conditions read; the effective environment and the engine may be NULL. */
  datatype Database = Database(workspace: string, project: string, effectiveEnvironment: Option<string>, instance: string, name: string,
                               engine: Option<string>, deleted: bool)

  function Truth(b: bool): Tri { if b then True else False }

  /** A comparison with NULL is unknown. */
  function Among(column: Option<string>, ss: seq<string>): Tri { if column.Some? then Truth(column.value in ss) else Unknown }

  ghost predicate ReadsText<Row(!new)>(sem: Predicates<Row>, text: string, column: Row -> Option<string>) {
    forall s, r :: sem([Text(text), Arg(Str(s))], r) == Among(column(r), [s])
  }

  /** PostgreSQL's reading of the conditions, of rows that hold a database. */
  ghost predicate ReadsFind<Row(!new)>(sem: Predicates<Row>, db: Row -> Database) {
    && ReadsText(sem, "db.workspace = ", r => Some(db(r).workspace)) && ReadsText(sem, "db.project = ", r => Some(db(r).project))
    && ReadsText(sem, "db.effective_environment = ", r => db(r).effectiveEnvironment) && ReadsText(sem, "db.instance = ", r => Some(db(r).instance))
    && ReadsText(sem, "db.name = ", r => Some(db(r).name)) && ReadsText(sem, "db.engine = ", r => db(r).engine)
    && ReadsNames(sem, db) && ReadsDeleted(sem, db)
  }

  ghost predicate ReadsNames<Row(!new)>(sem: Predicates<Row>, db: Row -> Database) {
    forall ss, r :: sem([Text("db.name = ANY("), Arg(SqlText.Strings(ss)), Text(")")], r) == Truth(db(r).name in ss)
  }

  ghost predicate ReadsDeleted<Row(!new)>(sem: Predicates<Row>, db: Row -> Database) {
    forall b, r :: sem([Text("db.deleted = "), Arg(Bool(b))], r) == Truth(db(r).deleted == b)
  }

  lemma {:induction false} AllOfConcat(a: seq<Piece>, b: seq<Piece>, meaning: Meanings)
    ensures AllOf(a + b, meaning) == True <==> AllOf(a, meaning) == True && AllOf(b, meaning) == True
  {
    if a == [] {
      assert a + b == b;
    } else {
      assert (a + b)[1..] == a[1..] + b;
      AllOfConcat(a[1..], b, meaning);
    }
  }

  lemma {:induction false} ValueAlone<Row>(text: seq<Tok>, left: string, v: Value, row: Row, sem: Predicates<Row>)
    requires text == [Frag(left), Hole]
    ensures PieceMeaning(Piece(text, [Val(v)]), row, sem) == sem([Text(left), Arg(v)], row)
  {
    var c := Cond(text, [v]);
    CondPieceHas(c, v);
    PieceMeans(Piece(text, [Val(v)]), LeafLayout(c), row, sem);
    assert LeafLayout(c) == Plain([Text(left), Arg(v)]);
  }

  lemma {:induction false} ValueInside<Row>(text: seq<Tok>, left: string, right: string, v: Value, row: Row, sem: Predicates<Row>)
    requires text == [Frag(left), Hole, Frag(right)]
    ensures PieceMeaning(Piece(text, [Val(v)]), row, sem) == sem([Text(left), Arg(v), Text(right)], row)
  {
    var c := Cond(text, [v]);
    CondPieceHas(c, v);
    PieceMeans(Piece(text, [Val(v)]), LeafLayout(c), row, sem);
    assert LeafLayout(c) == Plain([Text(left), Arg(v), Text(right)]);
  }

  lemma {:induction false} CondPieceHas(c: Cond, v: Value)
    requires LeafText(c) && c.values == [v]
    ensures PieceHas(Piece(c.text, [Val(v)]), LeafLayout(c))
  {
    LeafLayoutIs(c);
    NumberLayout(LeafLayout(c), 0);
    PlainPart(c.text, [v]);
    assert Vals([v]) == [Val(v)];
  }

  /** One more condition, if it is there. */
  lemma {:induction false} OneMorePiece<Row>(b: bool, text: seq<Tok>, v: Value, ps: seq<Piece>, row: Row, sem: Predicates<Row>)
    ensures AllOf(ps + If(b, PieceOf(text, v)), MeaningsOn(row, sem)) == True <==>
            AllOf(ps, MeaningsOn(row, sem)) == True && (b ==> PieceMeaning(Piece(text, [Val(v)]), row, sem) == True)
  {
    AllOfConcat(ps, If(b, PieceOf(text, v)), MeaningsOn(row, sem));
    if b {
      assert PieceOf(text, v)[1..] == [];
      assert MeaningsOn(row, sem)(PieceOf(text, v)[0]) == PieceMeaning(Piece(text, [Val(v)]), row, sem);
    }
  }

  lemma {:induction false} OneMoreText<Row(!new)>(b: bool, text: seq<Tok>, left: string, s: string, ps: seq<Piece>, row: Row, sem: Predicates<Row>,
                                                  value: Row -> Option<string>)
    requires text == [Frag(left), Hole] && ReadsText(sem, left, value)
    ensures AllOf(ps + If(b, PieceOf(text, Str(s))), MeaningsOn(row, sem)) == True <==>
            AllOf(ps, MeaningsOn(row, sem)) == True && (b ==> value(row) == Some(s))
  {
    OneMorePiece(b, text, Str(s), ps, row, sem);
    ValueAlone(text, left, Str(s), row, sem);
    assert Among(value(row), [s]) == True <==> value(row) == Some(s);
  }

  lemma {:induction false} OneMoreColumn<Row(!new)>(column: string, v: Option<string>, ps: seq<Piece>, row: Row, sem: Predicates<Row>,
                                                    value: Row -> Option<string>)
    requires ReadsText(sem, column + " = ", value)
    ensures AllOf(ps + IfSome(column, v), MeaningsOn(row, sem)) == True <==>
            AllOf(ps, MeaningsOn(row, sem)) == True && (v.Some? ==> value(row) == v)
  {
    OneMoreText(v.Some?, [Frag(column + " = "), Hole], column + " = ", if v.Some? then v.value else "", ps, row, sem, value);
  }

  lemma {:induction false} ProjectCondition<Row(!new)>(v: Option<string>, ps: seq<Piece>, row: Row, sem: Predicates<Row>, db: Row -> Database)
    requires ReadsFind(sem, db)
    ensures AllOf(ps + IfSome("db.project", v), MeaningsOn(row, sem)) == True <==>
            AllOf(ps, MeaningsOn(row, sem)) == True && (v.Some? ==> db(row).project == v.value)
  {
    assert "db.project" + " = " == "db.project = ";
    OneMoreColumn("db.project", v, ps, row, sem, r => Some(db(r).project));
  }

  lemma {:induction false} EnvironmentCondition<Row(!new)>(v: Option<string>, ps: seq<Piece>, row: Row, sem: Predicates<Row>, db: Row -> Database)
    requires ReadsFind(sem, db)
    ensures AllOf(ps + IfSome("db.effective_environment", v), MeaningsOn(row, sem)) == True <==>
            AllOf(ps, MeaningsOn(row, sem)) == True && (v.Some? ==> db(row).effectiveEnvironment == v)
  {
    assert "db.effective_environment" + " = " == "db.effective_environment = ";
    OneMoreColumn("db.effective_environment", v, ps, row, sem, r => db(r).effectiveEnvironment);
  }

  lemma {:induction false} InstanceCondition<Row(!new)>(v: Option<string>, ps: seq<Piece>, row: Row, sem: Predicates<Row>, db: Row -> Database)
    requires ReadsFind(sem, db)
    ensures AllOf(ps + IfSome("db.instance", v), MeaningsOn(row, sem)) == True <==>
            AllOf(ps, MeaningsOn(row, sem)) == True && (v.Some? ==> db(row).instance == v.value)
  {
    assert "db.instance" + " = " == "db.instance = ";
    OneMoreColumn("db.instance", v, ps, row, sem, r => Some(db(r).instance));
  }

  lemma {:induction false} NameCondition<Row(!new)>(v: Option<string>, ps: seq<Piece>, row: Row, sem: Predicates<Row>, db: Row -> Database)
    requires ReadsFind(sem, db)
    ensures AllOf(ps + IfSome("db.name", v), MeaningsOn(row, sem)) == True <==>
            AllOf(ps, MeaningsOn(row, sem)) == True && (v.Some? ==> db(row).name == v.value)
  {
    assert "db.name" + " = " == "db.name = ";
    OneMoreColumn("db.name", v, ps, row, sem, r => Some(db(r).name));
  }

  lemma {:induction false} EngineCondition<Row(!new)>(v: Option<string>, ps: seq<Piece>, row: Row, sem: Predicates<Row>, db: Row -> Database)
    requires ReadsFind(sem, db)
    ensures AllOf(ps + IfSome("db.engine", v), MeaningsOn(row, sem)) == True <==>
            AllOf(ps, MeaningsOn(row, sem)) == True && (v.Some? ==> db(row).engine == v)
  {
    assert "db.engine" + " = " == "db.engine = ";
    OneMoreColumn("db.engine", v, ps, row, sem, r => db(r).engine);
  }

  lemma {:induction false} WorkspaceCondition<Row(!new)>(b: bool, s: string, ps: seq<Piece>, row: Row, sem: Predicates<Row>, db: Row -> Database)
    requires ReadsFind(sem, db)
    ensures AllOf(ps + If(b, PieceOf(WORKSPACE, Str(s))), MeaningsOn(row, sem)) == True <==>
            AllOf(ps, MeaningsOn(row, sem)) == True && (b ==> db(row).workspace == s)
  {
    OneMoreText(b, WORKSPACE, "db.workspace = ", s, ps, row, sem, r => Some(db(r).workspace));
  }

  lemma {:induction false} NamesCondition<Row(!new)>(b: bool, ss: seq<string>, ps: seq<Piece>, row: Row, sem: Predicates<Row>, db: Row -> Database)
    requires ReadsFind(sem, db)
    ensures AllOf(ps + If(b, PieceOf(NAME_LIST, SqlText.Strings(ss))), MeaningsOn(row, sem)) == True <==>
            AllOf(ps, MeaningsOn(row, sem)) == True && (b ==> db(row).name in ss)
  {
    OneMorePiece(b, NAME_LIST, SqlText.Strings(ss), ps, row, sem);
    ValueInside(NAME_LIST, "db.name = ANY(", ")", SqlText.Strings(ss), row, sem);
  }

  lemma {:induction false} DeletedCondition<Row(!new)>(b: bool, ps: seq<Piece>, row: Row, sem: Predicates<Row>, db: Row -> Database)
    requires ReadsFind(sem, db)
    ensures AllOf(ps + If(b, PieceOf(DELETED, Bool(false))), MeaningsOn(row, sem)) == True <==>
            AllOf(ps, MeaningsOn(row, sem)) == True && (b ==> !db(row).deleted)
  {
    OneMorePiece(b, DELETED, Bool(false), ps, row, sem);
    ValueAlone(DELETED, "db.deleted = ", Bool(false), row, sem);
  }

  lemma {:induction false} FilterCondition<Row>(f: Find, e: Option<Expr>, env: Env, row: Row, sem: Predicates<Row>)
    requires HasFilter(f, e, env)
    ensures AllOf(FilterPiece(f.filter), MeaningsOn(row, sem)) == True <==>
            (e.Some? ==> CelMeaning(Databases, e.value, env, row, sem) == True)
  {
    if e.Some? {
      var l := FilterInWhere(e.value, env, row, sem);
      assert FilterPiece(f.filter)[1..] == [];
      assert MeaningsOn(row, sem)(FilterPiece(f.filter)[0]) == PieceMeaning(Piece([Hole], [Nested(f.filter.value)]), row, sem);
    }
  }

  /** A database fits a request: the filter is true of it, it has every value asked for, and it is
      not deleted unless deleted ones are asked for too. */
  ghost predicate Fits(f: Find, d: Database) {
    && (f.workspace != "" ==> d.workspace == f.workspace) && (f.project.Some? ==> d.project == f.project.value)
    && (f.environment.Some? ==> d.effectiveEnvironment == f.environment) && (f.instance.Some? ==> d.instance == f.instance.value)
    && (f.name.Some? ==> d.name == f.name.value) && (f.names != [] ==> d.name in f.names)
    && (f.engine.Some? ==> d.engine == f.engine) && (f.showDeleted || !d.deleted)
  }

  /** Without a cursor, the clause is true of exactly the databases that fit and of which the filter
      is true. */
  lemma {:induction false} ListedIff<Row(!new)>(f: Find, e: Option<Expr>, env: Env, row: Row, sem: Predicates<Row>, db: Row -> Database)
    requires HasFilter(f, e, env) && ReadsFind(sem, db) && f.cursor.None?
    ensures TrueOn(f, sem)(row) <==> Fits(f, db(row)) && (e.Some? ==> CelMeaning(Databases, e.value, env, row, sem) == True)
  {
    FilterCondition(f, e, env, row, sem);
    FirstConditions(f, row, sem, db);
    LastConditions(f, row, sem, db);
    assert Pieces(f) == OtherPieces(f);
  }

  /** The conditions up to the instance. */
  function FirstPieces(f: Find): seq<Piece> {
    FilterPiece(f.filter)
    + If(f.workspace != "", PieceOf(WORKSPACE, Str(f.workspace)))
    + IfSome("db.project", f.project) + IfSome("db.effective_environment", f.environment) + IfSome("db.instance", f.instance)
  }

  lemma {:induction false} FirstConditions<Row(!new)>(f: Find, row: Row, sem: Predicates<Row>, db: Row -> Database)
    requires ReadsFind(sem, db)
    ensures AllOf(FirstPieces(f), MeaningsOn(row, sem)) == True <==>
            && AllOf(FilterPiece(f.filter), MeaningsOn(row, sem)) == True
            && (f.workspace != "" ==> db(row).workspace == f.workspace) && (f.project.Some? ==> db(row).project == f.project.value)
            && (f.environment.Some? ==> db(row).effectiveEnvironment == f.environment) && (f.instance.Some? ==> db(row).instance == f.instance.value)
  {
    var p1 := FilterPiece(f.filter);
    WorkspaceCondition(f.workspace != "", f.workspace, p1, row, sem, db);
    var p2 := p1 + If(f.workspace != "", PieceOf(WORKSPACE, Str(f.workspace)));
    ProjectCondition(f.project, p2, row, sem, db);
    var p3 := p2 + IfSome("db.project", f.project);
    EnvironmentCondition(f.environment, p3, row, sem, db);
    var p4 := p3 + IfSome("db.effective_environment", f.environment);
    InstanceCondition(f.instance, p4, row, sem, db);
  }

  lemma {:induction false} LastConditions<Row(!new)>(f: Find, row: Row, sem: Predicates<Row>, db: Row -> Database)
    requires ReadsFind(sem, db)
    ensures AllOf(OtherPieces(f), MeaningsOn(row, sem)) == True <==>
            && AllOf(FirstPieces(f), MeaningsOn(row, sem)) == True
            && (f.name.Some? ==> db(row).name == f.name.value) && (f.names != [] ==> db(row).name in f.names)
            && (f.engine.Some? ==> db(row).engine == f.engine) && (f.showDeleted || !db(row).deleted)
  {
    var p5 := FirstPieces(f);
    NameCondition(f.name, p5, row, sem, db);
    var p6 := p5 + IfSome("db.name", f.name);
    NamesCondition(|f.names| > 0, f.names, p6, row, sem, db);
    var p7 := p6 + If(|f.names| > 0, PieceOf(NAME_LIST, SqlText.Strings(f.names)));
    EngineCondition(f.engine, p7, row, sem, db);
    var p8 := p7 + IfSome("db.engine", f.engine);
    DeletedCondition(!f.showDeleted, p8, row, sem, db);
  }

  // ---------------------------------------------------------------- filters that do not list what they mean

  function Equality(variable: string, s: string): Expr { Call(EQUALS, OtherE, [Ident(variable), Lit(StrL(s))]) }

  lemma {:induction false} EqualityTests(variable: string, s: string)
    ensures LastName(Equality(variable, s).args) == variable && LastValue(Equality(variable, s).args) == Scalar(StrL(s))
  {
    var args := Equality(variable, s).args;
    assert args[..1] == [args[0]] && args[..1][..0] == [];
    assert LastName(args[..1]) == variable;
  }

  /** A filter on the engine is accepted by the compiler, and its listing refused: whatever the
      databases, the other conditions and the page. */
  lemma {:induction false} EngineIsRefused<Row>(f: Find, env: Env, rows: seq<Row>, limit: nat, sem: Predicates<Row>, hasSchema: Row -> bool)
    requires "POSTGRES" in env.engines
    ensures Compile(Databases, Equality("engine", "POSTGRES"), env).Ok?
    ensures HasFilter(f, Some(Equality("engine", "POSTGRES")), env) ==> Answer(rows, f, limit, sem, hasSchema).None?
  {
    var e := Equality("engine", "POSTGRES");
    EqualityTests("engine", "POSTGRES");
    assert Leaf(Databases, e, env) == DatabaseEquals("engine", Scalar(StrL("POSTGRES")), env);
    if HasFilter(f, Some(e), env) { AcceptedIff(f, Some(e), env); }
  }

  /** `name == "..." || table == "..."` */
  function NameOrTable(name: string, table: string): Expr { Call(OR, OtherE, [Equality("name", name), Equality("table", table)]) }

  /** The filter is true of a database with the name, schema row or not; the listing has it only
      with one. */
  lemma {:induction false} NamedDatabaseIsLost<Row>(f: Find, env: Env, name: string, table: string, row: Row, rows: seq<Row>, limit: nat,
                                                    sem: Predicates<Row>, hasSchema: Row -> bool)
    requires HasFilter(f, Some(NameOrTable(name, table)), env)
    requires sem([Text("db.name = "), Arg(Str(name))], row) == True && !hasSchema(row)
    ensures CelMeaning(Databases, NameOrTable(name, table), env, row, sem) == True
    ensures Answer(rows, f, limit, sem, hasSchema).Some? && row !in Answer(rows, f, limit, sem, hasSchema).value
  {
    var e := NameOrTable(name, table);
    NameOrTableLeaves(name, table);
    NameOrTableMeans(name, table, env, row, sem);
    AcceptedIff(f, Some(e), env);
    JoinsIff(f, Some(e), env);
    WithAll(With(rows, hasSchema), TrueOn(f, sem));
    WithAll(rows, hasSchema);
  }

  lemma {:induction false} NameOrTableLeaves(name: string, table: string)
    ensures var e := NameOrTable(name, table);
            SomeLeaf(Databases, e, MentionsSchema) && !SomeLeaf(Databases, e, ComparesInstance)
  {
    EqualityTests("name", name);
    EqualityTests("table", table);
    var e := NameOrTable(name, table);
    var es := e.args;
    assert es[1..] == [Equality("table", table)] && es[1..][1..] == [];
    OrLeaves(Equality("name", name), Equality("table", table), MentionsSchema);
    OrLeaves(Equality("name", name), Equality("table", table), ComparesInstance);
  }

  lemma {:induction false} OrLeaves(a: Expr, b: Expr, which: Selector)
    ensures SomeLeaf(Databases, Call(OR, OtherE, [a, b]), which) <==> SomeLeaf(Databases, a, which) || SomeLeaf(Databases, b, which)
  {
    var es := [a, b];
    assert es[1..] == [b] && [b][1..] == [];
    assert SomeLeafOf(Databases, [b], which) <==> SomeLeaf(Databases, b, which) || SomeLeafOf(Databases, [b][1..], which);
  }

  lemma {:induction false} NameOrTableMeans<Row>(name: string, table: string, env: Env, row: Row, sem: Predicates<Row>)
    requires sem([Text("db.name = "), Arg(Str(name))], row) == True
    ensures CelMeaning(Databases, NameOrTable(name, table), env, row, sem) == True
  {
    var a, b := Equality("name", name), Equality("table", table);
    EqualityTests("name", name);
    assert Leaf(Databases, a, env) == DatabaseEquals("name", Scalar(StrL(name)), env) == Outcome.Ok(Compare("db.name = ", Str(name)));
    LeafRenders(Compare("db.name = ", Str(name)), row, sem);
    assert CelMeaning(Databases, a, env, row, sem) == True;
    assert NameOrTable(name, table).args == [a, b];
  }
}
