/** SQL conditions as text: how PostgreSQL reads them (NOT binds tighter than AND, AND tighter
    than OR) and what they mean in three-valued logic. */
module SqlText {

  // ---------------------------------------------------------------- three-valued logic

  datatype Tri = False | Unknown | True

  function Not3(a: Tri): Tri {
    match a case False => True case Unknown => Unknown case True => False
  }

  function And3(a: Tri, b: Tri): Tri {
    if a == False || b == False then False else if a == True && b == True then True else Unknown
  }

  function Or3(a: Tri, b: Tri): Tri {
    if a == True || b == True then True else if a == False && b == False then False else Unknown
  }

  /** Where a truth value stands: false below unknown below true. */
  function Rank(a: Tri): int { match a case False => -1 case Unknown => 0 case True => 1 }

  /** AND takes the lower, OR the higher, and NOT turns the order around. */
  lemma {:induction false} ConnectivesRank(a: Tri, b: Tri)
    ensures Rank(And3(a, b)) == if Rank(a) <= Rank(b) then Rank(a) else Rank(b)
    ensures Rank(Or3(a, b)) == if Rank(a) <= Rank(b) then Rank(b) else Rank(a)
    ensures Rank(Not3(a)) == -Rank(a)
  {
  }

  // ---------------------------------------------------------------- text

  /** A value bound to a placeholder. */
  datatype Value = Str(s: string) | Bool(b: bool) | Time(t: int) | Number(n: int) | Strings(ss: seq<string>) | Null | Other

  /** `Frag` is a stretch of text with no connective or parenthesis outside it; `Hole` is the
      placeholder `?`, `Dollar(n)` the placeholder `$n`. */
  datatype Tok = LPar | RPar | AndT | OrT | NotT | Frag(text: string) | Hole | Dollar(n: nat)

  predicate IsWord(t: Tok) { t.Frag? || t.Hole? || t.Dollar? }

  predicate StartsWord(ts: seq<Tok>) { ts != [] && IsWord(ts[0]) }

  predicate Starts(ts: seq<Tok>, t: Tok) { ts != [] && ts[0] == t }

  // ---------------------------------------------------------------- reading

  datatype Sql = Atom(words: seq<Tok>) | Conj(l: Sql, r: Sql) | Disj(l: Sql, r: Sql) | Neg(s: Sql)

  datatype Parsed = Fail | Read(sql: Sql, rest: seq<Tok>)

  function WordRun(ts: seq<Tok>): (n: nat)
    ensures n <= |ts| && (n > 0 <==> StartsWord(ts))
  {
    if StartsWord(ts) then 1 + WordRun(ts[1..]) else 0
  }

  function ReadOr(ts: seq<Tok>): (p: Parsed)
    ensures p.Read? ==> |p.rest| < |ts|
    decreases |ts|, 3
  {
    match ReadAnd(ts)
    case Fail => Fail
    case Read(a, rest) =>
      if Starts(rest, OrT) then
        match ReadOr(rest[1..])
        case Fail => Fail
        case Read(b, rest') => Read(Disj(a, b), rest')
      else Read(a, rest)
  }

  function ReadAnd(ts: seq<Tok>): (p: Parsed)
    ensures p.Read? ==> |p.rest| < |ts|
    decreases |ts|, 2
  {
    match ReadNot(ts)
    case Fail => Fail
    case Read(a, rest) =>
      if Starts(rest, AndT) then
        match ReadAnd(rest[1..])
        case Fail => Fail
        case Read(b, rest') => Read(Conj(a, b), rest')
      else Read(a, rest)
  }

  function ReadNot(ts: seq<Tok>): (p: Parsed)
    ensures p.Read? ==> |p.rest| < |ts|
    decreases |ts|, 1
  {
    if Starts(ts, NotT) then
      match ReadNot(ts[1..])
      case Fail => Fail
      case Read(a, rest) => Read(Neg(a), rest)
    else if Starts(ts, LPar) then
      match ReadOr(ts[1..])
      case Fail => Fail
      case Read(a, rest) => if Starts(rest, RPar) then Read(a, rest[1..]) else Fail
    else
      var n := WordRun(ts);
      if n == 0 then Fail else Read(Atom(ts[..n]), ts[n..])
  }

  // ---------------------------------------------------------------- meaning

  /** A placeholder-free word of a predicate. */
  datatype Word = Text(s: string) | Arg(v: Value)

  /** What each predicate says of a row; `TRUE` is the constant. */
  type Predicates<!Row> = (seq<Word>, Row) -> Tri

  ghost function AtomMeaning<Row>(words: seq<Word>, row: Row, sem: Predicates<Row>): Tri {
    if words == [Text("TRUE")] then True else sem(words, row)
  }

  ghost function Bind(t: Tok, args: seq<Value>): Word {
    match t
    case Frag(s) => Text(s)
    case Dollar(n) => if 1 <= n <= |args| then Arg(args[n-1]) else Text("")
    case _ => Text("")
  }

  ghost function BindAll(ts: seq<Tok>, args: seq<Value>): (words: seq<Word>)
    ensures |words| == |ts|
  {
    seq(|ts|, i requires 0 <= i < |ts| => Bind(ts[i], args))
  }

  ghost function Eval<Row>(q: Sql, args: seq<Value>, row: Row, sem: Predicates<Row>): Tri {
    match q
    case Atom(words) => AtomMeaning(BindAll(words, args), row, sem)
    case Conj(l, r) => And3(Eval(l, args, row, sem), Eval(r, args, row, sem))
    case Disj(l, r) => Or3(Eval(l, args, row, sem), Eval(r, args, row, sem))
    case Neg(s) => Not3(Eval(s, args, row, sem))
  }

  // ---------------------------------------------------------------- layouts

  /** How a condition is laid out in text: `Group` writes parentheses, the others do not. */
  datatype Layout =
    | Plain(words: seq<Word>)
    | Group(body: Layout)
    | Negated(body: Layout)
    | Both(l: Layout, r: Layout)
    | Either(l: Layout, r: Layout)

  ghost function Meaning<Row>(l: Layout, row: Row, sem: Predicates<Row>): Tri {
    match l
    case Plain(words) => AtomMeaning(words, row, sem)
    case Group(b) => Meaning(b, row, sem)
    case Negated(b) => Not3(Meaning(b, row, sem))
    case Both(x, y) => And3(Meaning(x, row, sem), Meaning(y, row, sem))
    case Either(x, y) => Or3(Meaning(x, row, sem), Meaning(y, row, sem))
  }

  /** Nothing is left to a precedence that reads it otherwise: no bare OR under AND or NOT, no
      bare AND under NOT. */
  predicate WellGrouped(l: Layout) {
    match l
    case Plain(words) => words != []
    case Group(b) => WellGrouped(b)
    case Negated(b) => WellGrouped(b) && !b.Both? && !b.Either?
    case Both(x, y) => WellGrouped(x) && WellGrouped(y) && !x.Either? && !y.Either?
    case Either(x, y) => WellGrouped(x) && WellGrouped(y)
  }

  function Args(l: Layout): seq<Value> {
    match l
    case Plain(words) => WordArgs(words)
    case Group(b) => Args(b)
    case Negated(b) => Args(b)
    case Both(x, y) => Args(x) + Args(y)
    case Either(x, y) => Args(x) + Args(y)
  }

  function WordArgs(words: seq<Word>): seq<Value> {
    if words == [] then []
    else (if words[0].Arg? then [words[0].v] else []) + WordArgs(words[1..])
  }

  /** The words with a placeholder for each argument: `?`, or numbered from `k + 1` on. */
  function Write(words: seq<Word>, k: nat): (ts: seq<Tok>)
    ensures |ts| == |words| && forall t :: t in ts ==> IsWord(t)
  {
    if words == [] then []
    else if words[0].Arg? then [Dollar(k + 1)] + Write(words[1..], k + 1)
    else [Frag(words[0].s)] + Write(words[1..], k)
  }

  /** The text of a layout, its placeholders numbered from `k + 1` on. */
  function Numbered(l: Layout, k: nat): seq<Tok> {
    match l
    case Plain(words) => Write(words, k)
    case Group(b) => [LPar] + Numbered(b, k) + [RPar]
    case Negated(b) => [NotT] + Numbered(b, k)
    case Both(x, y) => Numbered(x, k) + [AndT] + Numbered(y, k + |Args(x)|)
    case Either(x, y) => Numbered(x, k) + [OrT] + Numbered(y, k + |Args(x)|)
  }

  // ---------------------------------------------------------------- text read back

  lemma {:induction false} WriteBinds(words: seq<Word>, k: nat, args: seq<Value>)
    requires k + |WordArgs(words)| <= |args| && args[k..k+|WordArgs(words)|] == WordArgs(words)
    ensures BindAll(Write(words, k), args) == words
  {
    if words != [] {
      var rest, all := words[1..], WordArgs(words);
      if words[0].Arg? {
        assert args[k] == args[k..k+|all|][0] == words[0].v;
        assert args[k+1..k+1+|WordArgs(rest)|] == args[k..k+|all|][1..];
        WriteBinds(rest, k + 1, args);
        assert Write(words, k)[1..] == Write(rest, k + 1);
      } else {
        WriteBinds(rest, k, args);
        assert Write(words, k)[1..] == Write(rest, k);
      }
      var ts := Write(words, k);
      forall i | 0 <= i < |ts| ensures BindAll(ts, args)[i] == words[i] {
        if i > 0 { assert BindAll(ts[1..], args)[i-1] == rest[i-1]; }
      }
    }
  }

  lemma {:induction false} WordRunIs(ts: seq<Tok>, rest: seq<Tok>)
    requires (forall t :: t in ts ==> IsWord(t)) && !StartsWord(rest)
    ensures WordRun(ts + rest) == |ts|
  {
    if ts == [] {
      assert ts + rest == rest;
    } else {
      assert (ts + rest)[1..] == ts[1..] + rest;
      WordRunIs(ts[1..], rest);
    }
  }

  /** The arguments of `l` sit in `args` from position `k` on. */
  predicate ArgsAt(l: Layout, k: nat, args: seq<Value>) {
    k + |Args(l)| <= |args| && args[k..k+|Args(l)|] == Args(l)
  }

  lemma {:induction false} ArgsSplit(x: Layout, y: Layout, l: Layout, k: nat, args: seq<Value>)
    requires Args(l) == Args(x) + Args(y) && ArgsAt(l, k, args)
    ensures ArgsAt(x, k, args) && ArgsAt(y, k + |Args(x)|, args)
  {
    SplitSlice(args, k, Args(x), Args(y));
  }

  lemma {:induction false} SplitSlice(args: seq<Value>, k: nat, a: seq<Value>, b: seq<Value>)
    requires k + |a| + |b| <= |args| && args[k..k+|a|+|b|] == a + b
    ensures args[k..k+|a|] == a && args[k+|a|..k+|a|+|b|] == b
  {
    var s := args[k..k+|a|+|b|];
    assert args[k..k+|a|] == s[..|a|] && args[k+|a|..k+|a|+|b|] == s[|a|..];
  }

  /** A layout that is neither a bare AND nor a bare OR is read as one operand of NOT or AND. */
  lemma {:induction false} ReadsOperand<Row>(l: Layout, k: nat, rest: seq<Tok>, args: seq<Value>, row: Row, sem: Predicates<Row>)
    returns (q: Sql)
    requires WellGrouped(l) && !l.Both? && !l.Either? && !StartsWord(rest) && ArgsAt(l, k, args)
    ensures ReadNot(Numbered(l, k) + rest) == Read(q, rest) && Eval(q, args, row, sem) == Meaning(l, row, sem)
    decreases l, 0
  {
    match l
    case Plain(words) =>
      ReadWords(Write(words, k), rest);
      WriteBinds(words, k, args);
      q := Atom(Write(words, k));
    case Group(b) =>
      q := ReadsDisjunction(b, k, [RPar] + rest, args, row, sem);
      ReadGroup(Numbered(b, k), q, rest);
    case Negated(b) =>
      var q' := ReadsOperand(b, k, rest, args, row, sem);
      ReadNeg(Numbered(b, k), q', rest);
      q := Neg(q');
  }

  lemma {:induction false} ReadWords(w: seq<Tok>, rest: seq<Tok>)
    requires w != [] && (forall t :: t in w ==> IsWord(t)) && !StartsWord(rest)
    ensures ReadNot(w + rest) == Read(Atom(w), rest)
  {
    WordRunIs(w, rest);
    assert (w + rest)[..|w|] == w && (w + rest)[|w|..] == rest;
    assert w[0] in w;
  }

  lemma {:induction false} ReadGroup(ts: seq<Tok>, q: Sql, rest: seq<Tok>)
    requires ReadOr(ts + ([RPar] + rest)) == Read(q, [RPar] + rest)
    ensures ReadNot([LPar] + ts + [RPar] + rest) == Read(q, rest)
  {
    assert ([LPar] + ts + [RPar] + rest)[1..] == ts + ([RPar] + rest);
    assert ([RPar] + rest)[1..] == rest;
  }

  lemma {:induction false} ReadNeg(ts: seq<Tok>, q: Sql, rest: seq<Tok>)
    requires ReadNot(ts + rest) == Read(q, rest)
    ensures ReadNot([NotT] + ts + rest) == Read(Neg(q), rest)
  {
    assert ([NotT] + ts + rest)[1..] == ts + rest;
  }

  lemma {:induction false} JoinAssociates(a: seq<Tok>, t: Tok, b: seq<Tok>, c: seq<Tok>)
    ensures (a + [t] + b) + c == a + [t] + (b + c)
  {
  }

  lemma {:induction false} Regroup(a: seq<Tok>, s: Tok, b: seq<Tok>, t: Tok, c: seq<Tok>)
    ensures (a + [s] + b) + [t] + c == a + [s] + (b + [t] + c)
  {
  }

  lemma {:induction false} And3Associates(a: Tri, b: Tri, c: Tri)
    ensures And3(And3(a, b), c) == And3(a, And3(b, c))
  {
  }

  lemma {:induction false} ReadConj(ts: seq<Tok>, more: seq<Tok>, x: Sql, y: Sql, rest: seq<Tok>)
    requires ReadNot(ts + ([AndT] + more)) == Read(x, [AndT] + more) && ReadAnd(more) == Read(y, rest)
    ensures ReadAnd(ts + [AndT] + more) == Read(Conj(x, y), rest)
  {
    assert ts + [AndT] + more == ts + ([AndT] + more);
    assert ([AndT] + more)[1..] == more;
  }

  /** The two parts of an AND or an OR, and where their arguments are. */
  lemma {:induction false} PairParts(l: Layout, k: nat, args: seq<Value>)
    requires (l.Both? || l.Either?) && WellGrouped(l) && ArgsAt(l, k, args)
    ensures var t, k' := if l.Both? then AndT else OrT, k + |Args(l.l)|;
            && Numbered(l, k) == Numbered(l.l, k) + [t] + Numbered(l.r, k')
            && ArgsAt(l.l, k, args) && ArgsAt(l.r, k', args) && WellGrouped(l.l) && WellGrouped(l.r)
            && (l.Both? ==> !l.l.Either? && !l.r.Either?)
  {
    ArgsSplit(l.l, l.r, l, k, args);
  }

  /** A layout with no bare OR, followed by AND and more conjuncts. */
  lemma {:induction false} ReadsBefore<Row>(l: Layout, k: nat, more: seq<Tok>, y: Sql, rest: seq<Tok>,
                                            args: seq<Value>, row: Row, sem: Predicates<Row>)
    returns (q: Sql)
    requires WellGrouped(l) && !l.Either? && ArgsAt(l, k, args) && ReadAnd(more) == Read(y, rest)
    ensures ReadAnd(Numbered(l, k) + [AndT] + more) == Read(q, rest)
    ensures Eval(q, args, row, sem) == And3(Meaning(l, row, sem), Eval(y, args, row, sem))
    decreases l, 1
  {
    if l.Both? {
      PairParts(l, k, args);
      q := ReadsBothBefore(l, l.l, l.r, k, k + |Args(l.l)|, more, y, rest, args, row, sem);
      And3Associates(Meaning(l.l, row, sem), Meaning(l.r, row, sem), Eval(y, args, row, sem));
    } else {
      var x := ReadsOperand(l, k, [AndT] + more, args, row, sem);
      ReadConj(Numbered(l, k), more, x, y, rest);
      q := Conj(x, y);
    }
  }

  /** Two conjuncts of `l`, one after the other, followed by more. */
  lemma {:induction false} ReadsBothBefore<Row>(l: Layout, a: Layout, b: Layout, k: nat, k': nat, more: seq<Tok>, y: Sql, rest: seq<Tok>,
                                                args: seq<Value>, row: Row, sem: Predicates<Row>)
    returns (q: Sql)
    requires l == Both(a, b) && WellGrouped(a) && WellGrouped(b) && !a.Either? && !b.Either?
    requires ArgsAt(a, k, args) && ArgsAt(b, k', args) && ReadAnd(more) == Read(y, rest)
    ensures ReadAnd((Numbered(a, k) + [AndT] + Numbered(b, k')) + [AndT] + more) == Read(q, rest)
    ensures Eval(q, args, row, sem) == And3(Meaning(a, row, sem), And3(Meaning(b, row, sem), Eval(y, args, row, sem)))
    decreases l, 0
  {
    var z := ReadsBefore(b, k', more, y, rest, args, row, sem);
    q := ReadsBefore(a, k, Numbered(b, k') + [AndT] + more, z, rest, args, row, sem);
    Regroup(Numbered(a, k), AndT, Numbered(b, k'), AndT, more);
  }

  lemma {:induction false} ReadsConjunction<Row>(l: Layout, k: nat, rest: seq<Tok>, args: seq<Value>, row: Row, sem: Predicates<Row>)
    returns (q: Sql)
    requires WellGrouped(l) && !l.Either? && ArgsAt(l, k, args) && !StartsWord(rest) && !Starts(rest, AndT)
    ensures ReadAnd(Numbered(l, k) + rest) == Read(q, rest) && Eval(q, args, row, sem) == Meaning(l, row, sem)
    decreases l, 2
  {
    if l.Both? {
      PairParts(l, k, args);
      q := ReadsBoth(l, l.l, l.r, k, k + |Args(l.l)|, rest, args, row, sem);
      JoinAssociates(Numbered(l.l, k), AndT, Numbered(l.r, k + |Args(l.l)|), rest);
    } else {
      q := ReadsOperand(l, k, rest, args, row, sem);
      ReadOneConjunct(Numbered(l, k) + rest, q, rest);
    }
  }

  /** The two conjuncts of `l`, up to the end. */
  lemma {:induction false} ReadsBoth<Row>(l: Layout, a: Layout, b: Layout, k: nat, k': nat, rest: seq<Tok>,
                                          args: seq<Value>, row: Row, sem: Predicates<Row>)
    returns (q: Sql)
    requires l == Both(a, b) && WellGrouped(a) && WellGrouped(b) && !a.Either? && !b.Either?
    requires ArgsAt(a, k, args) && ArgsAt(b, k', args) && !StartsWord(rest) && !Starts(rest, AndT)
    ensures ReadAnd(Numbered(a, k) + [AndT] + (Numbered(b, k') + rest)) == Read(q, rest)
    ensures Eval(q, args, row, sem) == And3(Meaning(a, row, sem), Meaning(b, row, sem))
    decreases l, 1
  {
    var y := ReadsConjunction(b, k', rest, args, row, sem);
    q := ReadsBefore(a, k, Numbered(b, k') + rest, y, rest, args, row, sem);
  }

  /** A layout followed by OR and more disjuncts. */
  lemma {:induction false} ReadsBeforeOr<Row>(l: Layout, k: nat, more: seq<Tok>, y: Sql, rest: seq<Tok>,
                                              args: seq<Value>, row: Row, sem: Predicates<Row>)
    returns (q: Sql)
    requires WellGrouped(l) && ArgsAt(l, k, args) && ReadOr(more) == Read(y, rest)
    ensures ReadOr(Numbered(l, k) + [OrT] + more) == Read(q, rest)
    ensures Eval(q, args, row, sem) == Or3(Meaning(l, row, sem), Eval(y, args, row, sem))
    decreases l, 3
  {
    if l.Either? {
      PairParts(l, k, args);
      q := ReadsEitherBefore(l, l.l, l.r, k, k + |Args(l.l)|, more, y, rest, args, row, sem);
      Regroup(Numbered(l.l, k), OrT, Numbered(l.r, k + |Args(l.l)|), OrT, more);
      Or3Associates(Meaning(l.l, row, sem), Meaning(l.r, row, sem), Eval(y, args, row, sem));
    } else {
      var x := ReadsConjunction(l, k, [OrT] + more, args, row, sem);
      ReadDisj(Numbered(l, k), more, x, y, rest);
      q := Disj(x, y);
    }
  }

  /** Two disjuncts of `l`, one after the other, followed by more. */
  lemma {:induction false} ReadsEitherBefore<Row>(l: Layout, a: Layout, b: Layout, k: nat, k': nat, more: seq<Tok>, y: Sql, rest: seq<Tok>,
                                                  args: seq<Value>, row: Row, sem: Predicates<Row>)
    returns (q: Sql)
    requires l == Either(a, b) && WellGrouped(a) && WellGrouped(b)
    requires ArgsAt(a, k, args) && ArgsAt(b, k', args) && ReadOr(more) == Read(y, rest)
    ensures ReadOr(Numbered(a, k) + [OrT] + (Numbered(b, k') + [OrT] + more)) == Read(q, rest)
    ensures Eval(q, args, row, sem) == Or3(Meaning(a, row, sem), Or3(Meaning(b, row, sem), Eval(y, args, row, sem)))
    decreases l, 2
  {
    var z := ReadsBeforeOr(b, k', more, y, rest, args, row, sem);
    q := ReadsBeforeOr(a, k, Numbered(b, k') + [OrT] + more, z, rest, args, row, sem);
  }

  lemma {:induction false} Or3Associates(a: Tri, b: Tri, c: Tri)
    ensures Or3(Or3(a, b), c) == Or3(a, Or3(b, c))
  {
  }

  lemma {:induction false} ReadDisj(ts: seq<Tok>, more: seq<Tok>, x: Sql, y: Sql, rest: seq<Tok>)
    requires ReadAnd(ts + ([OrT] + more)) == Read(x, [OrT] + more) && ReadOr(more) == Read(y, rest)
    ensures ReadOr(ts + [OrT] + more) == Read(Disj(x, y), rest)
  {
    assert ts + [OrT] + more == ts + ([OrT] + more);
    assert ([OrT] + more)[1..] == more;
  }

  lemma {:induction false} ReadOneDisjunct(ts: seq<Tok>, x: Sql, rest: seq<Tok>)
    requires ReadAnd(ts) == Read(x, rest) && !Starts(rest, OrT)
    ensures ReadOr(ts) == Read(x, rest)
  {
  }

  lemma {:induction false} ReadOneConjunct(ts: seq<Tok>, x: Sql, rest: seq<Tok>)
    requires ReadNot(ts) == Read(x, rest) && !Starts(rest, AndT)
    ensures ReadAnd(ts) == Read(x, rest)
  {
  }

  lemma {:induction false} ReadsDisjunction<Row>(l: Layout, k: nat, rest: seq<Tok>, args: seq<Value>, row: Row, sem: Predicates<Row>)
    returns (q: Sql)
    requires WellGrouped(l) && ArgsAt(l, k, args)
    requires !StartsWord(rest) && !Starts(rest, AndT) && !Starts(rest, OrT)
    ensures ReadOr(Numbered(l, k) + rest) == Read(q, rest) && Eval(q, args, row, sem) == Meaning(l, row, sem)
    decreases l, 4
  {
    if l.Either? {
      PairParts(l, k, args);
      q := ReadsEither(l, l.l, l.r, k, k + |Args(l.l)|, rest, args, row, sem);
      JoinAssociates(Numbered(l.l, k), OrT, Numbered(l.r, k + |Args(l.l)|), rest);
    } else {
      q := ReadsConjunction(l, k, rest, args, row, sem);
      ReadOneDisjunct(Numbered(l, k) + rest, q, rest);
    }
  }

  /** The two disjuncts of `l`, up to the end. */
  lemma {:induction false} ReadsEither<Row>(l: Layout, a: Layout, b: Layout, k: nat, k': nat, rest: seq<Tok>,
                                            args: seq<Value>, row: Row, sem: Predicates<Row>)
    returns (q: Sql)
    requires l == Either(a, b) && WellGrouped(a) && WellGrouped(b) && ArgsAt(a, k, args) && ArgsAt(b, k', args)
    requires !StartsWord(rest) && !Starts(rest, AndT) && !Starts(rest, OrT)
    ensures ReadOr(Numbered(a, k) + [OrT] + (Numbered(b, k') + rest)) == Read(q, rest)
    ensures Eval(q, args, row, sem) == Or3(Meaning(a, row, sem), Meaning(b, row, sem))
    decreases l, 3
  {
    var y := ReadsDisjunction(b, k', rest, args, row, sem);
    q := ReadsBeforeOr(a, k, Numbered(b, k') + rest, y, rest, args, row, sem);
  }

  /** The text of a well-grouped layout, read with SQL's precedence and its arguments bound in
      order, is one whole condition with the layout's meaning on every row. */
  lemma {:induction false} WellGroupedReadsAsMeant<Row>(l: Layout, row: Row, sem: Predicates<Row>) returns (q: Sql)
    requires WellGrouped(l)
    ensures ReadOr(Numbered(l, 0)) == Read(q, []) && Eval(q, Args(l), row, sem) == Meaning(l, row, sem)
  {
    assert Numbered(l, 0) + [] == Numbered(l, 0);
    assert Args(l)[0..|Args(l)|] == Args(l);
    q := ReadsDisjunction(l, 0, [], Args(l), row, sem);
  }

  /** The grouping is needed: `a OR b AND c` does not mean what `(a OR b) AND c` means. */
  lemma {:induction false} BareOrUnderAndIsMisread(l: Layout, sem: Predicates<int>) returns (q: Sql)
    requires l == Both(Either(Plain([Text("a")]), Plain([Text("b")])), Plain([Text("c")]))
    requires sem([Text("a")], 0) == True && sem([Text("b")], 0) == False && sem([Text("c")], 0) == False
    ensures !WellGrouped(l) && ReadOr(Numbered(l, 0)) == Read(q, [])
    ensures Eval(q, Args(l), 0, sem) == True && Meaning(l, 0, sem) == False
  {
    assert Numbered(l, 0) == [Frag("a"), OrT, Frag("b"), AndT, Frag("c")];
    q := ReadOrAnd(Frag("a"), Frag("b"), Frag("c"));
    assert BindAll([Frag("a")], Args(l)) == [Text("a")];
  }

  lemma {:induction false} ReadOrAnd(a: Tok, b: Tok, c: Tok) returns (q: Sql)
    requires a.Frag? && b.Frag? && c.Frag?
    ensures q == Disj(Atom([a]), Conj(Atom([b]), Atom([c]))) && ReadOr([a, OrT, b, AndT, c]) == Read(q, [])
  {
    var more := [b] + [AndT, c];
    ReadTwoWords(b, c);
    ReadOneWord(a, [OrT] + more);
    ReadDisj([a], more, Atom([a]), Conj(Atom([b]), Atom([c])), []);
    assert [a] + [OrT] + more == [a, OrT, b, AndT, c] && [a] + ([OrT] + more) == [a, OrT, b, AndT, c];
    q := Disj(Atom([a]), Conj(Atom([b]), Atom([c])));
  }

  lemma {:induction false} ReadTwoWords(b: Tok, c: Tok)
    requires b.Frag? && c.Frag?
    ensures ReadOr([b] + [AndT, c]) == Read(Conj(Atom([b]), Atom([c])), [])
  {
    ReadOneWord(c, []);
    ReadOneWord(b, [AndT, c]);
    assert [AndT, c][1..] == [c] + [];
    ReadOneDisjunct([b] + [AndT, c], Conj(Atom([b]), Atom([c])), []);
  }

  lemma {:induction false} ReadOneWord(w: Tok, rest: seq<Tok>)
    requires w.Frag? && !StartsWord(rest)
    ensures ReadNot([w] + rest) == Read(Atom([w]), rest)
  {
    WordRunIs([w], rest);
    assert ([w] + rest)[..1] == [w] && ([w] + rest)[1..] == rest;
  }
}
