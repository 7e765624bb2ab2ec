/** The field-name suggestions of backend/server/marshaler.go: edit distance by a two-row
    dynamic program, and the filter, sort and cut that ranks candidates by it. */
module EditDistance {

  // ---------------------------------------------------------------- edit scripts

  /** One edit of a string, at a position of the string it is applied to. */
  datatype Edit<T> = Insert(at: nat, c: T) | Delete(at: nat) | Substitute(at: nat, c: T)
  {
    predicate Fits(a: seq<T>) {
      if Insert? then at <= |a| else at < |a|
    }

    function Apply(a: seq<T>): seq<T>
      requires Fits(a)
    {
      match this
      case Insert(i, c) => a[..i] + [c] + a[i..]
      case Delete(i) => a[..i] + a[i+1..]
      case Substitute(i, c) => a[i := c]
    }
  }

  /** The edits of `s`, made one after the other, turn `a` into `b`. */
  ghost predicate Transforms<T>(s: seq<Edit<T>>, a: seq<T>, b: seq<T>)
    decreases |s|
  {
    if s == [] then a == b
    else s[0].Fits(a) && Transforms(s[1..], s[0].Apply(a), b)
  }

  /** `d` is the length of a shortest script from `a` to `b`. */
  ghost predicate IsEditDistance<T(!new)>(a: seq<T>, b: seq<T>, d: int) {
    && (exists s: seq<Edit<T>> :: Transforms(s, a, b) && |s| == d)
    && (forall s: seq<Edit<T>> :: Transforms(s, a, b) ==> |s| >= d)
  }

  lemma {:induction false} TransformsCompose<T>(s: seq<Edit<T>>, t: seq<Edit<T>>, a: seq<T>, b: seq<T>, c: seq<T>)
    requires Transforms(s, a, b) && Transforms(t, b, c)
    ensures Transforms(s + t, a, c)
    decreases |s|
  {
    if s == [] {
      assert s + t == t;
    } else {
      var e, rest := s[0], s[1..];
      var m := e.Apply(a);
      TransformsCompose(rest, t, m, b, c);
      EditThenScript(e, rest + t, a, m, c);
      HeadAndTail(s, t);
    }
  }

  lemma {:induction false} HeadAndTail<T>(s: seq<T>, t: seq<T>)
    requires s != []
    ensures s + t == [s[0]] + (s[1..] + t)
  {
  }

  lemma {:induction false} EditThenScript<T>(e: Edit<T>, s: seq<Edit<T>>, a: seq<T>, m: seq<T>, b: seq<T>)
    requires e.Fits(a) && e.Apply(a) == m && Transforms(s, m, b)
    ensures Transforms([e] + s, a, b)
  {
    assert ([e] + s)[1..] == s;
  }

  function Undo<T>(e: Edit<T>, a: seq<T>): (u: Edit<T>)
    requires e.Fits(a)
    ensures u.Fits(e.Apply(a)) && u.Apply(e.Apply(a)) == a
  {
    match e
    case Insert(i, c) => Delete(i)
    case Delete(i) => assert a == a[..i] + [a[i]] + a[i+1..]; Insert(i, a[i])
    case Substitute(i, c) => Substitute(i, a[i])
  }

  lemma {:induction false} ReverseScript<T>(s: seq<Edit<T>>, a: seq<T>, b: seq<T>) returns (r: seq<Edit<T>>)
    requires Transforms(s, a, b)
    ensures Transforms(r, b, a) && |r| == |s|
    decreases |s|
  {
    if s == [] {
      r := [];
    } else {
      var m := s[0].Apply(a);
      var rest := ReverseScript(s[1..], m, b);
      var u := Undo(s[0], a);
      assert Transforms([u], m, a);
      TransformsCompose(rest, [u], b, m, a);
      r := rest + [u];
    }
  }

  // ---------------------------------------------------------------- the recurrence

  function Min(x: int, y: int): int { if x <= y then x else y }

  function Init<T>(a: seq<T>): seq<T> requires a != [] { a[..|a|-1] }

  function Last<T>(a: seq<T>): T requires a != [] { a[|a|-1] }

  function Cost<T(==)>(x: T, y: T): nat { if x == y then 0 else 1 }

  /** The recurrence on prefixes that the two rows tabulate. */
  function Dist<T(==)>(a: seq<T>, b: seq<T>): nat
    decreases |a| + |b|
  {
    if a == [] then |b|
    else if b == [] then |a|
    else Min(Dist(a, Init(b)) + 1, Min(Dist(Init(a), b) + 1, Dist(Init(a), Init(b)) + Cost(Last(a), Last(b))))
  }

  lemma {:induction false} ApplyUnderLast<T>(e: Edit<T>, p: seq<T>, x: T)
    requires e.Fits(p)
    ensures e.Fits(p + [x]) && e.Apply(p + [x]) == e.Apply(p) + [x]
  {
    if !e.Substitute? { assert (p + [x])[..e.at] == p[..e.at]; }
    if e.Insert? { assert (p + [x])[e.at..] == p[e.at..] + [x]; }
    if e.Delete? { assert (p + [x])[e.at+1..] == p[e.at+1..] + [x]; }
  }

  lemma {:induction false} ExtendScript<T>(s: seq<Edit<T>>, a: seq<T>, b: seq<T>, x: T)
    requires Transforms(s, a, b)
    ensures Transforms(s, a + [x], b + [x])
    decreases |s|
  {
    if s != [] {
      var e := s[0];
      ApplyUnderLast(e, a, x);
      ExtendScript(s[1..], e.Apply(a), b, x);
    }
  }

  lemma {:induction false} AppendEdit<T>(s: seq<Edit<T>>, e: Edit<T>, a: seq<T>, m: seq<T>)
    requires Transforms(s, a, m) && e.Fits(m)
    ensures Transforms(s + [e], a, e.Apply(m))
  {
    assert Transforms([e], m, e.Apply(m));
    TransformsCompose(s, [e], a, m, e.Apply(m));
  }

  lemma {:induction false} ScriptByInsert<T>(t: seq<Edit<T>>, a: seq<T>, b: seq<T>) returns (s: seq<Edit<T>>)
    requires b != [] && Transforms(t, a, Init(b))
    ensures Transforms(s, a, b) && |s| == |t| + 1
  {
    var e := Insert(|b| - 1, Last(b));
    AppendEdit(t, e, a, Init(b));
    assert e.Apply(Init(b)) == b;
    s := t + [e];
  }

  lemma {:induction false} ScriptByDelete<T>(t: seq<Edit<T>>, a: seq<T>, b: seq<T>) returns (s: seq<Edit<T>>)
    requires a != [] && Transforms(t, Init(a), b)
    ensures Transforms(s, a, b) && |s| == |t| + 1
  {
    var e: Edit<T> := Delete(|a| - 1);
    assert e.Apply(a) == Init(a);
    s := [e] + t;
    assert s[1..] == t;
  }

  lemma {:induction false} SubstituteLast<T>(b: seq<T>, x: T)
    requires b != []
    ensures var e, m := Substitute(|b| - 1, Last(b)), Init(b) + [x]; e.Fits(m) && e.Apply(m) == b
  {
    assert (Init(b) + [x])[|b| - 1 := Last(b)] == b;
  }

  lemma {:induction false} ScriptByMatch<T>(t: seq<Edit<T>>, a: seq<T>, b: seq<T>) returns (s: seq<Edit<T>>)
    requires a != [] && b != [] && Transforms(t, Init(a), Init(b))
    ensures Transforms(s, a, b) && |s| == |t| + Cost(Last(a), Last(b))
  {
    var m := Init(b) + [Last(a)];
    ExtendScript(t, Init(a), Init(b), Last(a));
    InitAndLast(a);
    InitAndLast(b);
    s := t;
    if Last(a) != Last(b) { s := ScriptBySubstitute(t, a, b, Last(a)); }
  }

  lemma {:induction false} InitAndLast<T>(a: seq<T>)
    requires a != []
    ensures Init(a) + [Last(a)] == a
  {
  }

  lemma {:induction false} ScriptBySubstitute<T>(t: seq<Edit<T>>, a: seq<T>, b: seq<T>, x: T) returns (s: seq<Edit<T>>)
    requires b != [] && Transforms(t, a, Init(b) + [x])
    ensures Transforms(s, a, b) && |s| == |t| + 1
  {
    SubstituteLast(b, x);
    AppendEdit(t, Substitute(|b| - 1, Last(b)), a, Init(b) + [x]);
    s := t + [Substitute(|b| - 1, Last(b))];
  }

  /** A script as short as the recurrence says exists. */
  lemma {:induction false} ScriptOfLengthDist<T>(a: seq<T>, b: seq<T>) returns (s: seq<Edit<T>>)
    ensures Transforms(s, a, b) && |s| == Dist(a, b)
    decreases |a| + |b|
  {
    if a == [] && b == [] {
      s := [];
    } else if a == [] || (b != [] && Dist(a, b) == Dist(a, Init(b)) + 1) {
      var t := ScriptOfLengthDist(a, Init(b));
      s := ScriptByInsert(t, a, b);
    } else if b == [] || Dist(a, b) == Dist(Init(a), b) + 1 {
      var t := ScriptOfLengthDist(Init(a), b);
      s := ScriptByDelete(t, a, b);
    } else {
      var t := ScriptOfLengthDist(Init(a), Init(b));
      s := ScriptByMatch(t, a, b);
    }
  }

  /** Dropping the last element changes the recurrence by at most one. */
  lemma {:induction false} DistInit<T>(a: seq<T>, x: T, b: seq<T>)
    ensures Dist(a, b) <= Dist(a + [x], b) + 1
    decreases |b|
  {
    assert Init(a + [x]) == a;
    if b != [] {
      DistInit(a, x, Init(b));
      DistGrow(a, b);
    } else if a == [] {
    }
  }

  lemma {:induction false} DistGrow<T>(a: seq<T>, b: seq<T>)
    requires b != []
    ensures Dist(a, b) <= Dist(a, Init(b)) + 1
  {
  }

  lemma {:induction false} DistReplaceLast<T>(p: seq<T>, x: T, y: T, b: seq<T>)
    ensures Dist(p + [x], b) <= Dist(p + [y], b) + 1
    decreases |b|
  {
    assert Init(p + [x]) == p && Init(p + [y]) == p;
    if b != [] { DistReplaceLast(p, x, y, Init(b)); }
  }

  /** If an edit of `p` into `q` costs at most one, so does the same edit before a further element. */
  lemma {:induction false} DistUnderLast<T>(p: seq<T>, q: seq<T>, x: T, b: seq<T>)
    requires forall k :: 0 <= k <= |b| ==> Dist(p, b[..k]) <= Dist(q, b[..k]) + 1
    requires |p| <= |q| + 1
    ensures Dist(p + [x], b) <= Dist(q + [x], b) + 1
    decreases |b|
  {
    assert Init(p + [x]) == p && Init(q + [x]) == q;
    if b != [] {
      forall k | 0 <= k <= |Init(b)| ensures Init(b)[..k] == b[..k] {}
      DistUnderLast(p, q, x, Init(b));
      assert b[..|b|] == b;
    }
  }

  /** One edit of the left string, anywhere, changes the recurrence by at most one. */
  lemma {:induction false} DistEdit<T>(e: Edit<T>, a: seq<T>, b: seq<T>)
    requires e.Fits(a)
    ensures Dist(a, b) <= Dist(e.Apply(a), b) + 1
    decreases |a|
  {
    if e.Insert? && e.at == |a| {
      assert e.Apply(a) == a + [e.c];
      DistInit(a, e.c, b);
    } else {
      var p, x := Init(a), Last(a);
      assert a == p + [x];
      if e.Fits(p) {
        var q := e.Apply(p);
        ApplyUnderLast(e, p, x);
        forall k | 0 <= k <= |b| ensures Dist(p, b[..k]) <= Dist(q, b[..k]) + 1 {
          DistEdit(e, p, b[..k]);
        }
        DistUnderLast(p, q, x, b);
      } else if e.Delete? {
        assert e.Apply(a) == p;
      } else {
        assert e.Apply(a) == p + [e.c];
        DistReplaceLast(p, x, e.c, b);
      }
    }
  }

  /** No script is shorter than the recurrence says. */
  lemma {:induction false} NoShorterScript<T>(s: seq<Edit<T>>, a: seq<T>, b: seq<T>)
    requires Transforms(s, a, b)
    ensures Dist(a, b) <= |s|
    decreases |s|
  {
    if s == [] {
      DistSelf(a);
    } else {
      DistEdit(s[0], a, b);
      NoShorterScript(s[1..], s[0].Apply(a), b);
    }
  }

  lemma {:induction false} DistSelf<T>(a: seq<T>)
    ensures Dist(a, a) == 0
    decreases |a|
  {
    if a != [] { DistSelf(Init(a)); }
  }

  /** The recurrence computes the length of a shortest script. */
  lemma {:induction false} DistIsEditDistance<T(!new)>(a: seq<T>, b: seq<T>)
    ensures IsEditDistance(a, b, Dist(a, b))
  {
    var s := ScriptOfLengthDist(a, b);
    forall t: seq<Edit<T>> | Transforms(t, a, b) ensures |t| >= Dist(a, b) {
      NoShorterScript(t, a, b);
    }
  }

  // ---------------------------------------------------------------- metric laws

  lemma {:induction false} EditDistanceUnique<T(!new)>(a: seq<T>, b: seq<T>, d: int, e: int)
    requires IsEditDistance(a, b, d) && IsEditDistance(a, b, e)
    ensures d == e
  {
    var s: seq<Edit<T>> :| Transforms(s, a, b) && |s| == d;
    var t: seq<Edit<T>> :| Transforms(t, a, b) && |t| == e;
  }

  lemma {:induction false} EditDistanceSymmetric<T(!new)>(a: seq<T>, b: seq<T>, d: int)
    requires IsEditDistance(a, b, d)
    ensures IsEditDistance(b, a, d)
  {
    var s: seq<Edit<T>> :| Transforms(s, a, b) && |s| == d;
    var r := ReverseScript(s, a, b);
    forall t: seq<Edit<T>> | Transforms(t, b, a) ensures |t| >= d {
      var u := ReverseScript(t, b, a);
    }
  }

  lemma {:induction false} EditDistanceZero<T(!new)>(a: seq<T>, b: seq<T>, d: int)
    requires IsEditDistance(a, b, d)
    ensures d == 0 <==> a == b
  {
    var s: seq<Edit<T>> :| Transforms(s, a, b) && |s| == d;
    if a == b { assert Transforms<T>([], a, b); }
  }

  lemma {:induction false} EditDistanceTriangle<T(!new)>(a: seq<T>, b: seq<T>, c: seq<T>, ab: int, bc: int, ac: int)
    requires IsEditDistance(a, b, ab) && IsEditDistance(b, c, bc) && IsEditDistance(a, c, ac)
    ensures ac <= ab + bc
  {
    var s: seq<Edit<T>> :| Transforms(s, a, b) && |s| == ab;
    var t: seq<Edit<T>> :| Transforms(t, b, c) && |t| == bc;
    TransformsCompose(s, t, a, b, c);
    assert |s + t| == ab + bc;
  }

  lemma {:induction false} DistBounds<T>(a: seq<T>, b: seq<T>)
    ensures |a| - |b| <= Dist(a, b) && |b| - |a| <= Dist(a, b)
    ensures Dist(a, b) <= |a| || Dist(a, b) <= |b|
    decreases |a| + |b|
  {
    if a != [] && b != [] {
      DistBounds(a, Init(b));
      DistBounds(Init(a), b);
      DistBounds(Init(a), Init(b));
    }
  }

  /** Between the difference of the lengths and the longer length. */
  lemma {:induction false} EditDistanceBounds<T(!new)>(a: seq<T>, b: seq<T>, d: int)
    requires IsEditDistance(a, b, d)
    ensures |a| - |b| <= d && |b| - |a| <= d
    ensures d <= |a| || d <= |b|
  {
    DistIsEditDistance(a, b);
    EditDistanceUnique(a, b, d, Dist(a, b));
    DistBounds(a, b);
  }

  // ---------------------------------------------------------------- the two-row program

  /** The entry of the table for the first `i` bytes of `a` and the first `j` of `b`. */
  ghost function Cell<T>(a: seq<T>, b: seq<T>, i: nat, j: nat): nat
    requires i <= |a| && j <= |b|
  {
    Dist(a[..i], b[..j])
  }

  lemma {:induction false} CellStep<T>(a: seq<T>, b: seq<T>, i: nat, j: nat)
    requires 1 <= i <= |a| && 1 <= j <= |b|
    ensures Cell(a, b, i, j) ==
            Min(Cell(a, b, i, j-1) + 1, Min(Cell(a, b, i-1, j) + 1, Cell(a, b, i-1, j-1) + Cost(a[i-1], b[j-1])))
  {
    assert Init(a[..i]) == a[..i-1] && Init(b[..j]) == b[..j-1];
  }

  ghost predicate IsRow<T>(row: seq<int>, a: seq<T>, b: seq<T>, i: nat)
    requires i <= |a|
  {
    |row| == |b| + 1 && forall k :: 0 <= k <= |b| ==> row[k] == Cell(a, b, i, k)
  }

  /** The inner loop: row `i` of the table from row `i - 1`. */
  method FillRow<T(==)>(a: seq<T>, b: seq<T>, i: nat, prev: array<int>, curr: array<int>)
    requires 1 <= i <= |a| && prev != curr && curr.Length == |b| + 1
    requires IsRow(prev[..], a, b, i - 1)
    modifies curr
    ensures IsRow(curr[..], a, b, i)
  {
    curr[0] := i;
    for j := 1 to |b| + 1
      invariant IsRow(prev[..], a, b, i - 1)
      invariant forall k :: 0 <= k < j ==> curr[k] == Cell(a, b, i, k)
    {
      var cost := 1;
      if a[i-1] == b[j-1] { cost := 0; }
      CellStep(a, b, i, j);
      curr[j] := Min(curr[j-1] + 1, Min(prev[j] + 1, prev[j-1] + cost));
    }
  }

  method Levenshtein<T(==, !new)>(a: seq<T>, b: seq<T>) returns (d: nat)
    ensures IsEditDistance(a, b, d)
  {
    DistIsEditDistance(a, b);
    var la, lb := |a|, |b|;
    if la == 0 { return lb; }
    if lb == 0 { return la; }
    var prev := new int[lb + 1];
    var curr := new int[lb + 1];
    for j := 0 to lb + 1
      invariant forall k :: 0 <= k < j ==> prev[k] == k
    {
      prev[j] := j;
    }
    for i := 1 to la + 1
      invariant prev != curr && fresh(prev) && fresh(curr) && curr.Length == lb + 1
      invariant IsRow(prev[..], a, b, i - 1)
    {
      FillRow(a, b, i, prev, curr);
      prev, curr := curr, prev;
    }
    assert Cell(a, b, la, lb) == Dist(a, b) by { assert a[..la] == a && b[..lb] == b; }
    return prev[lb];
  }

  // ---------------------------------------------------------------- suggestions

  datatype Scored = Scored(name: string, dist: nat)

  /** The cut-off of `findSimilar`: half the longer of the lowered input and the raw candidate, plus one. */
  function Threshold(input: string, candidate: string): nat {
    (if |candidate| > |input| then |candidate| else |input|) / 2 + 1
  }

  /** The candidates within the cut-off, in the order given; `lower` is strings.ToLower. */
  ghost function Eligible(input: string, candidates: seq<string>, lower: string -> string): seq<Scored> {
    if candidates == [] then []
    else
      var rest := Eligible(input, candidates[..|candidates|-1], lower);
      var c := candidates[|candidates|-1];
      var d := Dist(input, lower(c));
      if d <= Threshold(input, c) then rest + [Scored(c, d)] else rest
  }

  /** A name is eligible with a score iff it is a candidate, the score is its edit distance
      to the input after lowering both, and the score is within the cut-off. */
  lemma {:induction false} EligibleIff(input: string, candidates: seq<string>, lower: string -> string, s: Scored)
    ensures s in Eligible(input, candidates, lower) <==>
            s.name in candidates && IsEditDistance(input, lower(s.name), s.dist)
            && (s.dist <= |input| / 2 + 1 || s.dist <= |s.name| / 2 + 1)
  {
    if candidates != [] {
      var c := candidates[|candidates|-1];
      EligibleIff(input, candidates[..|candidates|-1], lower, s);
      assert candidates == candidates[..|candidates|-1] + [c];
      DistIsEditDistance(input, lower(s.name));
      if s.name == c && IsEditDistance(input, lower(c), s.dist) {
        EditDistanceUnique(input, lower(c), s.dist, Dist(input, lower(c)));
      }
    }
  }

  predicate SortedByDist(s: seq<Scored>) {
    forall i, j :: 0 <= i < j < |s| ==> s[i].dist <= s[j].dist
  }

  /** `top` is a choice of the `n` closest of `all` (all of them if there are fewer), closest first. */
  ghost predicate IsClosest(top: seq<Scored>, all: seq<Scored>, n: int) {
    && |top| == (if n <= 0 then 0 else if n < |all| then n else |all|)
    && SortedByDist(top)
    && multiset(top) <= multiset(all)
    && forall x, y :: x in top && y in multiset(all) - multiset(top) ==> x.dist <= y.dist
  }

  /** The names as they are printed. */
  ghost function Names(s: seq<Scored>, quote: string -> string): seq<string> {
    seq(|s|, i requires 0 <= i < |s| => quote(s[i].name))
  }

  lemma {:induction false} SortedOrderExists(s: seq<Scored>) returns (t: seq<Scored>)
    ensures multiset(t) == multiset(s) && SortedByDist(t)
  {
    if s == [] {
      t := [];
    } else {
      var u := SortedOrderExists(s[1..]);
      assert s == [s[0]] + s[1..];
      t := InsertSorted(s[0], u);
    }
  }

  lemma {:induction false} InsertSorted(x: Scored, s: seq<Scored>) returns (t: seq<Scored>)
    requires SortedByDist(s)
    ensures multiset(t) == multiset(s) + multiset{x} && SortedByDist(t)
  {
    if s == [] || x.dist <= s[0].dist {
      t := [x] + s;
    } else {
      var u := InsertSorted(x, s[1..]);
      t := [s[0]] + u;
      BoundCarries(s[0].dist, x, s[1..], u);
      HeadAndRest(s, x, u);
    }
  }

  lemma {:induction false} HeadAndRest(s: seq<Scored>, x: Scored, u: seq<Scored>)
    requires s != [] && multiset(u) == multiset(s[1..]) + multiset{x}
    ensures multiset([s[0]] + u) == multiset(s) + multiset{x}
  {
    assert s == [s[0]] + s[1..];
  }

  lemma {:induction false} BoundCarries(d: nat, x: Scored, s: seq<Scored>, u: seq<Scored>)
    requires multiset(u) == multiset(s) + multiset{x} && d <= x.dist && forall y :: y in s ==> d <= y.dist
    ensures forall j :: 0 <= j < |u| ==> d <= u[j].dist
  {
    forall j | 0 <= j < |u| ensures d <= u[j].dist {
      assert u[j] in multiset(u);
    }
  }

  lemma {:induction false} PrefixIsClosest(sorted: seq<Scored>, all: seq<Scored>, k: nat, n: int)
    requires multiset(sorted) == multiset(all) && SortedByDist(sorted)
    requires k <= |sorted| && k == (if n <= 0 then 0 else if n < |sorted| then n else |sorted|)
    ensures IsClosest(sorted[..k], all, n)
  {
    assert |sorted| == |all| by { assert |multiset(sorted)| == |sorted| && |multiset(all)| == |all|; }
    MultisetSplit(sorted, k);
    forall x, y | x in sorted[..k] && y in multiset(all) - multiset(sorted[..k]) ensures x.dist <= y.dist {
      assert y in sorted[k..];
    }
  }

  lemma {:induction false} MultisetSplit(s: seq<Scored>, k: nat)
    requires k <= |s|
    ensures multiset(s) == multiset(s[..k]) + multiset(s[k..])
  {
    assert s == s[..k] + s[k..];
  }

  /** The closest candidates, closest first, each printed by `quote` (the %q verb). The order of
      equally close ones is left to the sort. */
  method FindSimilar(rawInput: string, candidates: seq<string>, maxResults: int, lower: string -> string, quote: string -> string)
    returns (out: seq<string>)
    ensures exists top ::
              IsClosest(top, Eligible(lower(rawInput), candidates, lower), maxResults) && out == Names(top, quote)
  {
    var results := Score(lower(rawInput), candidates, lower);
    var unsorted := results;
    // The sort of the library: some order by distance, not necessarily stable.
    ghost var witnessOrder := SortedOrderExists(results);
    results :| multiset(results) == multiset(unsorted) && SortedByDist(results);
    assert |multiset(results)| == |results|;
    out := Print(results, maxResults, quote);
    PrefixIsClosest(results, unsorted, |out|, maxResults);
  }

  /** Its last loop. */
  method Print(results: seq<Scored>, maxResults: int, quote: string -> string) returns (out: seq<string>)
    ensures |out| == (if maxResults <= 0 then 0 else if maxResults < |results| then maxResults else |results|)
    ensures out == Names(results[..|out|], quote)
  {
    out := [];
    var i := 0;
    while i < |results| && i < maxResults
      invariant 0 <= i <= |results| && (i == 0 || i <= maxResults)
      invariant out == Names(results[..i], quote)
    {
      out := out + [quote(results[i].name)];
      i := i + 1;
    }
  }

  /** Its first loop: the eligible candidates with their distances. */
  method Score(input: string, candidates: seq<string>, lower: string -> string) returns (results: seq<Scored>)
    ensures results == Eligible(input, candidates, lower)
  {
    results := [];
    for k := 0 to |candidates|
      invariant results == Eligible(input, candidates[..k], lower)
    {
      var c := candidates[k];
      var d := Levenshtein(input, lower(c));
      DistIsEditDistance(input, lower(c));
      EditDistanceUnique(input, lower(c), d, Dist(input, lower(c)));
      assert candidates[..k+1][..k] == candidates[..k];
      var maxLen := |input|;
      if |c| > maxLen { maxLen := |c|; }
      if d <= maxLen / 2 + 1 {
        results := results + [Scored(c, d)];
      }
    }
    assert candidates[..|candidates|] == candidates;
  }

  /** A candidate that equals the input up to case is suggested first, ahead of every other spelling. */
  lemma {:induction false} ExactMatchComesFirst(input: string, candidates: seq<string>, n: int, lower: string -> string,
                             c: string, top: seq<Scored>)
    requires c in candidates && lower(c) == input && n >= 1
    requires IsClosest(top, Eligible(input, candidates, lower), n)
    ensures top != [] && top[0].name in candidates && lower(top[0].name) == input
  {
    var all := Eligible(input, candidates, lower);
    DistIsEditDistance(input, input);
    DistSelf(input);
    EligibleIff(input, candidates, lower, Scored(c, 0));
    assert Scored(c, 0) in multiset(all);
    var first := top[0];
    assert first in multiset(top);
    if Scored(c, 0) in multiset(top) {
      assert Scored(c, 0) in top;
    } else {
      assert Scored(c, 0) in multiset(all) - multiset(top);
    }
    assert first.dist == 0;
    EligibleIff(input, candidates, lower, first);
    assert first in all;
    EditDistanceZero(input, lower(first.name), 0);
  }
}
