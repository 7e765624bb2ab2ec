/** The pieces of Go's strings and strconv packages that the modelled code relies on.
    A Go string is a sequence of bytes; here one character stands for one byte. */
module Strings {
  import opened Results

  // ---------------------------------------------------------------- searching and splitting

  predicate OccursAt(s: string, w: string, i: nat) {
    i + |w| <= |s| && s[i..i+|w|] == w
  }

  /** strings.Index: where `w` first occurs in `s`, or -1. */
  function Index(s: string, w: string): (r: int)
    ensures -1 <= r && (r >= 0 ==> OccursAt(s, w, r))
    ensures forall k: nat :: (r < 0 || k < r) ==> !OccursAt(s, w, k)
    decreases |s|
  {
    if |s| < |w| then -1
    else if s[..|w|] == w then 0
    else
      OccursInTail(s, w);
      var r := Index(s[1..], w);
      if r < 0 then -1 else r + 1
  }

  lemma {:induction false} OccursInTail(s: string, w: string)
    requires s != ""
    ensures forall k: nat :: OccursAt(s, w, k) <==> if k == 0 then w <= s else OccursAt(s[1..], w, k - 1)
  {
    forall k: nat | k > 0 ensures OccursAt(s, w, k) <==> OccursAt(s[1..], w, k - 1) {
      if k + |w| <= |s| { assert s[1..][k-1..k-1+|w|] == s[k..k+|w|]; }
    }
  }

  lemma {:induction false} IndexIs(s: string, w: string, i: nat)
    requires OccursAt(s, w, i) && forall k: nat :: k < i ==> !OccursAt(s, w, k)
    ensures Index(s, w) == i
  {
  }

  lemma {:induction false} OccursHead(s: string, w: string, k: nat)
    requires w != "" && k < |s|
    ensures OccursAt(s, w, k) ==> s[k] == w[0]
  {
    if OccursAt(s, w, k) { assert s[k..k+|w|][0] == s[k]; }
  }

  /** strings.Contains. */
  predicate Contains(s: string, w: string) { Index(s, w) >= 0 }

  /** strings.Split for a non-empty separator. */
  function Split(s: string, sep: string): (parts: seq<string>)
    requires sep != ""
    ensures parts != []
    decreases |s|
  {
    var i := Index(s, sep);
    if i < 0 then [s] else [s[..i]] + Split(s[i+|sep|..], sep)
  }

  function TrimPrefix(s: string, p: string): string {
    if p <= s then s[|p|..] else s
  }

  /** strings.Cut: the text before and after the first `sep`. */
  function Cut(s: string, sep: string): Result<(string, string)> {
    var i := Index(s, sep);
    if i < 0 then Error else Ok((s[..i], s[i+|sep|..]))
  }

  lemma {:induction false} ContainsIff(s: string, w: string)
    ensures Contains(s, w) <==> exists k: nat :: OccursAt(s, w, k)
  {
  }

  /** Without the prefix, if it has it. */
  lemma {:induction false} TrimPrefixIs(p: string, x: string, s: string)
    ensures TrimPrefix(p + x, p) == x && (!(p <= s) ==> TrimPrefix(s, p) == s)
  {
    assert (p + x)[|p|..] == x;
  }

  /** A text is cut where the separator first occurs, and not without one. */
  lemma {:induction false} CutIff(s: string, sep: string, a: string, b: string)
    ensures Cut(s, sep) == Ok((a, b)) <==> s == a + sep + b && forall k: nat :: k < |a| ==> !OccursAt(s, sep, k)
  {
    if s == a + sep + b && forall k: nat :: k < |a| ==> !OccursAt(s, sep, k) {
      assert s[|a|..|a|+|sep|] == sep;
      IndexIs(s, sep, |a|);
      assert s[..|a|] == a && s[|a|+|sep|..] == b;
    }
    if Cut(s, sep) == Ok((a, b)) { assert s == a + s[|a|..|a|+|sep|] + b; }
  }

  // ---------------------------------------------------------------- slash-separated paths

  predicate SlashFree(s: string) { '/' !in s }

  predicate AllSlashFree(segs: seq<string>) { forall s :: s in segs ==> SlashFree(s) }

  /** The segments joined by single slashes. */
  function Path(segs: seq<string>): string
    requires segs != []
  {
    if |segs| == 1 then segs[0] else segs[0] + "/" + Path(segs[1..])
  }

  lemma {:induction false} PathAppend(segs: seq<string>, x: string)
    requires segs != []
    ensures Path(segs + [x]) == Path(segs) + "/" + x
  {
    if |segs| == 1 {
      assert (segs + [x])[1..] == [x];
    } else {
      PathAppend(segs[1..], x);
      assert (segs + [x])[1..] == segs[1..] + [x];
    }
  }

  lemma {:induction false} PathAppend2(segs: seq<string>, x: string, y: string)
    requires segs != []
    ensures Path(segs + [x, y]) == Path(segs) + "/" + x + "/" + y
  {
    PathAppend(segs, x);
    PathAppend(segs + [x], y);
    assert segs + [x] + [y] == segs + [x, y];
  }

  /** The first slash comes right after a slash-free head. */
  lemma {:induction false} FirstSlash(head: string, rest: string)
    requires SlashFree(head)
    ensures Index(head + "/" + rest, "/") == |head|
  {
    var s := head + "/" + rest;
    assert s[|head|..|head|+1] == "/";
    forall k: nat | k < |head| ensures !OccursAt(s, "/", k) {
      OccursHead(s, "/", k);
      assert s[k] == head[k];
    }
    IndexIs(s, "/", |head|);
  }

  /** Splitting on slashes undoes joining by them. */
  lemma {:induction false} SplitPath(segs: seq<string>)
    requires segs != [] && AllSlashFree(segs)
    ensures Split(Path(segs), "/") == segs
  {
    assert segs[0] in segs;
    if |segs| == 1 {
      NoSlash(segs[0]);
    } else {
      var head, rest := segs[0], Path(segs[1..]);
      FirstSlash(head, rest);
      SplitPath(segs[1..]);
      assert (head + "/" + rest)[..|head|] == head && (head + "/" + rest)[|head|+1..] == rest;
      SplitOnce(head + "/" + rest, "/", |head|, head, rest);
    }
  }

  lemma {:induction false} NoSlash(s: string)
    requires SlashFree(s)
    ensures Index(s, "/") == -1
  {
    forall k: nat | k < |s| ensures !OccursAt(s, "/", k) { OccursHead(s, "/", k); }
  }

  lemma {:induction false} SplitOnce(s: string, sep: string, i: nat, head: string, tail: string)
    requires sep != "" && Index(s, sep) == i && s[..i] == head && s[i+|sep|..] == tail
    ensures Split(s, sep) == [head] + Split(tail, sep)
  {
    SplitAtIndex(s, sep, i);
  }

  lemma {:induction false} SplitAtIndex(s: string, sep: string, i: int)
    requires sep != "" && Index(s, sep) == i
    ensures Split(s, sep) == if i < 0 then [s] else [s[..i]] + Split(s[i+|sep|..], sep)
  {
  }

  /** Joining by slashes undoes splitting on them, and the parts have no slash. */
  lemma {:induction false} PathSplit(s: string)
    ensures AllSlashFree(Split(s, "/")) && Path(Split(s, "/")) == s
    decreases |s|
  {
    var i := Index(s, "/");
    forall k | 0 <= k < |s| ensures s[k] == '/' <==> OccursAt(s, "/", k) {
      SlashOccurs(s, k);
    }
    if i >= 0 {
      PathSplit(s[i+1..]);
      assert s == s[..i] + "/" + s[i+1..];
    }
  }

  lemma {:induction false} SlashOccurs(s: string, k: nat)
    requires k < |s|
    ensures s[k] == '/' <==> OccursAt(s, "/", k)
  {
    assert s[k..k+1] == [s[k]];
  }

  /** A slash-free word starts a path iff it starts the path's first segment. */
  lemma {:induction false} WordStartsPath(segs: seq<string>, w: string)
    requires segs != [] && AllSlashFree(segs) && SlashFree(w)
    ensures w <= Path(segs) <==> w <= segs[0]
  {
    if |segs| > 1 && |w| > |segs[0]| {
      assert w[|segs[0]|] != '/' && Path(segs)[|segs[0]|] == '/';
    }
  }

  /** The first segment after the head that starts with `w`, or the number of segments. */
  function FirstStart(segs: seq<string>, w: string): (k: nat)
    requires segs != []
    ensures 1 <= k <= |segs| && (k < |segs| ==> w <= segs[k])
    ensures forall j :: 1 <= j < k ==> !(w <= segs[j])
  {
    if |segs| == 1 then 1
    else if w <= segs[1] then 1
    else
      var k := FirstStart(segs[1..], w);
      assert forall j :: 2 <= j < k + 1 ==> segs[j] == segs[1..][j-1];
      k + 1
  }

  lemma {:induction false} NoOccurrenceInHead(head: string, rest: string, v: string, i: nat)
    requires SlashFree(head) && v != "" && v[0] == '/' && i < |head|
    ensures !OccursAt(head + rest, v, i)
  {
    OccursHead(head + rest, v, i);
    assert (head + rest)[i] == head[i];
  }

  lemma {:induction false} OccurrenceAfterHead(head: string, rest: string, w: string)
    ensures OccursAt(head + "/" + rest, "/" + w, |head|) <==> w <= rest
  {
    var s, v, h := head + "/" + rest, "/" + w, |head|;
    if h + |v| <= |s| {
      assert s[h..h+|v|] == "/" + rest[..|w|];
      assert v[1..] == w && ("/" + rest[..|w|])[1..] == rest[..|w|];
    }
  }

  /** `"/" + w` first occurs in a path just before the first later segment that starts with `w`. */
  lemma {:induction false} IndexInPath(segs: seq<string>, w: string)
    requires segs != [] && AllSlashFree(segs) && SlashFree(w)
    ensures var k := FirstStart(segs, w);
            Index(Path(segs), "/" + w) == if k == |segs| then -1 else |Path(segs[..k])|
  {
    assert segs[0] in segs;
    if |segs| == 1 {
      NoneInHead(segs[0], "/" + w);
    } else {
      var head, rest := segs[0], Path(segs[1..]);
      IndexOneHead(head, rest, w);
      WordStartsPath(segs[1..], w);
      assert segs[..1] == [head];
      if !(w <= segs[1]) {
        IndexInPath(segs[1..], w);
        if FirstStart(segs, w) < |segs| { PathInit(segs, FirstStart(segs, w)); }
      }
    }
  }

  lemma {:induction false} NoneInHead(head: string, v: string)
    requires SlashFree(head) && v != "" && v[0] == '/'
    ensures Index(head, v) == -1
  {
    forall i: nat | i < |head| ensures !OccursAt(head, v, i) { OccursHead(head, v, i); }
  }

  lemma {:induction false} PathInit(segs: seq<string>, k: nat)
    requires 1 < k < |segs|
    ensures Path(segs[..k]) == segs[0] + "/" + Path(segs[1..][..k-1])
  {
    assert segs[..k][1..] == segs[1..][..k-1];
  }

  lemma {:induction false} IndexOneHead(head: string, rest: string, w: string)
    requires SlashFree(head)
    ensures var s, r := head + "/" + rest, Index(rest, "/" + w);
            Index(s, "/" + w) == if w <= rest then |head| else if r < 0 then -1 else |head| + 1 + r
  {
    var s, v := head + "/" + rest, "/" + w;
    forall i: nat | i < |head| ensures !OccursAt(s, v, i) {
      NoOccurrenceInHead(head, "/" + rest, v, i);
      assert s == head + ("/" + rest);
    }
    OccurrenceAfterHead(head, rest, w);
    if w <= rest {
      IndexIs(s, v, |head|);
    } else {
      IndexPastHead(s, head, rest, v);
    }
  }

  lemma {:induction false} IndexPastHead(s: string, head: string, rest: string, v: string)
    requires s == head + "/" + rest
    requires forall i: nat :: i <= |head| ==> !OccursAt(s, v, i)
    ensures Index(s, v) == if Index(rest, v) < 0 then -1 else |head| + 1 + Index(rest, v)
  {
    var h, r := |head| + 1, Index(rest, v);
    forall i: nat | i >= h ensures OccursAt(s, v, i) <==> OccursAt(rest, v, i - h) {
      OccursPastHead(s, head, rest, v, i);
    }
    if r >= 0 {
      OccursPastHead(s, head, rest, v, h + r);
      IndexIs(s, v, h + r);
    }
  }

  lemma {:induction false} OccursPastHead(s: string, head: string, rest: string, v: string, i: nat)
    requires s == head + "/" + rest && i > |head|
    ensures OccursAt(s, v, i) <==> OccursAt(rest, v, i - |head| - 1)
  {
    var j := i - |head| - 1;
    if j + |v| <= |rest| { assert rest[j..j+|v|] == s[i..i+|v|]; }
  }

  /** What splitting a path on `"/" + w` yields, computed on the segments. */
  function Pieces(segs: seq<string>, w: string): (pieces: seq<string>)
    requires segs != []
    ensures pieces != []
    decreases |segs|
  {
    var k := FirstStart(segs, w);
    if k == |segs| then [Path(segs)]
    else [Path(segs[..k])] + Pieces([segs[k][|w|..]] + segs[k+1..], w)
  }

  lemma {:induction false} SplitPathOnWord(segs: seq<string>, w: string)
    requires segs != [] && AllSlashFree(segs) && SlashFree(w)
    ensures Split(Path(segs), "/" + w) == Pieces(segs, w)
    decreases |segs|
  {
    IndexInPath(segs, w);
    var k := FirstStart(segs, w);
    if k == |segs| {
      NotSplit(Path(segs), "/" + w);
    } else {
      var tail := [segs[k][|w|..]] + segs[k+1..];
      TailSlashFree(segs, k, w);
      SplitPathOnWord(tail, w);
      PathTail(segs, k, w);
      SplitOnce(Path(segs), "/" + w, |Path(segs[..k])|, Path(segs[..k]), Path(tail));
    }
  }

  lemma {:induction false} NotSplit(s: string, sep: string)
    requires sep != "" && Index(s, sep) == -1
    ensures Split(s, sep) == [s]
  {
  }

  lemma {:induction false} TailSlashFree(segs: seq<string>, k: nat, w: string)
    requires AllSlashFree(segs) && k < |segs| && w <= segs[k]
    ensures AllSlashFree([segs[k][|w|..]] + segs[k+1..])
  {
    assert segs[k] in segs;
    forall x | x in [segs[k][|w|..]] + segs[k+1..] ensures SlashFree(x) {
      if x != segs[k][|w|..] { assert x in segs; }
    }
  }

  lemma {:induction false} PathCut(segs: seq<string>, k: nat)
    requires 1 <= k < |segs|
    ensures Path(segs) == Path(segs[..k]) + "/" + Path(segs[k..])
  {
    if k == 1 {
      assert segs[..1] == [segs[0]];
    } else {
      PathCut(segs[1..], k - 1);
      PathInit(segs, k);
      assert segs[1..][k-1..] == segs[k..];
      JoinAssociates(segs[0], Path(segs[1..][..k-1]), Path(segs[k..]));
    }
  }

  lemma {:induction false} JoinAssociates(a: string, b: string, c: string)
    ensures a + "/" + (b + "/" + c) == a + "/" + b + "/" + c
  {
  }

  lemma {:induction false} PathWord(segs: seq<string>, w: string)
    requires segs != [] && w <= segs[0]
    ensures Path(segs) == w + Path([segs[0][|w|..]] + segs[1..])
  {
    var tail := [segs[0][|w|..]] + segs[1..];
    assert tail[1..] == segs[1..] && segs[0] == w + tail[0];
    if |segs| > 1 { assert w + tail[0] + "/" + Path(segs[1..]) == w + (tail[0] + "/" + Path(segs[1..])); }
  }

  lemma {:induction false} PathTail(segs: seq<string>, k: nat, w: string)
    requires 1 <= k < |segs| && w <= segs[k]
    ensures var i := |Path(segs[..k])|;
            i + 1 + |w| <= |Path(segs)| && Path(segs)[..i] == Path(segs[..k])
            && Path(segs)[i+|"/" + w|..] == Path([segs[k][|w|..]] + segs[k+1..])
  {
    PathCut(segs, k);
    PathWord(segs[k..], w);
    assert segs[k..][1..] == segs[k+1..];
    AfterWord(Path(segs[..k]), w, Path([segs[k][|w|..]] + segs[k+1..]));
  }

  lemma {:induction false} AfterWord(head: string, w: string, rest: string)
    ensures var s := head + "/" + (w + rest); s[..|head|] == head && s[|head| + |"/" + w|..] == rest
  {
  }

  /** Two later segments starting with `w` make at least three pieces. */
  lemma {:induction false} PiecesCount(segs: seq<string>, w: string, i: nat, j: nat)
    requires segs != [] && 1 <= i < j < |segs| && w <= segs[i] && w <= segs[j]
    ensures |Pieces(segs, w)| >= 3
  {
    var k := FirstStart(segs, w);
    assert k <= i;
    var tail := [segs[k][|w|..]] + segs[k+1..];
    assert tail[j - k] == segs[j];
    assert FirstStart(tail, w) < |tail|;
    assert |Pieces(tail, w)| >= 2;
  }

  // ---------------------------------------------------------------- decimal integers

  predicate IsInt64(n: int) { -0x8000_0000_0000_0000 <= n < 0x8000_0000_0000_0000 }

  type Int64 = n: int | IsInt64(n)

  predicate IsDigit(c: char) { '0' <= c <= '9' }

  function DigitOf(d: nat): char requires d < 10 { ('0' as int + d) as char }

  function FormatNat(n: nat): (s: string)
    ensures s != "" && forall c :: c in s ==> IsDigit(c)
  {
    if n < 10 then [DigitOf(n)] else FormatNat(n / 10) + [DigitOf(n % 10)]
  }

  /** The %d verb. */
  function FormatInt(n: int): (s: string)
    ensures s != "" && forall c :: c in s ==> IsDigit(c) || c == '-'
  {
    if n < 0 then "-" + FormatNat(-n) else FormatNat(n)
  }

  function ParseDigits(s: string): (r: Result<nat>)
    ensures r.Ok? <==> forall c :: c in s ==> IsDigit(c)
  {
    if s == "" then Ok(0)
    else if !IsDigit(s[|s|-1]) then Error
    else
      var rest :- ParseDigits(s[..|s|-1]);
      assert s == s[..|s|-1] + [s[|s|-1]];
      Ok(10 * rest + (s[|s|-1] as int - '0' as int))
  }

  /** strconv.ParseInt(s, 10, 64), which strconv.Atoi agrees with: an optional sign, at least
      one digit, nothing else, and a value that fits 64 bits. */
  function ParseInt(s: string): (r: Result<int>)
    ensures r.Ok? ==> IsInt64(r.value)
  {
    if s == "" then Error
    else
      var digits := if s[0] == '+' || s[0] == '-' then s[1..] else s;
      if digits == "" then Error
      else
        var m: int :- ParseDigits(digits);
        var n: int := if s[0] == '-' then 0 - m else m;
        if IsInt64(n) then Ok(n) else Error
  }

  function Pow10(k: nat): nat { if k == 0 then 1 else 10 * Pow10(k - 1) }

  /** The value of decimal digits: each one times its power of ten. */
  function DecimalValue(s: string): int
    requires forall c :: c in s ==> IsDigit(c)
  {
    if s == "" then 0 else (s[0] as int - '0' as int) * Pow10(|s| - 1) + DecimalValue(s[1..])
  }

  lemma {:induction false} OneMoreDigit(s: string, c: char)
    requires (forall d :: d in s ==> IsDigit(d)) && IsDigit(c)
    ensures forall d :: d in s + [c] ==> IsDigit(d)
    ensures DecimalValue(s + [c]) == 10 * DecimalValue(s) + (c as int - '0' as int)
  {
    if s == "" {
      assert s + [c] == [c] && [c][1..] == "" && Pow10(0) == 1;
    } else {
      OneMoreDigit(s[1..], c);
      assert (s + [c])[1..] == s[1..] + [c] && s[0] in s;
      ShiftDigit(s[0] as int - '0' as int, Pow10(|s| - 1), DecimalValue(s[1..]), c as int - '0' as int);
      assert Pow10(|s|) == 10 * Pow10(|s| - 1);
    }
  }

  lemma {:induction false} ShiftDigit(d: int, p: int, v: int, c: int)
    ensures d * (10 * p) + (10 * v + c) == 10 * (d * p + v) + c
  {
  }

  /** A natural number is printed by its decimal digits, without a leading zero. */
  lemma {:induction false} FormatNatIs(n: nat)
    ensures DecimalValue(FormatNat(n)) == n && (FormatNat(n)[0] == '0' ==> n == 0)
  {
    if n < 10 {
      assert FormatNat(n) == "" + [DigitOf(n)];
      OneMoreDigit("", DigitOf(n));
    } else {
      FormatNatIs(n / 10);
      OneMoreDigit(FormatNat(n / 10), DigitOf(n % 10));
    }
  }

  /** And an integer by those of its absolute value, behind a minus sign if it is negative. */
  lemma {:induction false} FormatIntIs(n: int)
    ensures n >= 0 ==> (forall c :: c in FormatInt(n) ==> IsDigit(c)) && DecimalValue(FormatInt(n)) == n && (FormatInt(n)[0] == '0' ==> n == 0)
    ensures n < 0 ==> FormatInt(n)[0] == '-' && (forall c :: c in FormatInt(n)[1..] ==> IsDigit(c))
                      && DecimalValue(FormatInt(n)[1..]) == -n && FormatInt(n)[1] != '0'
  {
    if n < 0 {
      FormatNatIs(-n);
      assert FormatInt(n)[1..] == FormatNat(-n) && FormatInt(n)[1] == FormatNat(-n)[0];
    } else {
      FormatNatIs(n);
    }
  }

  lemma {:induction false} DigitsRead(s: string)
    requires forall c :: c in s ==> IsDigit(c)
    ensures ParseDigits(s) == Ok(DecimalValue(s))
  {
    if s != "" {
      var init, last := s[..|s|-1], s[|s|-1];
      assert s == init + [last];
      DigitsRead(init);
      OneMoreDigit(init, last);
    }
  }

  /** What parses: an optional sign and at least one digit, if the value fits 64 bits. */
  lemma {:induction false} ParseIntIff(s: string, v: int)
    ensures ParseInt(s) == Ok(v) <==>
            && -9223372036854775808 <= v <= 9223372036854775807 && s != ""
            && var digits := if s[0] == '+' || s[0] == '-' then s[1..] else s;
               && digits != "" && (forall c :: c in digits ==> IsDigit(c))
               && v == if s[0] == '-' then 0 - DecimalValue(digits) else DecimalValue(digits)
  {
    if s != "" {
      var digits := if s[0] == '+' || s[0] == '-' then s[1..] else s;
      if forall c :: c in digits ==> IsDigit(c) { DigitsRead(digits); }
    }
  }

  lemma {:induction false} ParseFormatNat(n: nat)
    ensures ParseDigits(FormatNat(n)) == Ok(n)
  {
    if n < 10 {
      assert FormatNat(n)[..0] == "";
    } else {
      ParseFormatNat(n / 10);
      var s := FormatNat(n);
      assert s[..|s|-1] == FormatNat(n / 10);
    }
  }

  /** Every 64-bit integer is read back from its decimal text. */
  lemma {:induction false} ParseFormatInt(n: int)
    requires IsInt64(n)
    ensures ParseInt(FormatInt(n)) == Ok(n)
  {
    if n < 0 {
      ParseFormatNat(-n);
      assert FormatInt(n)[1..] == FormatNat(-n);
    } else {
      ParseFormatNat(n);
      assert IsDigit(FormatInt(n)[0]);
    }
  }

  lemma {:induction false} FormatIntSlashFree(n: int)
    ensures SlashFree(FormatInt(n))
    ensures forall w: string :: w != "" && !IsDigit(w[0]) && w[0] != '-' ==> !(w <= FormatInt(n))
  {
    assert FormatInt(n)[0] in FormatInt(n);
  }
}
