/** SQL's LIKE, and what `column LIKE '%' || text || '%'` asks for: a substring, for a text without
    wildcards. */
module Like {
  import Strings

  /** `%` stands for any text, `_` for any character, and a backslash takes the next character as
      it is. */
  predicate Matches(s: string, p: string)
    decreases |p|, |s|
  {
    if p == "" then s == ""
    else if p[0] == '%' then Matches(s, p[1..]) || (s != "" && Matches(s[1..], p))
    else if p[0] == '\\' && |p| >= 2 then s != "" && s[0] == p[1] && Matches(s[1..], p[2..])
    else s != "" && (p[0] == '_' || s[0] == p[0]) && Matches(s[1..], p[1..])
  }

  predicate Wildcard(c: char) { c == '%' || c == '_' || c == '\\' }

  ghost predicate Substring(x: string, s: string) { exists i: nat :: Strings.OccursAt(s, x, i) }

  lemma {:induction false} MatchesAll(s: string)
    ensures Matches(s, "%")
  {
    assert "%"[1..] == "";
    if s != "" { MatchesAll(s[1..]); }
  }

  lemma {:induction false} PercentFirst(s: string, p: string)
    ensures Matches(s, "%" + p) <==> exists i: nat :: i <= |s| && Matches(s[i..], p)
  {
    assert ("%" + p)[1..] == p && s[0..] == s;
    if s != "" {
      PercentFirst(s[1..], p);
      assert forall i: nat :: i < |s| ==> s[1..][i..] == s[i+1..];
      if exists i: nat :: i <= |s| && Matches(s[i..], p) {
        var i: nat :| i <= |s| && Matches(s[i..], p);
        if i > 0 { assert s[1..][i-1..] == s[i..]; }
      }
    }
  }

  lemma {:induction false} PlainPrefix(s: string, x: string)
    requires forall c :: c in x ==> !Wildcard(c)
    ensures Matches(s, x + "%") <==> x <= s
  {
    var p := x + "%";
    if x == "" {
      assert p == "%";
      MatchesAll(s);
    } else {
      assert p[0] == x[0] && x[0] in x && p[1..] == x[1..] + "%";
      if s != "" {
        PlainPrefix(s[1..], x[1..]);
        assert x <= s <==> x[0] == s[0] && x[1..] <= s[1..];
      }
    }
  }

  /** A text without wildcards at the front stands for itself. */
  lemma {:induction false} PlainFirst(s: string, x: string, p: string)
    requires forall c :: c in x ==> !Wildcard(c)
    ensures Matches(s, x + p) <==> x <= s && Matches(s[|x|..], p)
  {
    if x == "" {
      assert x + p == p && s[0..] == s;
    } else {
      assert (x + p)[0] == x[0] && x[0] in x && (x + p)[1..] == x[1..] + p;
      if s != "" {
        PlainFirst(s[1..], x[1..], p);
        assert x <= s <==> x[0] == s[0] && x[1..] <= s[1..];
        if x <= s { assert s[1..][|x|-1..] == s[|x|..]; }
      }
    }
  }

  lemma {:induction false} PlainIsSubstring(s: string, x: string)
    requires forall c :: c in x ==> !Wildcard(c)
    ensures Matches(s, "%" + x + "%") <==> Substring(x, s)
  {
    assert "%" + x + "%" == "%" + (x + "%");
    PercentFirst(s, x + "%");
    forall i: nat | i <= |s| ensures Matches(s[i..], x + "%") <==> Strings.OccursAt(s, x, i) {
      PlainPrefix(s[i..], x);
      if i + |x| <= |s| { assert s[i..][..|x|] == s[i..i+|x|]; }
    }
    if Substring(x, s) {
      var i: nat :| Strings.OccursAt(s, x, i);
      assert Matches(s[i..], x + "%");
    }
  }

  lemma {:induction false} NotInside(x: string, s: string)
    requires |s| <= |x| && s != x
    ensures !Substring(x, s)
  {
    forall i: nat ensures !Strings.OccursAt(s, x, i) {
      if i == 0 && |s| == |x| { assert s[0..|x|] == s; }
    }
  }

  /** A shortest text that the pattern, and anything after it, matches. */
  function Shortest(x: string): string
    decreases |x|
  {
    if x == "" then ""
    else if x[0] == '%' then Shortest(x[1..])
    else if x == "\\" then "%"
    else if x[0] == '\\' then [x[1]] + Shortest(x[2..])
    else (if x[0] == '_' then "a" else [x[0]]) + Shortest(x[1..])
  }

  lemma {:induction false} ShortestMatches(x: string)
    ensures Matches(Shortest(x), x + "%")
    ensures |Shortest(x)| <= |x| && ((exists c :: c in x && Wildcard(c)) ==> Shortest(x) != x)
    decreases |x|
  {
    var s, p := Shortest(x), x + "%";
    if x == "" {
      assert p == "%";
      MatchesAll(s);
    } else if x[0] == '%' {
      ShortestMatches(x[1..]);
      assert p[1..] == x[1..] + "%";
    } else if x == "\\" {
      assert p == "\\%" && p[2..] == "" && s[1..] == "";
    } else if x[0] == '\\' {
      ShortestMatches(x[2..]);
      assert p[2..] == x[2..] + "%" && s[1..] == Shortest(x[2..]);
    } else {
      ShortestMatches(x[1..]);
      assert p[1..] == x[1..] + "%" && s[1..] == Shortest(x[1..]) && x == [x[0]] + x[1..];
    }
  }

  /** A pattern between two percent signs asks for a substring, whatever the column holds, exactly
      when it has no wildcard. */
  lemma {:induction false} SubstringIff(x: string)
    ensures (forall s :: Matches(s, "%" + x + "%") <==> Substring(x, s)) <==> forall c :: c in x ==> !Wildcard(c)
  {
    if forall c :: c in x ==> !Wildcard(c) {
      forall s ensures Matches(s, "%" + x + "%") <==> Substring(x, s) { PlainIsSubstring(s, x); }
    } else {
      var s := Shortest(x);
      ShortestMatches(x);
      PercentFirst(s, x + "%");
      assert s[0..] == s && "%" + x + "%" == "%" + (x + "%");
      NotInside(x, s);
    }
  }
}
