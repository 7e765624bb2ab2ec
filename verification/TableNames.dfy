/** Which tables a fragment of SQL names, by the dots outside its string literals, and which
    tables the fragments that the database filter writes name. */
module TableNames {
  import opened FilterCompiler
  import Strings

  // ---------------------------------------------------------------- names in a fragment

  predicate IsNameChar(c: char) { 'a' <= c <= 'z' || 'A' <= c <= 'Z' || '0' <= c <= '9' || c == '_' }

  /** The name that ends at position `k`. */
  function NameBefore(text: string, k: nat): string
    requires k <= |text|
  {
    if k == 0 || !IsNameChar(text[k-1]) then "" else NameBefore(text, k - 1) + [text[k-1]]
  }

  function Quotes(text: string): nat {
    if text == "" then 0 else Quotes(text[..|text|-1]) + if text[|text|-1] == '\'' then 1 else 0
  }

  /** A dot outside string literals qualifies a column by the name before it. */
  ghost predicate IsReference(text: string, k: nat) {
    k < |text| && text[k] == '.' && Quotes(text[..k]) % 2 == 0
  }

  /** Every table that the text names is one of these. */
  ghost predicate InScope(text: string, from: set<string>) {
    forall k: nat :: IsReference(text, k) ==> NameBefore(text, k) in from
  }

  /** What the listing looks for in a filter's text to join the schema table. */
  const SCHEMA_TEXT := "ds.metadata"

  // ---------------------------------------------------------------- reading fragments

  lemma {:induction false} NoQuotes(text: string)
    requires '\'' !in text
    ensures Quotes(text) == 0
  {
    if text != "" { NoQuotes(text[..|text|-1]); }
  }

  lemma {:induction false} QuotesConcat(a: string, b: string)
    ensures Quotes(a + b) == Quotes(a) + Quotes(b)
  {
    if b == "" {
      assert a + b == a;
    } else {
      QuotesConcat(a, b[..|b|-1]);
      assert (a + b)[..|a+b|-1] == a + b[..|b|-1];
    }
  }

  /** A table's name stands right before position `k`. */
  predicate StandsBefore(text: string, k: nat, table: string) {
    && |table| <= k <= |text| && text[k-|table|..k] == table && (forall c :: c in table ==> IsNameChar(c))
    && (k > |table| ==> !IsNameChar(text[k-|table|-1]))
  }

  lemma {:induction false} NameIs(text: string, k: nat, table: string)
    requires StandsBefore(text, k, table)
    ensures NameBefore(text, k) == table
  {
    if table != "" {
      var front := table[..|table|-1];
      assert text[k-1] == text[k-|table|..k][|table|-1] == table[|table|-1];
      assert text[k-1-|front|..k-1] == text[k-|table|..k][..|front|];
      NameIs(text, k - 1, front);
    }
  }

  /** A text that names one table, whose other dots are inside string literals. */
  ghost predicate OneName(text: string, before: string, table: string, after: string) {
    && text == before + table + "." + after
    && '.' !in before && '\'' !in before && (before != "" ==> !IsNameChar(before[|before|-1]))
    && (forall c :: c in table ==> IsNameChar(c))
    && forall i: nat :: i < |after| && after[i] == '.' ==> Quotes(after[..i]) % 2 == 1
  }

  lemma {:induction false} OneNameInScope(text: string, before: string, table: string, after: string, from: set<string>)
    requires OneName(text, before, table, after)
    ensures InScope(text, from) <==> table in from
  {
    var head := before + table;
    TheReference(text, head, after);
    assert text[|before|..|head|] == table;
    assert before != "" ==> text[|before|-1] == before[|before|-1];
    NameIs(text, |head|, table);
  }

  /** The first dot is a reference if no quote comes before it, and the only one if all later dots are quoted. */
  lemma {:induction false} TheReference(text: string, head: string, after: string)
    requires text == head + "." + after && '.' !in head && '\'' !in head
    requires forall i: nat :: i < |after| && after[i] == '.' ==> Quotes(after[..i]) % 2 == 1
    ensures forall k: nat :: IsReference(text, k) <==> k == |head|
  {
    NoQuotes(head);
    assert text[..|head|] == head;
    assert forall k: nat :: k < |head| ==> text[k] == head[k];
    forall k: nat | IsReference(text, k) ensures k == |head| {
      if k > |head| {
        QuotesAfter(text, head, after, k);
      }
    }
  }

  lemma {:induction false} QuotesAfter(text: string, head: string, after: string, k: nat)
    requires text == head + "." + after && '\'' !in head && |head| < k < |text|
    ensures text[k] == after[k-|head|-1] && Quotes(text[..k]) == Quotes(after[..k-|head|-1])
  {
    NoQuotes(head + ".");
    assert text[..k] == (head + ".") + after[..k-|head|-1];
    QuotesConcat(head + ".", after[..k-|head|-1]);
  }

  /** What names one table, and looks like the schema table's text only if its name ends so. */
  lemma {:induction false} OneNameOnly(text: string, before: string, table: string, after: string)
    requires text == before + table + "." + after
    requires '.' !in before && '\'' !in before && (before != "" ==> !IsNameChar(before[|before|-1]))
    requires table != "" && (forall c :: c in table ==> IsNameChar(c) && c != '.' && c != '\'') && '.' !in after
    ensures forall from :: InScope(text, from) <==> table in from
    ensures table[|table|-1] != 's' ==> !Strings.Contains(text, SCHEMA_TEXT)
  {
    forall from ensures InScope(text, from) <==> table in from {
      assert forall i: nat :: i < |after| ==> after[i] in after;
      OneNameInScope(text, before, table, after, from);
    }
    if table[|table|-1] != 's' {
      OneDot(text, before + table, after);
      NoSchemaText(text);
    }
  }

  lemma {:induction false} OneDot(text: string, head: string, after: string)
    requires text == head + "." + after && '.' !in head && '.' !in after
    ensures forall k: nat :: k < |text| && text[k] == '.' ==> k == |head|
    ensures head != "" ==> text[|head|-1] == head[|head|-1]
  {
    forall k: nat | k < |text| && k != |head| ensures text[k] != '.' {
      assert text[k] == if k < |head| then head[k] else after[k-|head|-1];
    }
  }

  lemma {:induction false} SchemasDotFree()
    ensures '.' !in SCHEMAS
  {
  }

  lemma {:induction false} TablesDotFree()
    ensures '.' !in TABLES
  {
  }

  lemma {:induction false} NamedDotFree()
    ensures '.' !in NAMED
  {
  }

  lemma {:induction false} BeforeDotFree()
    ensures '.' !in SCHEMA_BEFORE
  {
  }

  lemma {:induction false} BeforeQuoteFree()
    ensures '\'' !in SCHEMA_BEFORE
  {
  }

  lemma {:induction false} Apart(c: char, a: string, b: string)
    requires c !in a && c !in b
    ensures c !in a + b
  {
  }

  lemma {:induction false} AfterDotFree()
    ensures '.' !in SCHEMA_AFTER
  {
    SchemasDotFree();
    TablesDotFree();
    NamedDotFree();
    Apart('.', SCHEMAS, TABLES);
    Apart('.', SCHEMAS + TABLES, NAMED);
  }
  /** Two texts end to end, where no literal and no name runs over the seam. */
  lemma {:induction false} ScopeConcat(a: string, b: string, from: set<string>)
    requires '\'' !in a && (a != "" ==> !IsNameChar(a[|a|-1]))
    ensures InScope(a + b, from) <==> InScope(a, from) && InScope(b, from)
  {
    forall k: nat ensures k < |a| ==> (IsReference(a + b, k) <==> IsReference(a, k)) && NameBefore(a + b, k) == NameBefore(a, k) {
      if k < |a| {
        assert (a + b)[..k] == a[..k];
        SamePrefix(a, b, k);
      }
    }
    forall k: nat ensures (IsReference(a + b, |a| + k) <==> IsReference(b, k)) && (k <= |b| ==> NameBefore(a + b, |a| + k) == NameBefore(b, k)) {
      if k <= |b| {
        NoQuotes(a);
        QuotesConcat(a, b[..k]);
        assert (a + b)[..|a|+k] == a + b[..k];
        SameSuffix(a, b, k);
      }
    }
    ScopeParts(a, b, from);
  }

  lemma {:induction false} ScopeParts(a: string, b: string, from: set<string>)
    requires forall k: nat :: k < |a| ==> (IsReference(a + b, k) <==> IsReference(a, k)) && NameBefore(a + b, k) == NameBefore(a, k)
    requires forall k: nat :: (IsReference(a + b, |a| + k) <==> IsReference(b, k)) && (k <= |b| ==> NameBefore(a + b, |a| + k) == NameBefore(b, k))
    ensures InScope(a + b, from) <==> InScope(a, from) && InScope(b, from)
  {
    if InScope(a + b, from) {
      forall k: nat | IsReference(b, k) ensures NameBefore(b, k) in from { assert IsReference(a + b, |a| + k); }
    }
    if InScope(a, from) && InScope(b, from) {
      forall k: nat | IsReference(a + b, k) ensures NameBefore(a + b, k) in from {
        if k >= |a| { assert k == |a| + (k - |a|) && IsReference(b, k - |a|); }
      }
    }
  }

  lemma {:induction false} SamePrefix(a: string, b: string, k: nat)
    requires k <= |a|
    ensures NameBefore(a + b, k) == NameBefore(a, k)
  {
    if k > 0 { SamePrefix(a, b, k - 1); }
  }

  lemma {:induction false} SameSuffix(a: string, b: string, k: nat)
    requires k <= |b| && (a != "" ==> !IsNameChar(a[|a|-1]))
    ensures NameBefore(a + b, |a| + k) == NameBefore(b, k)
  {
    if k > 0 { SameSuffix(a, b, k - 1); }
  }

  lemma {:induction false} DotFree(text: string, from: set<string>)
    requires '.' !in text
    ensures InScope(text, from) && !Strings.Contains(text, SCHEMA_TEXT)
  {
    NoSchemaText(text);
  }

  lemma {:induction false} SchemaTextAt(text: string, k: nat)
    requires Strings.OccursAt(text, SCHEMA_TEXT, k)
    ensures k + 2 < |text| && text[k+1] == 's' && text[k+2] == '.'
  {
    var w := text[k..k+|SCHEMA_TEXT|];
    assert w[1] == text[k+1] && w[2] == text[k+2];
  }

  lemma {:induction false} NoSchemaText(text: string)
    requires forall k: nat :: k < |text| && text[k] == '.' ==> k > 0 && text[k-1] != 's'
    ensures !Strings.Contains(text, SCHEMA_TEXT)
  {
    if Strings.Contains(text, SCHEMA_TEXT) { SchemaTextAt(text, Strings.Index(text, SCHEMA_TEXT)); }
  }

  // ---------------------------------------------------------------- texts and the tables they name

  /** The text names `table` alone, and does not look like the schema table's. */
  ghost predicate NamesOnly(text: string, table: string) {
    (forall from :: InScope(text, from) <==> table in from) && !Strings.Contains(text, SCHEMA_TEXT)
  }

  ghost predicate NamesBoth(text: string) {
    (forall from :: InScope(text, from) <==> "db" in from && "instance" in from) && !Strings.Contains(text, SCHEMA_TEXT)
  }

  ghost predicate NamesSchema(text: string) {
    (forall from :: InScope(text, from) <==> "ds" in from) && Strings.Contains(text, SCHEMA_TEXT)
  }

  ghost predicate NamesNone(text: string) {
    (forall from :: InScope(text, from)) && !Strings.Contains(text, SCHEMA_TEXT)
  }

  /** A column of one table, with what follows it. */
  lemma {:induction false} ColumnText(text: string, table: string)
    requires table == "db" || table == "instance"
    requires table + "." <= text && forall k :: |table| < k < |text| ==> text[k] != '.'
    ensures NamesOnly(text, table)
  {
    assert text == "" + table + "." + text[|table|+1..];
    OneNameOnly(text, "", table, text[|table|+1..]);
  }

  lemma {:induction false} ProjectText()
    ensures NamesOnly("db.project = ", "db")
  {
    ColumnText("db.project = ", "db");
  }

  lemma {:induction false} InstanceText()
    ensures NamesOnly("db.instance = ", "db")
  {
    ColumnText("db.instance = ", "db");
  }

  lemma {:induction false} NameText()
    ensures NamesOnly("db.name = ", "db")
  {
    ColumnText("db.name = ", "db");
  }

  lemma {:induction false} NotProjectText()
    ensures NamesOnly("db.project != ", "db")
  {
    ColumnText("db.project != ", "db");
  }

  lemma {:induction false} NotDefaultText()
    ensures NamesOnly("db.project != 'default'", "db")
  {
    ColumnText("db.project != 'default'", "db");
  }

  lemma {:induction false} NoEnvironmentText()
    ensures NamesOnly("db.environment IS NULL", "db")
  {
    ColumnText("db.environment IS NULL", "db");
  }

  lemma {:induction false} NoInstanceEnvironmentText()
    ensures NamesOnly("instance.environment IS NULL", "instance")
  {
    ColumnText("instance.environment IS NULL", "instance");
  }

  lemma {:induction false} DotFreeText(text: string)
    requires '.' !in text
    ensures NamesNone(text)
  {
    forall from ensures InScope(text, from) { DotFree(text, from); }
    NoSchemaText(text);
  }

  lemma {:induction false} CloseText()
    ensures NamesNone(")")
  {
    DotFreeText(")");
  }

  lemma {:induction false} LowerNameText()
    ensures NamesOnly("LOWER(db.name) LIKE ", "db")
  {
    OneNameOnly("LOWER(db.name) LIKE ", "LOWER(", "db", "name) LIKE ");
  }

  lemma {:induction false} EngineText(after: string)
    requires '.' !in after
    ensures NamesOnly(ENGINE + after, "instance")
  {
    OneNameOnly(ENGINE + after, "", "instance", "metadata->>'engine'" + after);
  }

  lemma {:induction false} TableText(after: string)
    requires '.' !in after
    ensures NamesSchema(TABLE_NAME + after)
  {
    BeforeDotFree();
    BeforeQuoteFree();
    AfterDotFree();
    SchemaBeforeEnds();
    Apart('.', SCHEMA_AFTER, after);
    assert TABLE_NAME + after == SCHEMA_BEFORE + "ds" + "." + (SCHEMA_AFTER + after);
    OneNameOnly(TABLE_NAME + after, SCHEMA_BEFORE, "ds", SCHEMA_AFTER + after);
    SchemaTextInside(TABLE_NAME + after, SCHEMA_BEFORE, SCHEMA_AFTER + after);
  }

  lemma {:induction false} SchemaBeforeEnds()
    ensures SCHEMA_BEFORE != "" && SCHEMA_BEFORE[|SCHEMA_BEFORE|-1] == '('
  {
  }

  lemma {:induction false} SchemaTextInside(text: string, before: string, after: string)
    requires text == before + "ds" + "." + after && "metadata" <= after
    ensures Strings.Contains(text, SCHEMA_TEXT)
  {
    assert SCHEMA_TEXT == "ds" + "." + "metadata";
    assert text[|before|..|before|+|SCHEMA_TEXT|] == SCHEMA_TEXT;
    assert Strings.OccursAt(text, SCHEMA_TEXT, |before|);
  }

  /** A text that names two tables. */
  lemma {:induction false} TwoNames(before: string, x: string, between: string, y: string, after: string)
    requires '.' !in before && '\'' !in before && (before != "" ==> !IsNameChar(before[|before|-1]))
    requires '.' !in between && '\'' !in between && between != "" && !IsNameChar(between[|between|-1])
    requires x != "" && (forall c :: c in x ==> IsNameChar(c) && c != '.' && c != '\'') && x[|x|-1] != 's'
    requires y != "" && (forall c :: c in y ==> IsNameChar(c) && c != '.' && c != '\'') && y[|y|-1] != 's'
    requires '.' !in after
    ensures var text := before + x + "." + between + (y + "." + after);
            && (forall from :: InScope(text, from) <==> x in from && y in from) && !Strings.Contains(text, SCHEMA_TEXT)
  {
    var a, b := before + x + "." + between, y + "." + after;
    OneNameOnly(a, before, x, between);
    OneDot(a, before + x, between);
    assert b == "" + y + "." + after;
    OneNameOnly(b, "", y, after);
    OneDot(b, y, after);
    assert a[|a|-1] == between[|between|-1] && '\'' !in a;
    forall from ensures InScope(a + b, from) <==> x in from && y in from { ScopeConcat(a, b, from); }
    NoSchemaConcat(a, b);
  }

  lemma {:induction false} EnvironmentText()
    ensures NamesBoth(ENVIRONMENT + " = ")
  {
    TwoNames("COALESCE(", "db", "environment, ", "instance", "environment)" + " = ");
    assert ENVIRONMENT + " = " == "COALESCE(" + "db" + "." + "environment, " + ("instance" + "." + ("environment)" + " = "));
  }

  lemma {:induction false} NoSchemaConcat(a: string, b: string)
    requires forall k :: 0 <= k < |a| && a[k] == '.' ==> k > 0 && a[k-1] != 's'
    requires forall k :: 0 <= k < |b| && b[k] == '.' ==> k > 0 && b[k-1] != 's'
    ensures !Strings.Contains(a + b, SCHEMA_TEXT)
  {
    NoSchemaText(a + b);
  }

  // ---------------------------------------------------------------- label texts

  function LabelColumn(key: string): string { "db.metadata->'labels'->>'" + key + "'" }

  const LABELS := "'labels'->>'"

  /** Whatever stands in the string literal of the label's name, no table is named by it. */
  lemma {:induction false} LabelScope(key: string, after: string, from: set<string>)
    requires '\'' !in key && '.' !in after && "db" in from
    ensures InScope(LabelColumn(key) + after, from)
  {
    var a, b := "db.metadata->", LABELS + key + ("'" + after);
    LabelParts(key, after);
    LabelHead();
    LabelHeadQuotes();
    LabelsDotFree();
    LabelQuotes();
    ScopeConcat(a, b, from);
    QuotedKey(LABELS, key, "'" + after, from);
  }

  lemma {:induction false} LabelParts(key: string, after: string)
    ensures LabelColumn(key) + after == "db.metadata->" + (LABELS + key + ("'" + after))
  {
    assert "db.metadata->'labels'->>'" == "db.metadata->" + LABELS;
  }

  lemma {:induction false} LabelHead()
    ensures NamesOnly("db.metadata->", "db")
  {
    ColumnText("db.metadata->", "db");
  }

  lemma {:induction false} LabelHeadQuotes()
    ensures '\'' !in "db.metadata->"
  {
  }

  lemma {:induction false} LabelsDotFree()
    ensures '.' !in LABELS && LABELS[|LABELS|-1] == '\''
  {
  }

  lemma {:induction false} HeadNamesDb(rest: string)
    requires '.' !in rest
    ensures forall k: nat :: k < |"db.metadata->" + rest| && ("db.metadata->" + rest)[k] == '.' ==> k > 0 && ("db.metadata->" + rest)[k-1] != 's'
  {
  }

  lemma {:induction false} LabelQuotes()
    ensures Quotes(LABELS) == 3
  {
    ThreeQuotes("labels", "->>");
    assert LABELS == "'" + "labels" + "'" + "->>" + "'";
  }

  lemma {:induction false} ThreeQuotes(a: string, b: string)
    requires '\'' !in a && '\'' !in b
    ensures Quotes("'" + a + "'" + b + "'") == 3
  {
    assert "'"[..0] == "" && Quotes("'") == 1;
    NoQuotes(a);
    NoQuotes(b);
    QuotesConcat("'", a);
    QuotesConcat("'" + a, "'");
    QuotesConcat("'" + a + "'", b);
    QuotesConcat("'" + a + "'" + b, "'");
  }

  lemma {:induction false} QuotedKey(before: string, key: string, after: string, from: set<string>)
    requires '.' !in before && Quotes(before) % 2 == 1 && '\'' !in key && '.' !in after
    ensures InScope(before + key + after, from)
  {
    var text := before + key + after;
    forall k: nat | k < |text| && text[k] == '.' ensures Quotes(text[..k]) % 2 == 1 {
      assert k >= |before| && text[..k] == before + key[..k-|before|];
      NoQuotes(key[..k-|before|]);
      QuotesConcat(before, key[..k-|before|]);
    }
  }

  /** The label's text holds what its name holds of the schema table's. */
  lemma {:induction false} LabelMentions(key: string, after: string)
    requires '.' !in after
    ensures Strings.Contains(LabelColumn(key) + after, SCHEMA_TEXT) <==> Strings.Contains(key, SCHEMA_TEXT)
  {
    LabelParts(key, after);
    LabelsDotFree();
    HeadNamesDb(LABELS);
    var before := "db.metadata->" + LABELS;
    assert LabelColumn(key) + after == before + key + ("'" + after);
    ContainsInside(before, key, "'" + after);
  }

  lemma {:induction false} ContainsInside(before: string, key: string, after: string)
    requires before != "" && before[|before|-1] == '\'' && after != "" && after[0] == '\''
    requires forall k :: 0 <= k < |before| && before[k] == '.' ==> k > 0 && before[k-1] != 's'
    requires '.' !in after
    ensures Strings.Contains(before + key + after, SCHEMA_TEXT) <==> Strings.Contains(key, SCHEMA_TEXT)
  {
    var text := before + key + after;
    if Strings.Contains(key, SCHEMA_TEXT) {
      var k := Strings.Index(key, SCHEMA_TEXT);
      assert text[|before|+k..|before|+k+|SCHEMA_TEXT|] == key[k..k+|SCHEMA_TEXT|];
      assert Strings.OccursAt(text, SCHEMA_TEXT, |before| + k);
    }
    if Strings.Contains(text, SCHEMA_TEXT) {
      var k := Strings.Index(text, SCHEMA_TEXT);
      InsideKey(before, key, after, k);
      assert Strings.OccursAt(key, SCHEMA_TEXT, k - |before|);
    }
  }

  lemma {:induction false} InsideKey(before: string, key: string, after: string, k: nat)
    requires before != "" && before[|before|-1] == '\'' && after != "" && after[0] == '\''
    requires forall i :: 0 <= i < |before| && before[i] == '.' ==> i > 0 && before[i-1] != 's'
    requires '.' !in after && Strings.OccursAt(before + key + after, SCHEMA_TEXT, k)
    ensures |before| <= k && Strings.OccursAt(key, SCHEMA_TEXT, k - |before|)
  {
    var text, n := before + key + after, |SCHEMA_TEXT|;
    assert '\'' !in SCHEMA_TEXT;
    forall i | k <= i < k + n ensures text[i] != '\'' { assert text[i] == text[k..k+n][i-k]; }
    SchemaTextAt(text, k);
    assert text[|before|-1] == '\'' && text[|before|+|key|] == '\'';
    assert text[k..k+n] == key[k-|before|..k-|before|+n];
  }
}
