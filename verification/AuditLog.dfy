/** The batched audit-log rewrite of backend/migrator/migrator.go (migration 3.13.21): user
    references `users/{id}` become `users/{email}`, a bounded number of rows per transaction. */
module AuditLog {
  import opened Walks
  import opened Results
  import Like
  import Strings

  /** audit_log: the user reference of each row, by id. A row without one holds "". */
  type Table = map<int, string>

  /** principal: email by user id. */
  type Users = map<int, string>

  // ---------------------------------------------------------------- one reference

  function ConvertUserIDToEmail(ref: string, users: Users): string {
    if !("users/" <= ref) || '@' in ref then ref
    else
      match Strings.ParseInt(Strings.TrimPrefix(ref, "users/"))
      case Error => ref
      case Ok(id) => if id in users then "users/" + users[id] else ref
  }

  /** A reference by a known id becomes one by that user's email; a reference of another form, or one
      that holds an `@`, stays as it is, and so does an unknown id. */
  lemma {:induction false} ConvertIs(ref: string, users: Users, id: int)
    requires Strings.IsInt64(id)
    ensures ConvertUserIDToEmail("users/" + Strings.FormatInt(id), users) ==
            if id in users then "users/" + users[id] else "users/" + Strings.FormatInt(id)
    ensures '@' in ref || !("users/" <= ref) || Strings.ParseInt(ref[6..]).Error? ==> ConvertUserIDToEmail(ref, users) == ref
  {
    var text := Strings.FormatInt(id);
    Strings.ParseFormatInt(id);
    assert '@' !in text;
    ConvertPrefixed(text, users);
  }

  /** LIKE 'users/%' AND NOT LIKE 'users/%@%'. */
  predicate Matches(ref: string) { "users/" <= ref && '@' !in ref[6..] }

  lemma {:induction false} MatchesIsLike(ref: string)
    ensures Matches(ref) <==> Like.Matches(ref, "users/" + "%") && !Like.Matches(ref, "users/" + "%@%")
  {
    Like.PlainFirst(ref, "users/", "%");
    Like.PlainFirst(ref, "users/", "%@%");
    if "users/" <= ref {
      Like.MatchesAll(ref[6..]);
      HoldsAt(ref[6..]);
    }
  }

  lemma {:induction false} HoldsAt(s: string)
    ensures Like.Matches(s, "%@%") <==> '@' in s
  {
    Like.PlainIsSubstring(s, "@");
    assert "%" + "@" + "%" == "%@%";
    if '@' in s {
      var i :| 0 <= i < |s| && s[i] == '@';
      assert Strings.OccursAt(s, "@", i);
    }
    forall i: nat | Strings.OccursAt(s, "@", i) ensures '@' in s { Strings.OccursHead(s, "@", i); }
  }

  /** What a run does to one reference. */
  type Rewrite = string -> string

  function RewriteOf(users: Users): Rewrite { ref => ConvertUserIDToEmail(ref, users) }

  /** References the query does not select would not change. */
  ghost predicate SelectsAllChanges(f: Rewrite) { forall ref :: !Matches(ref) ==> f(ref) == ref }

  lemma {:induction false} QuerySelectsAllChanges(users: Users)
    ensures SelectsAllChanges(RewriteOf(users))
  {
    forall ref | !Matches(ref) ensures RewriteOf(users)(ref) == ref {
      if "users/" <= ref {
        assert ref == "users/" + ref[6..];
        assert '@' !in "users/";
      }
    }
  }

  /** Rewriting twice changes nothing more. */
  ghost predicate Idempotent(f: Rewrite) { forall ref :: f(f(ref)) == f(ref) }

  /** No email is, as text, the decimal id of a user with another email. (An email that contains
      `@`, or is not a 64-bit decimal integer, never is.) */
  ghost predicate EmailsAreNotIds(users: Users) {
    forall id :: id in users && Strings.IsInt64(id) && '@' !in users[id] && Strings.ParseInt(users[id]).Ok?
                 && Strings.ParseInt(users[id]).value in users
                 ==> users[Strings.ParseInt(users[id]).value] == users[id]
  }

  lemma {:induction false} ConvertPrefixed(id: string, users: Users)
    requires '@' !in id
    ensures ConvertUserIDToEmail("users/" + id, users) ==
            match Strings.ParseInt(id)
            case Error => "users/" + id
            case Ok(n) => if n in users then "users/" + users[n] else "users/" + id
  {
    var ref := "users/" + id;
    assert ref[6..] == id && '@' !in "users/";
  }

  lemma {:induction false} SuffixesEqual(a: string, b: string)
    requires "users/" + a == "users/" + b
    ensures a == b
  {
    assert ("users/" + a)[6..] == a && ("users/" + b)[6..] == b;
  }

  lemma {:induction false} ConvertTwice(users: Users, ref: string)
    requires EmailsAreNotIds(users)
    ensures RewriteOf(users)(RewriteOf(users)(ref)) == RewriteOf(users)(ref)
  {
    var r := ConvertUserIDToEmail(ref, users);
    if r != ref {
      var id := Strings.ParseInt(Strings.TrimPrefix(ref, "users/")).value;
      if '@' !in users[id] {
        ConvertPrefixed(users[id], users);
      } else {
        assert r[6..] == users[id];
      }
    }
  }

  /** The id's reference, converted twice. */
  lemma {:induction false} EmailNotAnId(users: Users, id: int)
    requires Idempotent(RewriteOf(users)) && id in users && Strings.IsInt64(id) && '@' !in users[id]
    requires Strings.ParseInt(users[id]).Ok? && Strings.ParseInt(users[id]).value in users
    ensures users[Strings.ParseInt(users[id]).value] == users[id]
  {
    var text := Strings.FormatInt(id);
    Strings.ParseFormatInt(id);
    assert '@' !in text;
    ConvertPrefixed(text, users);
    ConvertPrefixed(users[id], users);
    assert RewriteOf(users)(RewriteOf(users)("users/" + text)) == RewriteOf(users)("users/" + text);
    SuffixesEqual(users[Strings.ParseInt(users[id]).value], users[id]);
  }

  /** Rewriting is idempotent exactly when no email is the id of a user with another email. */
  lemma {:induction false} IdempotentIff(users: Users)
    ensures Idempotent(RewriteOf(users)) <==> EmailsAreNotIds(users)
  {
    if EmailsAreNotIds(users) {
      forall ref ensures RewriteOf(users)(RewriteOf(users)(ref)) == RewriteOf(users)(ref) { ConvertTwice(users, ref); }
    }
    if Idempotent(RewriteOf(users)) {
      forall id | id in users && Strings.IsInt64(id) && '@' !in users[id] && Strings.ParseInt(users[id]).Ok?
                && Strings.ParseInt(users[id]).value in users
        ensures users[Strings.ParseInt(users[id]).value] == users[id]
      {
        EmailNotAnId(users, id);
      }
    }
  }

  // ---------------------------------------------------------------- one batch

  function Matching(t: Table, lastID: int): set<int> {
    set id | id in t && id > lastID && Matches(t[id])
  }

  lemma {:induction false} LeastExists(s: set<int>)
    requires s != {}
    ensures exists m :: m in s && forall x :: x in s ==> m <= x
    decreases |s|
  {
    var a := Element(s);
    var rest := s - {a};
    if rest == {} {
      assert s == {a};
    } else {
      LeastExists(rest);
      var m :| m in rest && forall y :: y in rest ==> m <= y;
      var least := if a < m then a else m;
      assert forall y :: y in s ==> y == a || y in rest;
      assert least in s && forall y :: y in s ==> least <= y;
    }
  }

  function Least(s: set<int>): (m: int)
    requires s != {}
    ensures m in s && forall x :: x in s ==> m <= x
  {
    LeastExists(s);
    var m :| m in s && forall x :: x in s ==> m <= x;
    m
  }

  /** ORDER BY id LIMIT n. */
  function FirstIds(s: set<int>, n: nat): (ids: seq<int>)
    ensures forall id :: id in ids ==> id in s
    ensures ids == [] <==> s == {} || n == 0
    ensures forall i, j :: 0 <= i < j < |ids| ==> ids[i] < ids[j]
    ensures forall x, id :: x in s && x !in ids && id in ids ==> id < x
    decreases n
  {
    if n == 0 || s == {} then []
    else
      var rest := FirstIds(s - {Least(s)}, n - 1);
      assert forall j :: 0 <= j < |rest| ==> rest[j] in rest && Least(s) < rest[j];
      [Least(s)] + rest
  }

  datatype Batch = Batch(rows: Table, maxID: int, done: bool)

  function RewriteRows(t: Table, f: Rewrite, ids: seq<int>): (t': Table)
    ensures t'.Keys == t.Keys && forall id :: id in t ==> t'[id] == if id in ids then f(t[id]) else t[id]
  {
    map id | id in t :: if id in ids then f(t[id]) else t[id]
  }

  /** The update: each row with a new value takes it. */
  function WithValues(t: Table, values: map<int, string>): (t': Table)
    ensures t'.Keys == t.Keys && forall id :: id in t ==> t'[id] == if id in values then values[id] else t[id]
  {
    map id | id in t :: if id in values then values[id] else t[id]
  }

  lemma {:induction false} ValuesAreRewritten(t: Table, f: Rewrite, ids: seq<int>, values: map<int, string>)
    requires forall id :: id in values <==> id in ids
    requires forall id :: id in values && id in t ==> values[id] == f(t[id])
    ensures WithValues(t, values) == RewriteRows(t, f, ids)
  {
    var a, b := WithValues(t, values), RewriteRows(t, f, ids);
    assert forall id :: id in t ==> a[id] == b[id];
    assert a.Keys == b.Keys;
  }

  /** One transaction: the first `size` matching rows after `lastID`, rewritten. */
  function BatchStep(t: Table, f: Rewrite, lastID: int, size: nat): Batch {
    var ids := FirstIds(Matching(t, lastID), size);
    if ids == [] then Batch(t, 0, true) else Batch(RewriteRows(t, f, ids), ids[|ids|-1], false)
  }

  /** Every row with a positive id rewritten, the others left alone. */
  function ConvertAll(t: Table, f: Rewrite): Table {
    map id | id in t :: if id > 0 then f(t[id]) else t[id]
  }

  /** Rows up to `lastID` are rewritten, later ones untouched. */
  ghost predicate ConvertedUpTo(t: Table, t0: Table, f: Rewrite, lastID: int) {
    t.Keys == t0.Keys &&
    forall id :: id in t ==> t[id] == if 0 < id <= lastID then f(t0[id]) else t0[id]
  }

  /** The rows a batch leaves out come later or would not change. */
  lemma {:induction false} BatchIds(t: Table, lastID: int, size: nat)
    requires size >= 1
    ensures var ids := FirstIds(Matching(t, lastID), size);
            && (forall id :: id in ids ==> id in t && Matches(t[id]) && lastID < id <= ids[|ids|-1])
            && (ids == [] ==> forall id :: id in t && id > lastID ==> !Matches(t[id]))
            && (ids != [] ==> forall id :: id in t && id > lastID && id !in ids ==> id > ids[|ids|-1] || !Matches(t[id]))
  {
    var m := Matching(t, lastID);
    var ids := FirstIds(m, size);
    if ids != [] { assert ids[|ids|-1] in ids; }
    forall id | id in t && id > lastID && id !in ids
      ensures !Matches(t[id]) || (ids != [] && id > ids[|ids|-1])
    {
      if Matches(t[id]) { assert id in m; }
    }
    forall id | id in ids ensures id in t && Matches(t[id]) && lastID < id <= ids[|ids|-1] {
      assert id in m;
    }
  }

  lemma {:induction false} BatchAdvances(t: Table, t0: Table, f: Rewrite, lastID: int, size: nat)
    requires SelectsAllChanges(f) && ConvertedUpTo(t, t0, f, lastID) && lastID >= 0 && size >= 1
    ensures var b := BatchStep(t, f, lastID, size);
            if b.done then t == ConvertAll(t0, f) && b.rows == t
            else b.maxID > lastID && ConvertedUpTo(b.rows, t0, f, b.maxID)
  {
    BatchIds(t, lastID, size);
    var ids := FirstIds(Matching(t, lastID), size);
    if ids == [] {
      forall id | id in t ensures t[id] == if id > 0 then f(t0[id]) else t0[id] {
        if id > lastID { assert !Matches(t[id]); }
      }
      assert t == ConvertAll(t0, f);
    } else {
      assert ids[|ids|-1] in ids;
    }
  }

  lemma {:induction false} BatchShrinks(t: Table, f: Rewrite, lastID: int, size: nat)
    requires size >= 1
    ensures var b := BatchStep(t, f, lastID, size);
            !b.done ==> |Matching(b.rows, b.maxID)| < |Matching(t, lastID)|
  {
    var m := Matching(t, lastID);
    var ids := FirstIds(m, size);
    if ids != [] {
      var last := ids[|ids|-1];
      BatchIds(t, lastID, size);
      assert last in ids && last in m;
      var b := BatchStep(t, f, lastID, size);
      assert forall id :: id in Matching(b.rows, last) ==> id !in ids && id in m - {last};
      SubsetSmaller(Matching(b.rows, last), m - {last});
    }
  }

  lemma {:induction false} SubsetSmaller(a: set<int>, b: set<int>)
    requires a <= b
    ensures |a| <= |b|
    decreases |a|
  {
    if a != {} {
      var x := Element(a);
      SubsetSmaller(a - {x}, b - {x});
    }
  }

  // ---------------------------------------------------------------- the migration

  type Stepper = (Table, int) -> Batch

  function StepperOf(f: Rewrite, size: nat): Stepper { (t, lastID) => BatchStep(t, f, lastID, size) }

  /** The table after the first `n` batches from `lastID` (fewer if they run out). */
  function Batches(t: Table, step: Stepper, lastID: int, n: nat): Table
    decreases n
  {
    var b := step(t, lastID);
    if n == 0 || b.done then t else Batches(b.rows, step, b.maxID, n - 1)
  }

  /** Whether one of the first `n` batches from `lastID` finds no row left. */
  predicate Ends(t: Table, step: Stepper, lastID: int, n: nat)
    decreases n
  {
    n > 0 && var b := step(t, lastID); (b.done || Ends(b.rows, step, b.maxID, n - 1))
  }

  ghost predicate Advances(step: Stepper, t0: Table, f: Rewrite) {
    forall t, lastID :: ConvertedUpTo(t, t0, f, lastID) && lastID >= 0 && !step(t, lastID).done ==>
      step(t, lastID).maxID >= 0 && ConvertedUpTo(step(t, lastID).rows, t0, f, step(t, lastID).maxID)
  }

  ghost predicate Completes(step: Stepper, t0: Table, f: Rewrite) {
    forall t, lastID :: ConvertedUpTo(t, t0, f, lastID) && lastID >= 0 && step(t, lastID).done ==>
      t == ConvertAll(t0, f) && step(t, lastID).rows == t
  }

  ghost predicate IsStepper(step: Stepper, f: Rewrite, size: nat) {
    forall t: Table, lastID: int {:trigger BatchStep(t, f, lastID, size)} :: step(t, lastID) == BatchStep(t, f, lastID, size)
  }

  lemma {:induction false} StepperAdvances(t0: Table, f: Rewrite, size: nat)
    requires SelectsAllChanges(f) && size >= 1
    ensures var step := StepperOf(f, size); IsStepper(step, f, size) && Advances(step, t0, f) && Completes(step, t0, f)
  {
    forall t, lastID | ConvertedUpTo(t, t0, f, lastID) && lastID >= 0
      ensures var b := StepperOf(f, size)(t, lastID);
              if b.done then t == ConvertAll(t0, f) && b.rows == t else b.maxID >= 0 && ConvertedUpTo(b.rows, t0, f, b.maxID)
    {
      BatchAdvances(t, t0, f, lastID, size);
    }
  }

  class AuditTable {
    var rows: Table

    constructor (rows: Table)
      ensures this.rows == rows
    {
      this.rows := rows;
    }

    /** migrateAuditLogBatch, when nothing fails; `f` is the rewriting its user map gives. */
    method MigrateAuditLogBatch(f: Rewrite, lastID: int, batchSize: nat) returns (updated: nat, maxID: int, done: bool)
      modifies this
      ensures Batch(rows, maxID, done) == BatchStep(old(rows), f, lastID, batchSize)
      ensures updated == |FirstIds(Matching(old(rows), lastID), batchSize)|
    {
      var t := rows;
      var selected := FirstIds(Matching(t, lastID), batchSize);
      var values: map<int, string>;
      values, maxID := NewReferences(t, f, selected);
      if |selected| == 0 { return 0, 0, true; }
      rows := WithValues(t, values);
      ValuesAreRewritten(t, f, selected, values);
      return |selected|, maxID, false;
    }

    /** The scan over the selected rows: the value list and the last id. */
    static method NewReferences(t: Table, f: Rewrite, selected: seq<int>) returns (values: map<int, string>, maxID: int)
      requires forall id :: id in selected ==> id in t
      ensures forall id :: id in values <==> id in selected
      ensures forall id :: id in values ==> values[id] == f(t[id])
      ensures maxID == if selected == [] then 0 else selected[|selected|-1]
    {
      values, maxID := map[], 0;
      for i := 0 to |selected|
        invariant forall id :: id in values <==> id in selected[..i]
        invariant forall id :: id in values ==> id in t && values[id] == f(t[id])
        invariant maxID == if i == 0 then 0 else selected[i-1]
      {
        var id := selected[i];
        values := values[id := f(t[id])];
        maxID := id;
        assert selected[..i+1] == selected[..i] + [id];
      }
      assert selected[..|selected|] == selected;
    }

    /** migrate3_13_21: for any batch size of at least one, every row is rewritten, once. */
    method Migrate(users: Users, batchSize: nat) returns (total: nat)
      requires batchSize >= 1
      modifies this
      ensures rows == ConvertAll(old(rows), RewriteOf(users))
    {
      var f := RewriteOf(users);
      QuerySelectsAllChanges(users);
      var lastID, finished := 0, false;
      total := 0;
      while !finished
        invariant lastID >= 0
        invariant if finished then rows == ConvertAll(old(rows), f) else ConvertedUpTo(rows, old(rows), f, lastID)
        decreases !finished, |Matching(rows, lastID)|
      {
        BatchAdvances(rows, old(rows), f, lastID, batchSize);
        BatchShrinks(rows, f, lastID, batchSize);
        var updated, maxID, done := MigrateAuditLogBatch(f, lastID, batchSize);
        if done {
          finished := true;
        } else {
          total := total + updated;
          lastID := maxID;
        }
      }
    }

    /** migrate3_13_21 when the connection breaks after `stops` batches: it may have finished by then. */
    method MigrateUntil(users: Users, batchSize: nat, stops: nat) returns (finished: bool)
      requires batchSize >= 1
      modifies this
      ensures var step := StepperOf(RewriteOf(users), batchSize);
              && finished == Ends(old(rows), step, 0, stops)
              && rows == if finished then ConvertAll(old(rows), RewriteOf(users)) else Batches(old(rows), step, 0, stops)
    {
      var f := RewriteOf(users);
      QuerySelectsAllChanges(users);
      StepperAdvances(rows, f, batchSize);
      finished := RunBatches(f, batchSize, stops, StepperOf(f, batchSize));
    }

    /** One turn of its loop. */
    method RunBatch(f: Rewrite, lastID: int, batchSize: nat, ghost step: Stepper) returns (maxID: int, done: bool)
      requires IsStepper(step, f, batchSize)
      modifies this
      ensures Batch(rows, maxID, done) == step(old(rows), lastID)
    {
      assert step(rows, lastID) == BatchStep(rows, f, lastID, batchSize);
      var updated;
      updated, maxID, done := MigrateAuditLogBatch(f, lastID, batchSize);
    }

    /** Its loop. */
    method RunBatches(f: Rewrite, batchSize: nat, stops: nat, ghost step: Stepper) returns (finished: bool)
      requires IsStepper(step, f, batchSize) && Advances(step, rows, f) && Completes(step, rows, f)
      modifies this
      ensures finished == Ends(old(rows), step, 0, stops)
      ensures rows == if finished then ConvertAll(old(rows), f) else Batches(old(rows), step, 0, stops)
    {
      var lastID := 0;
      for k := 0 to stops
        invariant lastID >= 0 && ConvertedUpTo(rows, old(rows), f, lastID)
        invariant Ends(old(rows), step, 0, stops) == Ends(rows, step, lastID, stops - k)
        invariant Batches(old(rows), step, 0, stops) == Batches(rows, step, lastID, stops - k)
      {
        var maxID, done := RunBatch(f, lastID, batchSize, step);
        if done { return true; }
        lastID := maxID;
      }
      return false;
    }
  }

  // ---------------------------------------------------------------- interrupted and repeated

  /** Every row is as it was or rewritten. */
  ghost predicate Between(t: Table, t0: Table, f: Rewrite) {
    t.Keys == t0.Keys &&
    forall id :: id in t ==> t[id] == t0[id] || (id > 0 && t[id] == f(t0[id]))
  }

  lemma {:induction false} BatchesConvertPrefix(t: Table, t0: Table, f: Rewrite, step: Stepper, lastID: int, n: nat)
    returns (upTo: int)
    requires Advances(step, t0, f) && ConvertedUpTo(t, t0, f, lastID) && lastID >= 0
    ensures ConvertedUpTo(Batches(t, step, lastID, n), t0, f, upTo)
    decreases n
  {
    var b := step(t, lastID);
    upTo := lastID;
    if n > 0 && !b.done {
      upTo := BatchesConvertPrefix(b.rows, t0, f, step, b.maxID, n - 1);
    }
  }

  lemma {:induction false} RerunFrom(t0: Table, f: Rewrite, step: Stepper, n: nat)
    requires Advances(step, t0, f) && Idempotent(f)
    ensures ConvertAll(Batches(t0, step, 0, n), f) == ConvertAll(t0, f)
  {
    var upTo := BatchesConvertPrefix(t0, t0, f, step, 0, n);
  }

  /** Stopped after any number of committed batches and run again from the start, the migration
      leaves the table a single uninterrupted run would leave: for idempotent rewriting. */
  lemma {:induction false} RerunGivesSameTable(t0: Table, f: Rewrite, size: nat, n: nat)
    requires SelectsAllChanges(f) && Idempotent(f) && size >= 1
    ensures ConvertAll(Batches(t0, StepperOf(f, size), 0, n), f) == ConvertAll(t0, f)
  {
    StepperAdvances(t0, f, size);
    RerunFrom(t0, f, StepperOf(f, size), n);
  }

  ghost predicate RerunSafe(f: Rewrite, size: nat) {
    forall t0: Table, n: nat :: ConvertAll(Batches(t0, StepperOf(f, size), 0, n), f) == ConvertAll(t0, f)
  }

  /** One row, one committed batch, then a second run. */
  lemma {:induction false} OneRowRerun(ref: string, f: Rewrite, size: nat)
    requires SelectsAllChanges(f) && f(f(ref)) != f(ref) && size >= 1
    ensures !RerunSafe(f, size)
  {
    var t0: Table, step := map[1 := ref], StepperOf(f, size);
    assert Matching(t0, 0) == {1};
    var b := step(t0, 0);
    assert FirstIds({1}, size)[0] == 1;
    assert b.rows[1] == f(ref) && !b.done;
    assert Batches(b.rows, step, b.maxID, 0) == b.rows;
    assert Batches(t0, step, 0, 1) == b.rows;
    assert ConvertAll(b.rows, f)[1] == f(f(ref)) && ConvertAll(t0, f)[1] == f(ref);
  }

  /** An interrupted migration can always be rerun safely exactly when no email is, as text, the
      id of a user with another email. */
  lemma {:induction false} RerunSafeIff(users: Users, size: nat)
    requires size >= 1
    ensures RerunSafe(RewriteOf(users), size) <==> EmailsAreNotIds(users)
  {
    var f := RewriteOf(users);
    IdempotentIff(users);
    QuerySelectsAllChanges(users);
    if Idempotent(f) {
      forall t0: Table, n: nat ensures ConvertAll(Batches(t0, StepperOf(f, size), 0, n), f) == ConvertAll(t0, f) {
        RerunGivesSameTable(t0, f, size, n);
      }
    } else {
      var ref :| f(f(ref)) != f(ref);
      OneRowRerun(ref, f, size);
    }
  }

  // ---------------------------------------------------------------- several writers

  /** Rows up to `lastID` are rewritten; later ones may be. */
  ghost predicate DoneUpTo(t: Table, t0: Table, f: Rewrite, lastID: int) {
    forall id :: id in t && id in t0 && 0 < id <= lastID ==> t[id] == f(t0[id])
  }

  ghost predicate AllDone(t: Table, t0: Table, f: Rewrite) {
    forall id :: id in t && id in t0 && id > 0 ==> t[id] == f(t0[id])
  }

  /** A batch by one writer, on a table that others write too. */
  lemma {:induction false} SharedBatch(t: Table, t0: Table, f: Rewrite, lastID: int, size: nat)
    requires SelectsAllChanges(f) && Idempotent(f) && Between(t, t0, f) && DoneUpTo(t, t0, f, lastID)
    requires lastID >= 0 && size >= 1
    ensures var b := BatchStep(t, f, lastID, size);
            Between(b.rows, t0, f) &&
            (if b.done then AllDone(t, t0, f) && b.rows == t else b.maxID >= 0 && DoneUpTo(b.rows, t0, f, b.maxID))
  {
    BatchIds(t, lastID, size);
    var ids := FirstIds(Matching(t, lastID), size);
    if ids == [] {
      forall id | id in t && id > lastID ensures t[id] == f(t0[id]) {
        assert !Matches(t[id]);
      }
    } else {
      assert ids[|ids|-1] in ids;
    }
  }

  /** Whoever runs a batch, rows that were rewritten stay so. */
  lemma {:induction false} OthersBatch(t: Table, t0: Table, f: Rewrite, lastID: int, size: nat, upTo: int)
    requires Idempotent(f) && DoneUpTo(t, t0, f, upTo)
    ensures DoneUpTo(BatchStep(t, f, lastID, size).rows, t0, f, upTo)
  {
  }

  lemma {:induction false} OthersBatchAll(t: Table, t0: Table, f: Rewrite, lastID: int, size: nat)
    requires Idempotent(f) && AllDone(t, t0, f)
    ensures AllDone(BatchStep(t, f, lastID, size).rows, t0, f)
  {
  }
}
