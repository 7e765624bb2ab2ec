/** Per-project ids: backend/store/id.go, and the transactions of backend/store/task.go and
    backend/store/plan.go that allocate with it, interleaved. Tables carry the constraints of
    backend/migrator/migration/LATEST.sql: id is unique per table, project is a foreign key. */
module ProjectIds {
  import opened Options
  import opened Results

  // ---------------------------------------------------------------- the next id

  /** What a task is for: the instance, the database if any, and the sheet it runs. */
  datatype Create = Create(instance: string, database: Option<string>, sheet: string)

  datatype Content = Plan(name: string) | Task(plan: int, create: Create)

  datatype Row = Row(table: string, project: string, id: int, content: Content)

  const MIN_ID := 101

  /** The ids of a project in a table, in commit order. */
  function IdsOf(rows: seq<Row>, table: string, project: string): seq<int> {
    if rows == [] then []
    else
      var last := rows[|rows|-1];
      IdsOf(rows[..|rows|-1], table, project) + (if last.table == table && last.project == project then [last.id] else [])
  }

  /** COALESCE(MAX(id), 0). */
  function MaxId(ids: seq<int>): int {
    if ids == [] then 0
    else if |ids| == 1 then ids[0]
    else
      var m := MaxId(ids[..|ids|-1]);
      if ids[|ids|-1] > m then ids[|ids|-1] else m
  }

  function NextId(ids: seq<int>): int {
    if MaxId(ids) + 1 < MIN_ID then MIN_ID else MaxId(ids) + 1
  }

  /** first, first + 1, ..., n of them. */
  function Count(first: int, n: nat): (ids: seq<int>)
    ensures |ids| == n && forall i :: 0 <= i < n ==> ids[i] == first + i
  {
    seq(n, i => first + i)
  }

  lemma {:induction false} MaxIdBounds(ids: seq<int>)
    ensures ids != [] ==> MaxId(ids) in ids
    ensures forall id :: id in ids ==> id <= MaxId(ids)
  {
    if |ids| > 1 {
      MaxIdBounds(ids[..|ids|-1]);
      assert ids == ids[..|ids|-1] + [ids[|ids|-1]];
    }
  }

  predicate Free(ids: seq<int>, n: int) { n >= 101 && forall id :: id in ids ==> id < n }

  /** The next id is the least one from 101 on above every id of the project. */
  lemma {:induction false} NextIdIsLeastFree(ids: seq<int>)
    ensures Free(ids, NextId(ids)) && forall n :: Free(ids, n) ==> NextId(ids) <= n
  {
    MaxIdBounds(ids);
  }

  lemma {:induction false} MaxIdAppend(ids: seq<int>, id: int)
    ensures MaxId(ids + [id]) == if ids == [] || id > MaxId(ids) then id else MaxId(ids)
  {
    assert (ids + [id])[..|ids|] == ids;
  }

  lemma {:induction false} NextIdAfter(ids: seq<int>, n: nat)
    ensures NextId(ids + Count(NextId(ids), n)) == NextId(ids) + n
  {
    if n == 0 {
      assert ids + Count(NextId(ids), 0) == ids;
    } else {
      NextIdAfter(ids, n - 1);
      var next, before := NextId(ids), ids + Count(NextId(ids), n - 1);
      assert ids + Count(next, n) == before + [next + n - 1];
      NextIdAppend(before);
    }
  }

  lemma {:induction false} NextIdAppend(ids: seq<int>)
    ensures NextId(ids + [NextId(ids)]) == NextId(ids) + 1
  {
    MaxIdAppend(ids, NextId(ids));
  }

  // ---------------------------------------------------------------- transactions as steps

  datatype Phase = Started | Locked | Read(base: int) | Inserted(base: int)

  /** An open transaction that is to insert one row per element of `contents`. */
  datatype Tx = Tx(table: string, project: string, contents: seq<Content>, phase: Phase)

  /** Committed rows in commit order, open transactions, and the holder of each project row. */
  datatype State = State(rows: seq<Row>, txs: map<int, Tx>, locks: map<string, int>)

  datatype Action =
    | Begin(t: int, table: string, project: string, contents: seq<Content>)
    | BeginListing(t: int, project: string, plan: int, creates: seq<Create>)
    | Lock(t: int) | ReadMax(t: int) | Insert(t: int) | Commit(t: int) | Abort(t: int)
    | Delete(table: string, project: string, id: int)

  function NewRows(tx: Tx, base: int): (rows: seq<Row>)
    ensures |rows| == |tx.contents|
    ensures forall i :: 0 <= i < |rows| ==> rows[i] == Row(tx.table, tx.project, base + i, tx.contents[i])
  {
    seq(|tx.contents|, i requires 0 <= i < |tx.contents| => Row(tx.table, tx.project, base + i, tx.contents[i]))
  }

  /** A committed row of the table has one of the ids. */
  predicate Taken(rows: seq<Row>, table: string, base: int, n: nat) {
    exists row :: row in rows && row.table == table && base <= row.id < base + n
  }

  /** Another open transaction has inserted one of the ids. */
  predicate Pending(s: State, t: int)
    requires t in s.txs && s.txs[t].phase.Read?
  {
    exists u :: u in s.txs && Overlap(s.txs[t], s.txs[u])
  }

  predicate Overlap(tx: Tx, other: Tx)
    requires tx.phase.Read?
  {
    && other.phase.Inserted? && other.table == tx.table
    && tx.phase.base < other.phase.base + |other.contents| && other.phase.base < tx.phase.base + |tx.contents|
  }

  /** The transaction ends; so does its lock. */
  function Close(s: State, t: int): State
    requires t in s.txs
  {
    var p := s.txs[t].project;
    State(s.rows, s.txs - {t}, if p in s.locks && s.locks[p] == t then s.locks - {p} else s.locks)
  }

  /** CreateTasks' key: a missing database and an empty one are the same. */
  datatype Key = Key(instance: string, database: string, sheet: string)

  function KeyOf(c: Create): Key { Key(c.instance, if c.database.Some? then c.database.value else "", c.sheet) }

  /** The plan has a task with the key. */
  predicate HasTask(rows: seq<Row>, project: string, plan: int, key: Key) {
    exists row :: row in rows && IsTask(row, project, plan, key)
  }

  predicate IsTask(row: Row, project: string, plan: int, key: Key) {
    row.table == "task" && row.project == project && row.content.Task? && row.content.plan == plan && KeyOf(row.content.create) == key
  }

  /** The tasks the plan does not have yet. */
  function Missing(rows: seq<Row>, project: string, plan: int, creates: seq<Create>): seq<Content> {
    if creates == [] then []
    else
      var last := creates[|creates|-1];
      Missing(rows, project, plan, creates[..|creates|-1]) +
      (if HasTask(rows, project, plan, KeyOf(last)) then [] else [Task(plan, last)])
  }

  function Without(rows: seq<Row>, a: Action): seq<Row>
    requires a.Delete?
  {
    if rows == [] then []
    else
      var last := rows[|rows|-1];
      Without(rows[..|rows|-1], a) +
      (if last.table == a.table && last.project == a.project && last.id == a.id then [] else [last])
  }

  /** Locking an absent project locks nothing; its insert then breaks the foreign key. An insert
      that meets a committed id fails, one that meets an uncommitted id waits. */
  function Next(projects: set<string>, s: State, a: Action): Option<State> {
    match a
    case Begin(t, table, project, contents) =>
      if t in s.txs then None else Some(s.(txs := s.txs[t := Tx(table, project, contents, Started)]))
    case BeginListing(t, project, plan, creates) =>
      if t in s.txs then None
      else Some(s.(txs := s.txs[t := Tx("task", project, Missing(s.rows, project, plan, creates), Started)]))
    case Lock(t) =>
      if t !in s.txs || !s.txs[t].phase.Started? || s.txs[t].contents == [] || s.txs[t].project in s.locks then None
      else
        var tx := s.txs[t];
        Some(s.(txs := s.txs[t := tx.(phase := Locked)],
                locks := if tx.project in projects then s.locks[tx.project := t] else s.locks))
    case ReadMax(t) =>
      if t !in s.txs || !s.txs[t].phase.Locked? then None
      else
        var tx := s.txs[t];
        Some(s.(txs := s.txs[t := tx.(phase := Read(NextId(IdsOf(s.rows, tx.table, tx.project))))]))
    case Insert(t) =>
      if t !in s.txs || !s.txs[t].phase.Read? then None
      else
        var tx := s.txs[t];
        if tx.project !in projects || Taken(s.rows, tx.table, tx.phase.base, |tx.contents|) then Some(Close(s, t))
        else if Pending(s, t) then None
        else Some(s.(txs := s.txs[t := tx.(phase := Inserted(tx.phase.base))]))
    case Commit(t) =>
      if t !in s.txs then None
      else
        var tx := s.txs[t];
        if tx.phase.Inserted? then Some(Close(s, t).(rows := s.rows + NewRows(tx, tx.phase.base)))
        else if tx.phase.Started? && tx.contents == [] then Some(Close(s, t))
        else None
    case Abort(t) => if t in s.txs then Some(Close(s, t)) else None
    case Delete(_, _, _) => Some(s.(rows := Without(s.rows, a)))
  }

  function Exec(projects: set<string>, s: State, actions: seq<Action>): Option<State>
    decreases |actions|
  {
    if actions == [] then Some(s)
    else
      match Next(projects, s, actions[0])
      case None => None
      case Some(s') => Exec(projects, s', actions[1..])
  }

  // ---------------------------------------------------------------- the invariant

  predicate Holding(tx: Tx) { !tx.phase.Started? }

  /** A transaction past the lock holds its project's row. */
  ghost predicate LocksHeld(projects: set<string>, s: State) {
    forall t :: t in s.txs && Holding(s.txs[t]) && s.txs[t].project in projects ==>
      s.txs[t].project in s.locks && s.locks[s.txs[t].project] == t
  }

  ghost predicate BaseOk(rows: seq<Row>, tx: Tx) {
    tx.phase.Read? || tx.phase.Inserted? ==>
      tx.phase.base >= MIN_ID && forall row :: row in rows && row.table == tx.table && row.project == tx.project ==> row.id < tx.phase.base
  }

  /** What a transaction read is still above every committed id of its project. */
  ghost predicate BasesFresh(projects: set<string>, s: State) {
    forall t :: t in s.txs && s.txs[t].project in projects ==> BaseOk(s.rows, s.txs[t])
  }

  ghost predicate InsertedKnown(projects: set<string>, s: State) {
    forall t :: t in s.txs && s.txs[t].phase.Inserted? ==> s.txs[t].project in projects
  }

  ghost predicate Inv(projects: set<string>, s: State) {
    LocksHeld(projects, s) && BasesFresh(projects, s) && InsertedKnown(projects, s)
  }

  lemma {:induction false} IdsOfRows(rows: seq<Row>, table: string, project: string)
    ensures forall row :: row in rows && row.table == table && row.project == project ==> row.id in IdsOf(rows, table, project)
  {
    if rows != [] {
      IdsOfRows(rows[..|rows|-1], table, project);
      assert rows == rows[..|rows|-1] + [rows[|rows|-1]];
    }
  }

  lemma {:induction false} WithoutSubset(rows: seq<Row>, a: Action)
    requires a.Delete?
    ensures forall row :: row in Without(rows, a) <==> row in rows && !(row.table == a.table && row.project == a.project && row.id == a.id)
  {
    if rows != [] {
      WithoutSubset(rows[..|rows|-1], a);
      assert rows == rows[..|rows|-1] + [rows[|rows|-1]];
    }
  }

  lemma {:induction false} CloseKeeps(projects: set<string>, s: State, t: int)
    requires Inv(projects, s) && t in s.txs
    ensures Inv(projects, Close(s, t))
  {
  }

  lemma {:induction false} LockKeeps(projects: set<string>, s: State, t: int)
    requires Inv(projects, s) && Next(projects, s, Lock(t)).Some?
    ensures Inv(projects, Next(projects, s, Lock(t)).value)
  {
  }

  lemma {:induction false} ReadKeeps(projects: set<string>, s: State, t: int)
    requires Inv(projects, s) && Next(projects, s, ReadMax(t)).Some?
    ensures Inv(projects, Next(projects, s, ReadMax(t)).value)
  {
    var tx := s.txs[t];
    IdsOfRows(s.rows, tx.table, tx.project);
    NextIdIsLeastFree(IdsOf(s.rows, tx.table, tx.project));
    assert BaseOk(s.rows, tx.(phase := Read(NextId(IdsOf(s.rows, tx.table, tx.project)))));
  }

  lemma {:induction false} CommitKeeps(projects: set<string>, s: State, t: int)
    requires Inv(projects, s) && Next(projects, s, Commit(t)).Some?
    ensures Inv(projects, Next(projects, s, Commit(t)).value)
  {
    CloseKeeps(projects, s, t);
    var tx, s' := s.txs[t], Next(projects, s, Commit(t)).value;
    if tx.phase.Inserted? {
      var added := NewRows(tx, tx.phase.base);
      forall u | u in s'.txs && s'.txs[u].project in projects ensures BaseOk(s'.rows, s'.txs[u]) {
        assert BaseOk(s.rows, s.txs[u]);
        assert Holding(s.txs[u]) ==> s.txs[u].project != tx.project;
        assert forall row :: row in s'.rows ==> row in s.rows || row in added;
        assert forall row :: row in added ==> row.project == tx.project;
      }
    }
  }

  lemma {:induction false} DeleteKeeps(projects: set<string>, s: State, a: Action)
    requires Inv(projects, s) && a.Delete?
    ensures Inv(projects, Next(projects, s, a).value)
  {
    WithoutSubset(s.rows, a);
    var s' := Next(projects, s, a).value;
    forall t | t in s'.txs && s'.txs[t].project in projects ensures BaseOk(s'.rows, s'.txs[t]) {
      assert BaseOk(s.rows, s.txs[t]);
    }
  }

  lemma {:induction false} InsertKeeps(projects: set<string>, s: State, t: int)
    requires Inv(projects, s) && Next(projects, s, Insert(t)).Some?
    ensures Inv(projects, Next(projects, s, Insert(t)).value)
  {
    CloseKeeps(projects, s, t);
    assert s.txs[t].project in projects ==> BaseOk(s.rows, s.txs[t]);
  }

  lemma {:induction false} BeginKeeps(projects: set<string>, s: State, t: int, tx: Tx)
    requires Inv(projects, s) && t !in s.txs && tx.phase.Started?
    ensures Inv(projects, s.(txs := s.txs[t := tx]))
  {
  }

  lemma {:induction false} StepKeeps(projects: set<string>, s: State, a: Action)
    requires Inv(projects, s) && Next(projects, s, a).Some?
    ensures Inv(projects, Next(projects, s, a).value)
  {
    match a
    case Begin(t, table, project, contents) => BeginKeeps(projects, s, t, Tx(table, project, contents, Started));
    case BeginListing(t, project, plan, creates) =>
      BeginKeeps(projects, s, t, Tx("task", project, Missing(s.rows, project, plan, creates), Started));
    case Lock(t) => LockKeeps(projects, s, t);
    case ReadMax(t) => ReadKeeps(projects, s, t);
    case Insert(t) => InsertKeeps(projects, s, t);
    case Commit(t) => CommitKeeps(projects, s, t);
    case Abort(t) => CloseKeeps(projects, s, t);
    case Delete(_, _, _) => DeleteKeeps(projects, s, a);
  }

  lemma {:induction false} ExecKeeps(projects: set<string>, s: State, actions: seq<Action>)
    requires Inv(projects, s) && Exec(projects, s, actions).Some?
    ensures Inv(projects, Exec(projects, s, actions).value)
    decreases |actions|
  {
    if actions != [] {
      StepKeeps(projects, s, actions[0]);
      ExecKeeps(projects, Next(projects, s, actions[0]).value, actions[1..]);
    }
  }

  // ---------------------------------------------------------------- ids over whole runs

  ghost predicate Increasing(ids: seq<int>) { forall i, j :: 0 <= i < j < |ids| ==> ids[i] < ids[j] }

  lemma {:induction false} IdsOfAppend(rows: seq<Row>, more: seq<Row>, table: string, project: string)
    ensures IdsOf(rows + more, table, project) == IdsOf(rows, table, project) + IdsOf(more, table, project)
  {
    if more == [] {
      assert rows + more == rows;
    } else {
      var init := more[..|more|-1];
      IdsOfAppend(rows, init, table, project);
      assert (rows + more)[..|rows + more|-1] == rows + init;
    }
  }

  ghost predicate Numbered(rows: seq<Row>, base: int, table: string, project: string) {
    forall i :: 0 <= i < |rows| ==> rows[i].table == table && rows[i].project == project && rows[i].id == base + i
  }

  lemma {:induction false} IdsOfNumbered(rows: seq<Row>, base: int, t: string, p: string, table: string, project: string)
    requires Numbered(rows, base, t, p)
    ensures IdsOf(rows, table, project) == if table == t && project == p then Count(base, |rows|) else []
  {
    if rows != [] {
      var init := rows[..|rows|-1];
      IdsOfNumbered(init, base, t, p, table, project);
      OneMoreCounted(base, |init|);
    }
  }

  lemma {:induction false} OneMoreCounted(base: int, n: nat)
    ensures Count(base, n + 1) == Count(base, n) + [base + n]
  {
  }

  /** What a commit adds to the ids of a project in a table: its own n, counted from its base. */
  lemma {:induction false} CommitAddsCount(projects: set<string>, s: State, t: int, table: string, project: string)
    requires Next(projects, s, Commit(t)).Some?
    ensures var tx := s.txs[t];
            IdsOf(Next(projects, s, Commit(t)).value.rows, table, project) ==
              if tx.phase.Inserted? && table == tx.table && project == tx.project
              then IdsOf(s.rows, table, project) + Count(tx.phase.base, |tx.contents|)
              else IdsOf(s.rows, table, project)
  {
    var tx := s.txs[t];
    if tx.phase.Inserted? { IdsOfAdded(s.rows, tx, tx.phase.base, table, project); }
  }

  lemma {:induction false} IdsOfAdded(rows: seq<Row>, tx: Tx, base: int, table: string, project: string)
    ensures IdsOf(rows + NewRows(tx, base), table, project) ==
            if table == tx.table && project == tx.project then IdsOf(rows, table, project) + Count(base, |tx.contents|)
            else IdsOf(rows, table, project)
  {
    var added := NewRows(tx, base);
    IdsOfAppend(rows, added, table, project);
    IdsOfNumbered(added, base, tx.table, tx.project, table, project);
  }

  lemma {:induction false} RowsOfIds(rows: seq<Row>, table: string, project: string, id: int)
    requires id in IdsOf(rows, table, project)
    ensures exists row :: row in rows && row.table == table && row.project == project && row.id == id
  {
    if id in IdsOf(rows[..|rows|-1], table, project) {
      RowsOfIds(rows[..|rows|-1], table, project, id);
      var row :| row in rows[..|rows|-1] && row.table == table && row.project == project && row.id == id;
      assert row in rows;
    } else {
      assert rows[|rows|-1] in rows;
    }
  }

  lemma {:induction false} LastIsGreatest(rows: seq<Row>, table: string, project: string)
    requires rows != [] && Increasing(IdsOf(rows, table, project))
    ensures var init, last := rows[..|rows|-1], rows[|rows|-1];
            && Increasing(IdsOf(init, table, project))
            && (last.table == table && last.project == project ==> forall id :: id in IdsOf(init, table, project) ==> id < last.id)
  {
    var all, before := IdsOf(rows, table, project), IdsOf(rows[..|rows|-1], table, project);
    assert forall i :: 0 <= i < |before| ==> all[i] == before[i];
    var last := rows[|rows|-1];
    if last.table == table && last.project == project {
      assert all[|before|] == last.id;
      forall id | id in before ensures id < last.id {
        var i :| 0 <= i < |before| && before[i] == id;
        assert all[i] < all[|before|];
      }
    }
  }

  lemma {:induction false} WithoutIds(rows: seq<Row>, a: Action, table: string, project: string)
    requires a.Delete?
    ensures forall id :: id in IdsOf(Without(rows, a), table, project) ==> id in IdsOf(rows, table, project)
  {
    forall id | id in IdsOf(Without(rows, a), table, project) ensures id in IdsOf(rows, table, project) {
      RowsOfIds(Without(rows, a), table, project, id);
      WithoutSubset(rows, a);
      IdsOfRows(rows, table, project);
    }
  }

  lemma {:induction false} WithoutIncreasing(rows: seq<Row>, a: Action, table: string, project: string)
    requires a.Delete? && Increasing(IdsOf(rows, table, project))
    ensures Increasing(IdsOf(Without(rows, a), table, project))
  {
    if rows != [] {
      var init, last := rows[..|rows|-1], rows[|rows|-1];
      LastIsGreatest(rows, table, project);
      WithoutIncreasing(init, a, table, project);
      WithoutIds(init, a, table, project);
      var kept := Without(init, a);
      OneMore(kept, last, table, project);
      if last.table == table && last.project == project {
        IncreasingAppend(IdsOf(kept, table, project), last.id);
      }
      assert Without(rows, a) == kept || Without(rows, a) == kept + [last];
    }
  }

  lemma {:induction false} OneMore(rows: seq<Row>, row: Row, table: string, project: string)
    ensures IdsOf(rows + [row], table, project) ==
            IdsOf(rows, table, project) + if row.table == table && row.project == project then [row.id] else []
  {
    assert (rows + [row])[..|rows|] == rows;
  }

  lemma {:induction false} IncreasingAppend(ids: seq<int>, id: int)
    requires Increasing(ids) && forall other :: other in ids ==> other < id
    ensures Increasing(ids + [id])
  {
    assert forall i :: 0 <= i < |ids| ==> ids[i] in ids;
  }

  lemma {:induction false} CommitIncreasing(projects: set<string>, s: State, t: int, table: string, project: string)
    requires Inv(projects, s) && Next(projects, s, Commit(t)).Some? && Increasing(IdsOf(s.rows, table, project))
    ensures Increasing(IdsOf(Next(projects, s, Commit(t)).value.rows, table, project))
  {
    CommitAddsCount(projects, s, t, table, project);
    var tx := s.txs[t];
    if tx.phase.Inserted? && table == tx.table && project == tx.project {
      assert BaseOk(s.rows, tx);
      IdsBelowBase(s.rows, tx);
      IncreasingCount(IdsOf(s.rows, table, project), tx.phase.base, |tx.contents|);
    }
  }

  lemma {:induction false} IdsBelowBase(rows: seq<Row>, tx: Tx)
    requires BaseOk(rows, tx) && tx.phase.Inserted?
    ensures forall id :: id in IdsOf(rows, tx.table, tx.project) ==> id < tx.phase.base
  {
    forall id | id in IdsOf(rows, tx.table, tx.project) ensures id < tx.phase.base { RowsOfIds(rows, tx.table, tx.project, id); }
  }

  lemma {:induction false} IncreasingCount(ids: seq<int>, base: int, n: nat)
    requires Increasing(ids) && forall id :: id in ids ==> id < base
    ensures Increasing(ids + Count(base, n))
  {
    assert forall i :: 0 <= i < |ids| ==> ids[i] in ids;
  }

  /** Whatever transactions and deletions interleave, the ids of a project in a table stay
      strictly increasing in commit order: no two rows share one. */
  lemma {:induction false} IdsIncrease(projects: set<string>, s: State, actions: seq<Action>, table: string, project: string)
    requires Inv(projects, s) && Exec(projects, s, actions).Some? && Increasing(IdsOf(s.rows, table, project))
    ensures Increasing(IdsOf(Exec(projects, s, actions).value.rows, table, project))
    decreases |actions|
  {
    if actions != [] {
      StepKeeps(projects, s, actions[0]);
      var s' := Next(projects, s, actions[0]).value;
      match actions[0] {
        case Commit(t) => CommitIncreasing(projects, s, t, table, project);
        case Delete(_, _, _) => WithoutIncreasing(s.rows, actions[0], table, project);
        case _ => assert s'.rows == s.rows;
      }
      IdsIncrease(projects, s', actions[1..], table, project);
    }
  }

  ghost predicate Exact(projects: set<string>, s: State) {
    forall t :: t in s.txs && s.txs[t].project in projects ==> ExactTx(s.rows, s.txs[t])
  }

  /** What a transaction read is still the next id. */
  ghost predicate ExactTx(rows: seq<Row>, tx: Tx) {
    tx.phase.Read? || tx.phase.Inserted? ==> tx.phase.base == NextId(IdsOf(rows, tx.table, tx.project))
  }

  lemma {:induction false} CommitKeepsExact(projects: set<string>, s: State, t: int)
    requires Inv(projects, s) && Exact(projects, s) && Next(projects, s, Commit(t)).Some?
    ensures Exact(projects, Next(projects, s, Commit(t)).value)
  {
    var tx, s' := s.txs[t], Next(projects, s, Commit(t)).value;
    forall u | u in s'.txs && s'.txs[u].project in projects ensures ExactTx(s'.rows, s'.txs[u]) {
      assert u in s.txs && s.txs[u] == s'.txs[u] && ExactTx(s.rows, s.txs[u]);
      CommitAddsCount(projects, s, t, s.txs[u].table, s.txs[u].project);
      assert tx.phase.Inserted? && Holding(s.txs[u]) ==> s.txs[u].project != tx.project;
    }
  }

  lemma {:induction false} StepKeepsExact(projects: set<string>, s: State, a: Action)
    requires Inv(projects, s) && Exact(projects, s) && Next(projects, s, a).Some? && !a.Delete?
    ensures Exact(projects, Next(projects, s, a).value)
  {
    if a.Commit? {
      CommitKeepsExact(projects, s, a.t);
    } else {
      var s' := Next(projects, s, a).value;
      StepKeepsRows(projects, s, a);
      forall u | u in s'.txs && s'.txs[u].project in projects ensures ExactTx(s'.rows, s'.txs[u]) {
        assert u in s.txs && s.txs[u].project in projects ==> ExactTx(s.rows, s.txs[u]);
      }
    }
  }

  /** A step that neither commits nor deletes changes no rows, and no other transaction; what a
      transaction has read it keeps, or reads as the next id. */
  lemma {:induction false} StepKeepsRows(projects: set<string>, s: State, a: Action)
    requires Next(projects, s, a).Some? && !a.Commit? && !a.Delete?
    ensures var s' := Next(projects, s, a).value;
            && s'.rows == s.rows
            && (forall u :: u in s'.txs && u != a.t ==> u in s.txs && s'.txs[u] == s.txs[u])
            && (a.t in s'.txs && (a.Lock? || a.ReadMax? || a.Insert?) ==> a.t in s.txs && s'.txs[a.t] == s.txs[a.t].(phase := s'.txs[a.t].phase))
            && (a.t in s'.txs && a.Insert? ==> s.txs[a.t].phase.Read? && s'.txs[a.t].phase == Inserted(s.txs[a.t].phase.base))
            && (a.t in s'.txs && !a.Insert? ==> !s'.txs[a.t].phase.Inserted? && ExactTx(s'.rows, s'.txs[a.t]))
  {
  }

  /** Ids are contiguous in commit order when no row is deleted: to those a project had in a
      table, any run appends NextId, NextId + 1, ... without a gap. */
  lemma {:induction false} IdsContiguous(projects: set<string>, s: State, actions: seq<Action>, table: string, project: string)
    returns (n: nat)
    requires Inv(projects, s) && Exact(projects, s) && Exec(projects, s, actions).Some?
    requires forall a :: a in actions ==> !a.Delete?
    ensures var ids := IdsOf(s.rows, table, project);
            IdsOf(Exec(projects, s, actions).value.rows, table, project) == ids + Count(NextId(ids), n)
    decreases |actions|
  {
    var ids := IdsOf(s.rows, table, project);
    n := 0;
    if actions == [] {
      assert ids + Count(NextId(ids), 0) == ids;
    } else {
      var a := actions[0];
      assert a in actions;
      StepKeeps(projects, s, a);
      StepKeepsExact(projects, s, a);
      var s' := Next(projects, s, a).value;
      var more := IdsContiguous(projects, s', actions[1..], table, project);
      var m := StepCount(projects, s, a, table, project);
      n := m + more;
      CountOn(ids, m, more);
    }
  }

  lemma {:induction false} CountOn(ids: seq<int>, m: nat, more: nat)
    ensures var after := ids + Count(NextId(ids), m);
            after + Count(NextId(after), more) == ids + Count(NextId(ids), m + more)
  {
    NextIdAfter(ids, m);
    CountSplit(NextId(ids), m, more);
    CountAssociates(ids, Count(NextId(ids), m), Count(NextId(ids) + m, more));
  }

  lemma {:induction false} CountSplit(base: int, m: nat, more: nat)
    ensures Count(base, m + more) == Count(base, m) + Count(base + m, more)
  {
  }

  lemma {:induction false} CountAssociates(a: seq<int>, b: seq<int>, c: seq<int>)
    ensures a + b + c == a + (b + c)
  {
  }

  lemma {:induction false} StepCount(projects: set<string>, s: State, a: Action, table: string, project: string) returns (n: nat)
    requires Inv(projects, s) && Exact(projects, s) && Next(projects, s, a).Some? && !a.Delete?
    ensures var ids := IdsOf(s.rows, table, project);
            IdsOf(Next(projects, s, a).value.rows, table, project) == ids + Count(NextId(ids), n)
  {
    n := 0;
    var ids := IdsOf(s.rows, table, project);
    assert ids + Count(NextId(ids), 0) == ids;
    if a.Commit? {
      CommitAddsCount(projects, s, a.t, table, project);
      var tx := s.txs[a.t];
      if tx.phase.Inserted? && table == tx.table && project == tx.project { n := |tx.contents|; }
    }
  }

  /** Every row of `after` was there before or has an id from 101 on. */
  ghost predicate NewFromMin(before: seq<Row>, after: seq<Row>) {
    forall row :: row in after ==> row in before || row.id >= 101
  }

  lemma {:induction false} CommitNewFromMin(projects: set<string>, s: State, t: int)
    requires Inv(projects, s) && Next(projects, s, Commit(t)).Some?
    ensures NewFromMin(s.rows, Next(projects, s, Commit(t)).value.rows)
  {
    var tx := s.txs[t];
    if tx.phase.Inserted? {
      assert BaseOk(s.rows, tx);
      var added := NewRows(tx, tx.phase.base);
      forall row | row in added ensures row.id >= MIN_ID {
        var i :| 0 <= i < |added| && added[i] == row;
      }
    }
  }

  /** Whatever transactions and deletions interleave, no new row has an id below 101. */
  lemma {:induction false} NewIdsFromMin(projects: set<string>, s: State, actions: seq<Action>)
    requires Inv(projects, s) && Exec(projects, s, actions).Some?
    ensures NewFromMin(s.rows, Exec(projects, s, actions).value.rows)
    decreases |actions|
  {
    if actions != [] {
      StepKeeps(projects, s, actions[0]);
      var s' := Next(projects, s, actions[0]).value;
      match actions[0] {
        case Commit(t) => CommitNewFromMin(projects, s, t);
        case Delete(_, _, _) => WithoutSubset(s.rows, actions[0]);
        case _ => assert s'.rows == s.rows;
      }
      NewIdsFromMin(projects, s', actions[1..]);
    }
  }

  /** From a moment with no open transaction on, over every run with deletions: a project's ids in
      a table never repeat, and the new ones are at least 101; without deletions they go on from
      the next one without a gap. */
  lemma {:induction false} IdsFromIdle(projects: set<string>, s: State, actions: seq<Action>, table: string, project: string)
    requires s.txs == map[] && Exec(projects, s, actions).Some? && Increasing(IdsOf(s.rows, table, project))
    ensures NewFromMin(s.rows, Exec(projects, s, actions).value.rows)
    ensures var before, after := IdsOf(s.rows, table, project), IdsOf(Exec(projects, s, actions).value.rows, table, project);
            && Increasing(after)
            && ((forall a :: a in actions ==> !a.Delete?) ==> exists n: nat :: after == before + Count(NextId(before), n))
  {
    NewIdsFromMin(projects, s, actions);
    IdsIncrease(projects, s, actions, table, project);
    if forall a :: a in actions ==> !a.Delete? {
      var n := IdsContiguous(projects, s, actions, table, project);
    }
  }

  // ---------------------------------------------------------------- when an insert fails

  /** On an existing project an insert fails exactly when a row of another project has one of its
      ids: ids are allocated per project, but unique per table. */
  lemma {:induction false} InsertFailsIff(projects: set<string>, s: State, t: int)
    requires Inv(projects, s) && t in s.txs && s.txs[t].phase.Read? && s.txs[t].project in projects
    ensures var tx := s.txs[t];
            Next(projects, s, Insert(t)) == Some(Close(s, t)) <==>
            exists row :: row in s.rows && row.table == tx.table && row.project != tx.project
                          && tx.phase.base <= row.id < tx.phase.base + |tx.contents|
  {
    var tx := s.txs[t];
    assert BaseOk(s.rows, tx);
    assert t !in Close(s, t).txs;
  }

  /** The transaction is to give the id to one of its rows. */
  ghost predicate Takes(tx: Tx, id: int)
    requires tx.phase.Read? || tx.phase.Inserted?
  {
    tx.phase.base <= id < tx.phase.base + |tx.contents|
  }

  /** An insert waits exactly while another open transaction has inserted one of its ids in the table.
      (Only a transaction with rows to insert takes the lock.) */
  lemma {:induction false} InsertWaitsIff(projects: set<string>, s: State, t: int)
    requires t in s.txs && s.txs[t].phase.Read? && s.txs[t].project in projects
    requires forall u :: u in s.txs && !s.txs[u].phase.Started? ==> s.txs[u].contents != []
    ensures Next(projects, s, Insert(t)).None? <==>
            && (forall row :: row in s.rows && row.table == s.txs[t].table ==> !Takes(s.txs[t], row.id))
            && exists u, id :: u in s.txs && s.txs[u].phase.Inserted? && s.txs[u].table == s.txs[t].table
                               && Takes(s.txs[t], id) && Takes(s.txs[u], id)
  {
    var tx := s.txs[t];
    forall u | u in s.txs && s.txs[u].phase.Inserted? && s.txs[u].table == tx.table
      ensures Overlap(tx, s.txs[u]) <==> exists id :: Takes(tx, id) && Takes(s.txs[u], id)
    {
      if Overlap(tx, s.txs[u]) {
        var id := if tx.phase.base < s.txs[u].phase.base then s.txs[u].phase.base else tx.phase.base;
        assert Takes(tx, id) && Takes(s.txs[u], id);
      }
    }
  }

  /** A transaction ends in a commit only once its rows are inserted, or if it has none to insert. */
  lemma {:induction false} CommitIff(projects: set<string>, s: State, t: int)
    ensures Next(projects, s, Commit(t)).Some? <==> t in s.txs && (s.txs[t].phase.Inserted? || (s.txs[t].phase == Started && s.txs[t].contents == []))
    ensures Next(projects, s, Commit(t)).Some? && !s.txs[t].phase.Inserted? ==> Next(projects, s, Commit(t)).value.rows == s.rows
  {
  }

  function Allocate(t: int): seq<Action> { [Lock(t), ReadMax(t), Insert(t), Commit(t)] }

  lemma {:induction false} ExecFour(projects: set<string>, s: State, a: Action, b: Action, c: Action, d: Action, s1: State, s2: State, s3: State)
    requires Next(projects, s, a) == Some(s1) && Next(projects, s1, b) == Some(s2) && Next(projects, s2, c) == Some(s3)
    ensures Exec(projects, s, [a, b, c]) == Some(s3)
    ensures Exec(projects, s, [a, b, c, d]) == Next(projects, s3, d)
  {
    assert [a, b, c][1..] == [b, c] && [b, c][1..] == [c] && [c][1..] == [];
    assert [a, b, c, d][1..] == [b, c, d] && [b, c, d][1..] == [c, d] && [c, d][1..] == [d] && [d][1..] == [];
    assert Exec(projects, s2, [c]) == Some(s3);
    assert Exec(projects, s1, [b, c]) == Some(s3);
    assert Exec(projects, s3, [d]) == Next(projects, s3, d);
    assert Exec(projects, s2, [c, d]) == Exec(projects, s3, [d]);
    assert Exec(projects, s1, [b, c, d]) == Exec(projects, s2, [c, d]);
  }

  lemma {:induction false} ExecAppend(projects: set<string>, s: State, before: seq<Action>, after: seq<Action>)
    requires Exec(projects, s, before).Some?
    ensures Exec(projects, s, before + after) == Exec(projects, Exec(projects, s, before).value, after)
    decreases |before|
  {
    if before == [] {
      assert before + after == after;
    } else {
      assert (before + after)[1..] == before[1..] + after;
      ExecAppend(projects, Next(projects, s, before[0]).value, before[1..], after);
    }
  }

  /** The steps of an open transaction, up to its insert, when no other one is past its start. */
  lemma {:induction false} AllocateRuns(projects: set<string>, s: State, t: int)
    requires t in s.txs && s.locks == map[] && (forall u :: u in s.txs ==> s.txs[u].phase.Started?)
    requires s.txs[t].contents != [] && s.txs[t].project in projects
    ensures var tx := s.txs[t];
            var base := NextId(IdsOf(s.rows, tx.table, tx.project));
            if Taken(s.rows, tx.table, base, |tx.contents|)
            then Exec(projects, s, [Lock(t), ReadMax(t), Insert(t)]) == Some(State(s.rows, s.txs - {t}, map[]))
            else Exec(projects, s, Allocate(t)) == Some(State(s.rows + NewRows(tx, base), s.txs - {t}, map[]))
  {
    var tx := s.txs[t];
    var base := NextId(IdsOf(s.rows, tx.table, tx.project));
    var locks := map[tx.project := t];
    var s1 := State(s.rows, s.txs[t := tx.(phase := Locked)], locks);
    var s2 := State(s.rows, s.txs[t := tx.(phase := Read(base))], locks);
    assert Next(projects, s, Lock(t)) == Some(s1);
    assert s1.txs[t := tx.(phase := Read(base))] == s2.txs;
    if Taken(s.rows, tx.table, base, |tx.contents|) {
      assert Close(s2, t) == State(s.rows, s.txs - {t}, map[]);
      ExecFour(projects, s, Lock(t), ReadMax(t), Insert(t), Commit(t), s1, s2, Close(s2, t));
    } else {
      InsertAndCommit(projects, s, s2, t, tx, base);
      var s3 := s2.(txs := s2.txs[t := tx.(phase := Inserted(base))]);
      ExecFour(projects, s, Lock(t), ReadMax(t), Insert(t), Commit(t), s1, s2, s3);
    }
  }

  lemma {:induction false} InsertAndCommit(projects: set<string>, s: State, s2: State, t: int, tx: Tx, base: int)
    requires t in s.txs && s.txs[t] == tx && (forall u :: u in s.txs ==> s.txs[u].phase.Started?) && tx.project in projects
    requires s2 == State(s.rows, s.txs[t := tx.(phase := Read(base))], map[tx.project := t])
    requires !Taken(s.rows, tx.table, base, |tx.contents|)
    ensures var s3 := s2.(txs := s2.txs[t := tx.(phase := Inserted(base))]);
            && Next(projects, s2, Insert(t)) == Some(s3)
            && Next(projects, s3, Commit(t)) == Some(State(s.rows + NewRows(tx, base), s.txs - {t}, map[]))
  {
    var s3 := s2.(txs := s2.txs[t := tx.(phase := Inserted(base))]);
    assert !Pending(s2, t);
    assert Close(s3, t) == State(s.rows, s.txs - {t}, map[]);
    assert NewRows(s3.txs[t], base) == NewRows(tx, base);
  }

  /** Two projects, each creating its first row: the second one cannot. */
  lemma {:induction false} FirstRowsCollide(table: string, p: string, q: string, row: Content, other: Content)
    requires p != q
    ensures var s := State([], map[1 := Tx(table, p, [row], Started), 2 := Tx(table, q, [other], Started)], map[]);
            Exec({p, q}, s, Allocate(1) + [Lock(2), ReadMax(2), Insert(2)])
            == Some(State([Row(table, p, 101, row)], map[], map[]))
  {
    var s := State([], map[1 := Tx(table, p, [row], Started), 2 := Tx(table, q, [other], Started)], map[]);
    AllocateRuns({p, q}, s, 1);
    var added := NewRows(s.txs[1], MIN_ID);
    assert added == [Row(table, p, MIN_ID, row)] && [] + added == added;
    var s' := State(added, map[2 := Tx(table, q, [other], Started)], map[]);
    assert s.txs - {1} == s'.txs;
    OneMore([], added[0], table, q);
    assert added[0] in added;
    AllocateRuns({p, q}, s', 2);
    assert s'.txs - {2} == map[];
    ExecAppend({p, q}, s, Allocate(1), [Lock(2), ReadMax(2), Insert(2)]);
  }

  // ---------------------------------------------------------------- CreateTasks

  lemma {:induction false} MissingIs(rows: seq<Row>, project: string, plan: int, creates: seq<Create>)
    ensures var missing := Missing(rows, project, plan, creates);
            && (forall c :: c in missing ==> c.Task? && c.plan == plan && c.create in creates && !HasTask(rows, project, plan, KeyOf(c.create)))
            && (forall c :: c in creates ==> Task(plan, c) in missing || HasTask(rows, project, plan, KeyOf(c)))
  {
    if creates != [] {
      MissingIs(rows, project, plan, creates[..|creates|-1]);
      assert creates == creates[..|creates|-1] + [creates[|creates|-1]];
    }
  }

  /** Two tasks are one: same instance, same sheet, same database, an absent one counting as an
      empty one. */
  ghost predicate SameTask(a: Create, b: Create) {
    && a.instance == b.instance && a.sheet == b.sheet
    && (a.database == b.database || (a.database in {None, Some("")} && b.database in {None, Some("")}))
  }

  /** The plan has the task. */
  ghost predicate PlanHas(rows: seq<Row>, project: string, plan: int, c: Create) {
    exists row :: row in rows && row.table == "task" && row.project == project && row.content.Task? && row.content.plan == plan
                  && SameTask(row.content.create, c)
  }

  lemma {:induction false} HasTaskIff(rows: seq<Row>, project: string, plan: int, c: Create)
    ensures HasTask(rows, project, plan, KeyOf(c)) <==> PlanHas(rows, project, plan, c)
  {
    forall row: Row | row.content.Task? ensures KeyOf(row.content.create) == KeyOf(c) <==> SameTask(row.content.create, c) {
    }
    if HasTask(rows, project, plan, KeyOf(c)) {
      var row :| row in rows && IsTask(row, project, plan, KeyOf(c));
      assert SameTask(row.content.create, c);
    }
    if PlanHas(rows, project, plan, c) {
      var row :| row in rows && row.table == "task" && row.project == project && row.content.Task? && row.content.plan == plan
                 && SameTask(row.content.create, c);
      assert IsTask(row, project, plan, KeyOf(c));
    }
  }

  /** The contents are the requested tasks at some positions, in order: those the plan has none of. */
  ghost predicate NewTasksAt(rows: seq<Row>, project: string, plan: int, creates: seq<Create>, contents: seq<Content>, at: seq<nat>) {
    && |at| == |contents|
    && (forall m :: 0 <= m < |at| ==> at[m] < |creates| && contents[m] == Task(plan, creates[at[m]]))
    && (forall m, m' :: 0 <= m < m' < |at| ==> at[m] < at[m'])
    && (forall p: nat :: p < |creates| ==> (p in at <==> !PlanHas(rows, project, plan, creates[p])))
  }

  /** What a call inserts, field by field. */
  lemma {:induction false} MissingByFields(rows: seq<Row>, project: string, plan: int, creates: seq<Create>) returns (at: seq<nat>)
    ensures NewTasksAt(rows, project, plan, creates, Missing(rows, project, plan, creates), at)
  {
    at := [];
    if creates != [] {
      var n := |creates| - 1;
      at := MissingByFields(rows, project, plan, creates[..n]);
      HasTaskIff(rows, project, plan, creates[n]);
      OneMoreNewTask(rows, project, plan, creates[..n], creates[n], Missing(rows, project, plan, creates[..n]), at);
      assert creates == creates[..n] + [creates[n]];
      if !HasTask(rows, project, plan, KeyOf(creates[n])) {
        at := at + [n];
      } else {
        assert Missing(rows, project, plan, creates) == Missing(rows, project, plan, creates[..n]) + [];
      }
    }
  }

  lemma {:induction false} OneMoreNewTask(rows: seq<Row>, project: string, plan: int, creates: seq<Create>, c: Create,
                                          contents: seq<Content>, at: seq<nat>)
    requires NewTasksAt(rows, project, plan, creates, contents, at)
    ensures PlanHas(rows, project, plan, c) ==> NewTasksAt(rows, project, plan, creates + [c], contents, at)
    ensures !PlanHas(rows, project, plan, c) ==> NewTasksAt(rows, project, plan, creates + [c], contents + [Task(plan, c)], at + [|creates|])
  {
    var n := |creates|;
    assert forall m :: 0 <= m < |at| ==> at[m] != n;
    forall p: nat | p <= n ensures p in at + [n] <==> p in at || p == n { assert (at + [n])[|at|] == n; }
  }

  lemma {:induction false} CommitCovers(rows: seq<Row>, project: string, plan: int, creates: seq<Create>, more: seq<Row>, tx: Tx, base: int)
    requires rows <= more && tx.table == "task" && tx.project == project && tx.contents == Missing(rows, project, plan, creates)
    ensures forall c :: c in creates ==> HasTask(more + NewRows(tx, base), project, plan, KeyOf(c))
  {
    var after := more + NewRows(tx, base);
    MissingIs(rows, project, plan, creates);
    forall c | c in creates ensures HasTask(after, project, plan, KeyOf(c)) {
      if HasTask(rows, project, plan, KeyOf(c)) {
        var row :| row in rows && IsTask(row, project, plan, KeyOf(c));
        assert row in more && row in after;
      } else {
        var i :| 0 <= i < |tx.contents| && tx.contents[i] == Task(plan, c);
        assert IsTask(NewRows(tx, base)[i], project, plan, KeyOf(c)) && NewRows(tx, base)[i] in after;
      }
    }
  }

  /** Without deletions rows are only added. */
  lemma {:induction false} RowsKept(projects: set<string>, s: State, actions: seq<Action>)
    requires Exec(projects, s, actions).Some? && forall a :: a in actions ==> !a.Delete?
    ensures s.rows <= Exec(projects, s, actions).value.rows
    decreases |actions|
  {
    if actions != [] {
      assert actions[0] in actions;
      var s' := Next(projects, s, actions[0]).value;
      assert s.rows <= s'.rows;
      RowsKept(projects, s', actions[1..]);
    }
  }

  lemma {:induction false} TasksKept(rows: seq<Row>, more: seq<Row>, project: string, plan: int, key: Key)
    requires rows <= more && HasTask(rows, project, plan, key)
    ensures HasTask(more, project, plan, key)
  {
    var row :| row in rows && IsTask(row, project, plan, key);
    assert row in more;
  }

  /** A transaction lists what is missing, commits it some time later, and others go on for any
      while: as long as no row is deleted, asking for the same tasks again finds none missing. */
  lemma {:induction false} RepeatInsertsNothing(projects: set<string>, s: State, t: int, project: string, plan: int, creates: seq<Create>,
                                                before: seq<Action>, after: seq<Action>)
    requires t !in s.txs && forall a :: a in before + after ==> !a.Delete?
    requires var listed := Next(projects, s, BeginListing(t, project, plan, creates)).value;
             Exec(projects, listed, before).Some? &&
             var ready := Exec(projects, listed, before).value;
             t in ready.txs && ready.txs[t].phase.Inserted? && ready.txs[t] == listed.txs[t].(phase := ready.txs[t].phase) &&
             Exec(projects, Next(projects, ready, Commit(t)).value, after).Some?
    ensures var listed := Next(projects, s, BeginListing(t, project, plan, creates)).value;
            var ready := Exec(projects, listed, before).value;
            Missing(Exec(projects, Next(projects, ready, Commit(t)).value, after).value.rows, project, plan, creates) == []
  {
    var listed := Next(projects, s, BeginListing(t, project, plan, creates)).value;
    var ready := Exec(projects, listed, before).value;
    var done := Next(projects, ready, Commit(t)).value;
    assert forall a :: a in before ==> a in before + after;
    assert forall a :: a in after ==> a in before + after;
    RowsKept(projects, listed, before);
    RowsKept(projects, done, after);
    CommitCovers(s.rows, project, plan, creates, ready.rows, ready.txs[t], ready.txs[t].phase.base);
    var rows := Exec(projects, done, after).value.rows;
    forall c | c in creates ensures HasTask(rows, project, plan, KeyOf(c)) {
      TasksKept(done.rows, rows, project, plan, KeyOf(c));
    }
    NoneMissing(rows, project, plan, creates);
  }

  lemma {:induction false} NoneMissing(rows: seq<Row>, project: string, plan: int, creates: seq<Create>)
    requires forall c :: c in creates ==> HasTask(rows, project, plan, KeyOf(c))
    ensures Missing(rows, project, plan, creates) == []
  {
    if creates != [] { NoneMissing(rows, project, plan, creates[..|creates|-1]); }
  }

  /** The keys are compared with the table only: one task given twice is inserted twice. */
  lemma {:induction false} SameTaskTwice(rows: seq<Row>, project: string, plan: int, c: Create)
    ensures Missing(rows, project, plan, [c, c]) ==
            if HasTask(rows, project, plan, KeyOf(c)) then [] else [Task(plan, c), Task(plan, c)]
  {
    assert [c, c][..1] == [c] && [c][..0] == [];
    assert Missing(rows, project, plan, []) == [];
    assert Missing(rows, project, plan, [c]) == if HasTask(rows, project, plan, KeyOf(c)) then [] else [Task(plan, c)];
  }

  /** Two transactions that both list a plan's tasks before either takes the project's lock insert
      the same task twice. */
  lemma {:induction false} ConcurrentCreatesDuplicate(project: string, plan: int, c: Create)
    ensures var tx := Tx("task", project, Missing([], project, plan, [c]), Started);
            var s := State([], map[1 := tx, 2 := tx], map[]);
            Exec({project}, s, Allocate(1) + Allocate(2))
            == Some(State([Row("task", project, MIN_ID, Task(plan, c)), Row("task", project, MIN_ID + 1, Task(plan, c))], map[], map[]))
  {
    assert [c][..0] == [] && Missing([], project, plan, []) == [];
    assert Missing([], project, plan, [c]) == [Task(plan, c)];
    TwoAllocate("task", project, Task(plan, c));
  }

  lemma {:induction false} OneAllocates(s: State, t: int, table: string, project: string, c: Content)
    requires t in s.txs && s.txs[t] == Tx(table, project, [c], Started) && s.locks == map[]
    requires forall u :: u in s.txs ==> s.txs[u].phase.Started?
    requires forall row :: row in s.rows ==> row.project == project
    ensures Exec({project}, s, Allocate(t)) ==
            Some(State(s.rows + [Row(table, project, NextId(IdsOf(s.rows, table, project)), c)], s.txs - {t}, map[]))
  {
    var base := NextId(IdsOf(s.rows, table, project));
    AllocateRuns({project}, s, t);
    IdsOfRows(s.rows, table, project);
    NextIdIsLeastFree(IdsOf(s.rows, table, project));
    assert NewRows(s.txs[t], base) == [Row(table, project, base, c)];
  }

  lemma {:induction false} TwoAllocate(table: string, project: string, c: Content)
    ensures var tx := Tx(table, project, [c], Started);
            Exec({project}, State([], map[1 := tx, 2 := tx], map[]), Allocate(1) + Allocate(2))
            == Some(State([Row(table, project, MIN_ID, c), Row(table, project, MIN_ID + 1, c)], map[], map[]))
  {
    var tx := Tx(table, project, [c], Started);
    var s := State([], map[1 := tx, 2 := tx], map[]);
    var s' := State([Row(table, project, MIN_ID, c)], map[2 := tx], map[]);
    assert s.txs - {1} == s'.txs && s'.txs - {2} == map[];
    OneAllocates(s, 1, table, project, c);
    OneMore([], s'.rows[0], table, project);
    assert [] + s'.rows == s'.rows;
    assert IdsOf(s'.rows, table, project) == [MIN_ID];
    assert NextId([MIN_ID]) == MIN_ID + 1;
    OneAllocates(s', 2, table, project, c);
    assert s'.rows + [Row(table, project, MIN_ID + 1, c)] == [Row(table, project, MIN_ID, c), Row(table, project, MIN_ID + 1, c)];
    ExecAppend({project}, s, Allocate(1), Allocate(2));
  }

  // ---------------------------------------------------------------- when no task is repeated

  predicate OfPlan(row: Row, project: string, plan: int) {
    row.table == "task" && row.project == project && row.content.Task? && row.content.plan == plan
  }

  /** No two tasks of the plan have one key. */
  ghost predicate NoRepeat(rows: seq<Row>, project: string, plan: int) {
    forall i, j :: 0 <= i < j < |rows| && OfPlan(rows[i], project, plan) && OfPlan(rows[j], project, plan) ==>
      KeyOf(rows[i].content.create) != KeyOf(rows[j].content.create)
  }

  ghost predicate DistinctKeys(tasks: seq<Content>) {
    forall i, j :: 0 <= i < j < |tasks| && tasks[i].Task? && tasks[j].Task? && tasks[i].plan == tasks[j].plan ==>
      KeyOf(tasks[i].create) != KeyOf(tasks[j].create)
  }

  lemma {:induction false} NoRepeatAppend(rows: seq<Row>, tx: Tx, base: int, project: string, plan: int)
    requires tx.table == "task" && tx.project == project && NoRepeat(rows, project, plan) && DistinctKeys(tx.contents)
    requires forall c :: c in tx.contents && c.Task? && c.plan == plan ==> !HasTask(rows, project, plan, KeyOf(c.create))
    ensures NoRepeat(rows + NewRows(tx, base), project, plan)
  {
    var added := NewRows(tx, base);
    var all := rows + added;
    forall i, j | 0 <= i < j < |all| && OfPlan(all[i], project, plan) && OfPlan(all[j], project, plan)
      ensures KeyOf(all[i].content.create) != KeyOf(all[j].content.create)
    {
      if j >= |rows| {
        assert all[j] == added[j - |rows|] && tx.contents[j - |rows|] in tx.contents;
        if i < |rows| {
          assert all[i] in rows && IsTask(all[i], project, plan, KeyOf(all[i].content.create));
        } else {
          assert all[i] == added[i - |rows|];
        }
      }
    }
  }

  /** After a call the plan has no repeated task exactly when it had none before and the tasks it
      was missing have distinct keys. */
  lemma {:induction false} NoRepeatIff(rows: seq<Row>, project: string, plan: int, creates: seq<Create>, base: int)
    ensures var tx := Tx("task", project, Missing(rows, project, plan, creates), Started);
            NoRepeat(rows + NewRows(tx, base), project, plan) <==> NoRepeat(rows, project, plan) && DistinctKeys(tx.contents)
  {
    var tx := Tx("task", project, Missing(rows, project, plan, creates), Started);
    var added := NewRows(tx, base);
    var all := rows + added;
    MissingIs(rows, project, plan, creates);
    if NoRepeat(rows, project, plan) && DistinctKeys(tx.contents) { NoRepeatAppend(rows, tx, base, project, plan); }
    if NoRepeat(all, project, plan) {
      forall i, j | 0 <= i < j < |tx.contents| ensures KeyOf(tx.contents[i].create) != KeyOf(tx.contents[j].create) {
        assert tx.contents[i] in tx.contents && tx.contents[j] in tx.contents;
        assert all[|rows| + i] == added[i] && all[|rows| + j] == added[j];
      }
      assert forall i :: 0 <= i < |rows| ==> all[i] == rows[i];
    }
  }

  predicate IsTaskTx(tx: Tx, project: string) { tx.table == "task" && tx.project == project }

  /** Tasks are inserted after a listing only, with distinct keys, and only while no other
      transaction of the project is at it. */
  ghost predicate Careful(s: State, a: Action) {
    match a
    case Begin(_, table, _, _) => table != "task"
    case BeginListing(_, project, plan, creates) =>
      && (forall i, j :: 0 <= i < j < |creates| ==> KeyOf(creates[i]) != KeyOf(creates[j]))
      && forall u :: u in s.txs ==> !IsTaskTx(s.txs[u], project)
    case _ => true
  }

  ghost predicate CarefulRun(projects: set<string>, s: State, actions: seq<Action>)
    decreases |actions|
  {
    actions == [] ||
    (Careful(s, actions[0]) &&
     (Next(projects, s, actions[0]).Some? ==> CarefulRun(projects, Next(projects, s, actions[0]).value, actions[1..])))
  }

  /** What an open transaction is to insert is new and not repeated. */
  ghost predicate TxNew(rows: seq<Row>, tx: Tx) {
    tx.table == "task" ==>
      && DistinctKeys(tx.contents)
      && forall c :: c in tx.contents && c.Task? ==> !HasTask(rows, tx.project, c.plan, KeyOf(c.create))
  }

  ghost predicate NoRepeats(rows: seq<Row>) { forall project, plan :: NoRepeat(rows, project, plan) }

  ghost predicate TasksInv(s: State) {
    && NoRepeats(s.rows)
    && (forall t :: t in s.txs ==> TxNew(s.rows, s.txs[t]))
    && (forall t, u :: t in s.txs && u in s.txs && IsTaskTx(s.txs[t], s.txs[u].project) && s.txs[u].table == "task" ==> t == u)
  }

  lemma {:induction false} MissingDistinct(rows: seq<Row>, project: string, plan: int, creates: seq<Create>)
    requires forall i, j :: 0 <= i < j < |creates| ==> KeyOf(creates[i]) != KeyOf(creates[j])
    ensures DistinctKeys(Missing(rows, project, plan, creates))
  {
    if creates != [] {
      var init, last := creates[..|creates|-1], creates[|creates|-1];
      MissingDistinct(rows, project, plan, init);
      MissingIs(rows, project, plan, init);
      var missing := Missing(rows, project, plan, init);
      forall i | 0 <= i < |missing| ensures KeyOf(missing[i].create) != KeyOf(last) {
        assert missing[i] in missing && missing[i].create in init;
        var k :| 0 <= k < |init| && init[k] == missing[i].create;
        assert creates[k] == init[k];
      }
    }
  }

  lemma {:induction false} ListingKeepsTasks(projects: set<string>, s: State, a: Action)
    requires TasksInv(s) && a.BeginListing? && Careful(s, a) && Next(projects, s, a).Some?
    ensures TasksInv(Next(projects, s, a).value)
  {
    MissingDistinct(s.rows, a.project, a.plan, a.creates);
    MissingIs(s.rows, a.project, a.plan, a.creates);
    var s' := Next(projects, s, a).value;
    assert TxNew(s'.rows, s'.txs[a.t]);
    assert forall t :: t in s'.txs && t != a.t ==> t in s.txs && s'.txs[t] == s.txs[t];
  }

  lemma {:induction false} CommitKeepsTasks(projects: set<string>, s: State, t: int)
    requires TasksInv(s) && Next(projects, s, Commit(t)).Some?
    ensures TasksInv(Next(projects, s, Commit(t)).value)
  {
    var tx, s' := s.txs[t], Next(projects, s, Commit(t)).value;
    if tx.phase.Inserted? {
      forall project, plan ensures NoRepeat(s'.rows, project, plan) {
        CommitNoRepeat(s.rows, tx, tx.phase.base, project, plan);
      }
      forall u | u in s'.txs ensures TxNew(s'.rows, s'.txs[u]) {
        OthersStayNew(s.rows, tx, tx.phase.base, s.txs[u]);
      }
    }
  }

  lemma {:induction false} CommitNoRepeat(rows: seq<Row>, tx: Tx, base: int, project: string, plan: int)
    requires NoRepeats(rows) && TxNew(rows, tx)
    ensures NoRepeat(rows + NewRows(tx, base), project, plan)
  {
    assert NoRepeat(rows, project, plan);
    if IsTaskTx(tx, project) {
      NoRepeatAppend(rows, tx, base, project, plan);
    } else {
      var all := rows + NewRows(tx, base);
      assert forall i :: |rows| <= i < |all| ==> !OfPlan(all[i], project, plan);
      assert forall i :: 0 <= i < |rows| ==> all[i] == rows[i];
    }
  }

  lemma {:induction false} OthersStayNew(rows: seq<Row>, tx: Tx, base: int, other: Tx)
    requires TxNew(rows, other) && (tx.table == "task" && other.table == "task" ==> tx.project != other.project)
    ensures TxNew(rows + NewRows(tx, base), other)
  {
    if other.table == "task" {
      forall c | c in other.contents && c.Task? ensures !HasTask(rows + NewRows(tx, base), other.project, c.plan, KeyOf(c.create)) {
        assert forall row :: row in NewRows(tx, base) ==> !IsTask(row, other.project, c.plan, KeyOf(c.create));
      }
    }
  }

  lemma {:induction false} WithoutNoRepeat(rows: seq<Row>, a: Action, project: string, plan: int)
    requires a.Delete? && NoRepeat(rows, project, plan)
    ensures NoRepeat(Without(rows, a), project, plan)
  {
    if rows != [] {
      var init, last := rows[..|rows|-1], rows[|rows|-1];
      WithoutNoRepeat(init, a, project, plan);
      WithoutSubset(init, a);
      var kept := Without(init, a);
      forall i | 0 <= i < |kept| && OfPlan(kept[i], project, plan) && OfPlan(last, project, plan)
        ensures KeyOf(kept[i].content.create) != KeyOf(last.content.create)
      {
        assert kept[i] in kept;
        var k :| 0 <= k < |init| && init[k] == kept[i];
        assert rows[k] == kept[i];
      }
    }
  }

  lemma {:induction false} DeleteKeepsTasks(projects: set<string>, s: State, a: Action)
    requires TasksInv(s) && a.Delete?
    ensures TasksInv(Next(projects, s, a).value)
  {
    forall project, plan ensures NoRepeat(Without(s.rows, a), project, plan) {
      assert NoRepeat(s.rows, project, plan);
      WithoutNoRepeat(s.rows, a, project, plan);
    }
    WithoutSubset(s.rows, a);
  }

  /** The remaining steps touch neither the rows nor what a transaction is to insert. */
  lemma {:induction false} OtherStepKeepsTasks(projects: set<string>, s: State, a: Action)
    requires TasksInv(s) && Careful(s, a) && Next(projects, s, a).Some? && !a.BeginListing? && !a.Commit? && !a.Delete?
    ensures TasksInv(Next(projects, s, a).value)
  {
    var s' := Next(projects, s, a).value;
    OtherStepIs(projects, s, a);
    forall t | t in s'.txs ensures TxNew(s'.rows, s'.txs[t]) {
      assert t in s.txs ==> TxNew(s.rows, s.txs[t]);
    }
  }

  /** A step that neither lists nor commits changes a transaction's phase, or begins one, at most. */
  lemma {:induction false} OtherStepIs(projects: set<string>, s: State, a: Action)
    requires Next(projects, s, a).Some? && !a.BeginListing? && !a.Commit? && !a.Delete?
    ensures var s' := Next(projects, s, a).value;
            && s'.rows == s.rows
            && (forall t :: t in s'.txs && t != a.t ==> t in s.txs && s'.txs[t] == s.txs[t])
            && (a.t in s'.txs && !a.Begin? ==> a.t in s.txs && s'.txs[a.t] == s.txs[a.t].(phase := s'.txs[a.t].phase))
            && (a.Begin? && a.t in s'.txs ==> s'.txs[a.t].table == a.table)
  {
  }

  /** In every run in which tasks are inserted with such care, no plan ever has two tasks with one
      key. `SameTaskTwice` and `ConcurrentCreatesDuplicate` show that each part of it is needed. */
  lemma {:induction false} CarefulRunsNeverRepeat(projects: set<string>, s: State, actions: seq<Action>)
    requires TasksInv(s) && CarefulRun(projects, s, actions) && Exec(projects, s, actions).Some?
    ensures TasksInv(Exec(projects, s, actions).value) && NoRepeats(Exec(projects, s, actions).value.rows)
    decreases |actions|
  {
    if actions != [] {
      var a := actions[0];
      match a {
        case BeginListing(_, _, _, _) => ListingKeepsTasks(projects, s, a);
        case Commit(t) => CommitKeepsTasks(projects, s, t);
        case Delete(_, _, _) => DeleteKeepsTasks(projects, s, a);
        case _ => OtherStepKeepsTasks(projects, s, a);
      }
      CarefulRunsNeverRepeat(projects, Next(projects, s, a).value, actions[1..]);
    }
  }

  /** The rows are of the project and the plan, for exactly the requested tasks it had none of, in
      order. */
  ghost predicate Inserts(rows: seq<Row>, project: string, plan: int, creates: seq<Create>, added: seq<Row>) {
    && (forall i :: 0 <= i < |added| ==> added[i].table == "task" && added[i].project == project)
    && exists at :: NewTasksAt(rows, project, plan, creates, ContentsOf(added), at)
  }

  function ContentsOf(rows: seq<Row>): (contents: seq<Content>)
    ensures |contents| == |rows| && forall i :: 0 <= i < |rows| ==> contents[i] == rows[i].content
  {
    seq(|rows|, i requires 0 <= i < |rows| => rows[i].content)
  }

  lemma {:induction false} MissingInserted(rows: seq<Row>, project: string, plan: int, creates: seq<Create>, base: int)
    ensures var list := Missing(rows, project, plan, creates);
            var added := NewRows(Tx("task", project, list, Started), base);
            && Inserts(rows, project, plan, creates, added) && (forall c :: c in creates ==> PlanHas(rows + added, project, plan, c))
            && (list == [] ==> added == [])
  {
    var list := Missing(rows, project, plan, creates);
    var added := NewRows(Tx("task", project, list, Started), base);
    var at := MissingByFields(rows, project, plan, creates);
    assert ContentsOf(added) == list;
    AllInPlan(rows, project, plan, creates, list, at, added);
  }

  lemma {:induction false} AllInPlan(rows: seq<Row>, project: string, plan: int, creates: seq<Create>, list: seq<Content>, at: seq<nat>, added: seq<Row>)
    requires NewTasksAt(rows, project, plan, creates, list, at) && ContentsOf(added) == list
    requires forall i :: 0 <= i < |added| ==> added[i].table == "task" && added[i].project == project
    ensures forall c :: c in creates ==> PlanHas(rows + added, project, plan, c)
  {
    forall c | c in creates ensures PlanHas(rows + added, project, plan, c) {
      var p :| 0 <= p < |creates| && creates[p] == c;
      if PlanHas(rows, project, plan, c) {
        var row :| row in rows && row.table == "task" && row.project == project && row.content.Task? && row.content.plan == plan
                   && SameTask(row.content.create, c);
        assert row in rows + added;
      } else {
        var m :| 0 <= m < |at| && at[m] == p;
        assert added[m] in rows + added && added[m].content == Task(plan, c);
      }
    }
  }

  class Store {
    const projects: set<string>
    var rows: seq<Row>

    constructor (projects: set<string>, rows: seq<Row>)
      ensures this.projects == projects && this.rows == rows
    {
      this.projects, this.rows := projects, rows;
    }

    /** CreateTasks, in a transaction of its own that no other one interleaves with. */
    method CreateTasks(project: string, plan: int, creates: seq<Create>) returns (r: Result<seq<Row>>)
      modifies this
      ensures var tx := Tx("task", project, Missing(old(rows), project, plan, creates), Started);
              var base := NextId(IdsOf(old(rows), "task", project));
              if tx.contents == [] then r == Ok([]) && rows == old(rows)
              else if project in projects && !Taken(old(rows), "task", base, |tx.contents|)
              then r == Ok(NewRows(tx, base)) && rows == old(rows) + NewRows(tx, base)
              else r == Error && rows == old(rows)
      ensures r.Ok? ==> rows == old(rows) + r.value && Inserts(old(rows), project, plan, creates, r.value)
      ensures r.Ok? ==> forall c :: c in creates ==> PlanHas(rows, project, plan, c)
    {
      var list := NewTasks(rows, project, plan, creates);
      MissingInserted(rows, project, plan, creates, NextId(IdsOf(rows, "task", project)));
      if |list| == 0 {
        assert rows + [] == rows;
        return Ok([]);
      }
      r := CreateTasksTx(project, list);
    }

    /** Its listing and its loop. */
    static method NewTasks(all: seq<Row>, project: string, plan: int, creates: seq<Create>) returns (list: seq<Content>)
      ensures list == Missing(all, project, plan, creates)
    {
      var keys := ExistingKeys(all, project, plan);
      list := [];
      for i := 0 to |creates|
        invariant list == Missing(all, project, plan, creates[..i])
      {
        assert creates[..i+1][..i] == creates[..i];
        if KeyOf(creates[i]) !in keys { list := list + [Task(plan, creates[i])]; }
      }
      assert creates[..|creates|] == creates;
    }

    /** createTasksTx. */
    method CreateTasksTx(project: string, list: seq<Content>) returns (r: Result<seq<Row>>)
      modifies this
      ensures var base := NextId(IdsOf(old(rows), "task", project));
              if project in projects && !Taken(old(rows), "task", base, |list|)
              then r == Ok(NewRows(Tx("task", project, list, Started), base)) && rows == old(rows) + r.value
              else r == Error && rows == old(rows)
    {
      var base := NextId(IdsOf(rows, "task", project));
      var added: seq<Row> := [];
      ghost var all := NewRows(Tx("task", project, list, Started), base);
      for i := 0 to |list|
        invariant added == all[..i]
      {
        added := added + [Row("task", project, base + i, list[i])];
      }
      assert all[..|list|] == all;
      if project !in projects || Taken(rows, "task", base, |list|) { return Error; }
      rows := rows + added;
      return Ok(added);
    }
  }

  /** The keys of a plan's tasks. */
  method ExistingKeys(rows: seq<Row>, project: string, plan: int) returns (keys: set<Key>)
    ensures forall key :: key in keys <==> HasTask(rows, project, plan, key)
  {
    keys := {};
    for i := 0 to |rows|
      invariant forall key :: key in keys <==> HasTask(rows[..i], project, plan, key)
    {
      var row := rows[i];
      assert rows[..i+1] == rows[..i] + [row];
      assert forall key :: HasTask(rows[..i+1], project, plan, key) <==> HasTask(rows[..i], project, plan, key) || IsTask(row, project, plan, key);
      if row.table == "task" && row.project == project && row.content.Task? && row.content.plan == plan {
        keys := keys + {KeyOf(row.content.create)};
      }
    }
    assert rows[..|rows|] == rows;
  }
}
