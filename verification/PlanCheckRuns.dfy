/** Plan check runs: the statements of backend/store/plan_check_run.go on their table, and any
    interleaving of creators, claiming schedulers, their runners and the timeout. */
module PlanCheckRuns {
  import opened Options

  datatype Status = Available | Running | Done | Failed | Canceled

  datatype Row = Row(id: int, project: string, plan: int, status: Status, result: string)

  // ---------------------------------------------------------------- the statements

  type Filter = Row -> bool

  /** UPDATE ... SET status, result WHERE. */
  function Change(rows: seq<Row>, which: Filter, to: Row -> Row): (changed: seq<Row>)
    ensures |changed| == |rows|
    ensures forall i :: 0 <= i < |rows| ==> changed[i] == if which(rows[i]) then to(rows[i]) else rows[i]
  {
    seq(|rows|, i requires 0 <= i < |rows| => if which(rows[i]) then to(rows[i]) else rows[i])
  }

  function WithStatus(status: Status): Row -> Row { (r: Row) => r.(status := status) }

  function WithResult(status: Status, result: string): Row -> Row { (r: Row) => r.(status := status, result := result) }

  function OfPlan(project: string, plan: int): Filter { (r: Row) => r.project == project && r.plan == plan }

  function OfIds(project: string, ids: set<int>): Filter { (r: Row) => r.project == project && r.id in ids }

  /** Running for too long; which rows that are is the clock's choice. */
  function Stale(ids: set<int>): Filter { (r: Row) => r.status.Running? && r.id in ids }

  function Claimable(locked: set<int>): Filter { (r: Row) => r.status.Available? && r.id !in locked }

  function WithId(id: int): Filter { (r: Row) => r.id == id }

  function Lockable(id: int): Filter { (r: Row) => r.id == id && r.status.Available? }

  predicate Any(rows: seq<Row>, which: Filter) { exists r :: r in rows && which(r) }

  /** INSERT ... ON CONFLICT (project, plan_id) DO UPDATE; an id already taken makes it fail. */
  function Upsert(rows: seq<Row>, project: string, plan: int, id: int, result: string): seq<Row> {
    if Any(rows, OfPlan(project, plan)) then Change(rows, OfPlan(project, plan), WithResult(Available, result))
    else if Any(rows, WithId(id)) then rows
    else rows + [Row(id, project, plan, Available, result)]
  }

  /** The ids of the rows that match, in table order. */
  function IdsWhere(rows: seq<Row>, which: Filter): (ids: seq<int>)
    ensures forall id :: id in ids <==> exists r :: r in rows && which(r) && r.id == id
  {
    if rows == [] then []
    else
      var init, last := rows[..|rows|-1], rows[|rows|-1];
      assert rows == init + [last];
      IdsWhere(init, which) + (if which(last) then [last.id] else [])
  }

  const TIMED_OUT := "timed out"

  // ---------------------------------------------------------------- interleaved

  datatype Event = Created(id: int) | Claimed(id: int, who: int)

  /** The rows, the rows each claiming transaction has locked, and what happened so far. */
  datatype State = State(rows: seq<Row>, held: map<int, int>, trace: seq<Event>)

  datatype Action =
    | Create(project: string, plan: int, id: int, result: string)
    | LockRow(who: int, id: int) | CommitClaim(who: int) | RollbackClaim(who: int)
    | Update(project: string, uid: int, status: Status, result: string)
    | Cancel(project: string, uids: set<int>)
    | FailStale(stale: set<int>)

  function Held(s: State): Filter { (r: Row) => r.id in s.held }

  function HeldBy(s: State, who: int): Filter { (r: Row) => r.id in s.held && s.held[r.id] == who }

  function Both(a: Filter, b: Filter): Filter { (r: Row) => a(r) && b(r) }

  function ClaimEvents(ids: seq<int>, who: int): (events: seq<Event>)
    ensures |events| == |ids| && forall i :: 0 <= i < |ids| ==> events[i] == Claimed(ids[i], who)
  {
    seq(|ids|, i requires 0 <= i < |ids| => Claimed(ids[i], who))
  }

  function CreateEvents(ids: seq<int>): (events: seq<Event>)
    ensures |events| == |ids| && forall i :: 0 <= i < |ids| ==> events[i] == Created(ids[i])
  {
    seq(|ids|, i requires 0 <= i < |ids| => Created(ids[i]))
  }

  /** A statement waits for the rows that others have locked; a claim skips those. A claiming
      transaction locks available rows one at a time and commits them together. A runner sets a
      final status. */
  function Next(s: State, a: Action): Option<State> {
    match a
    case Create(project, plan, id, result) =>
      var fails := !Any(s.rows, OfPlan(project, plan)) && Any(s.rows, WithId(id));
      if fails then Some(s)
      else if Any(s.rows, Both(OfPlan(project, plan), Held(s))) then None
      else
        var rows := Upsert(s.rows, project, plan, id, result);
        Some(State(rows, s.held, s.trace + CreateEvents(IdsWhere(rows, OfPlan(project, plan)))))
    case LockRow(who, id) =>
      if id in s.held || !Any(s.rows, Lockable(id)) then None
      else Some(s.(held := s.held[id := who]))
    case CommitClaim(who) =>
      Some(State(Change(s.rows, HeldBy(s, who), WithStatus(Running)), Release(s, who),
                 s.trace + ClaimEvents(IdsWhere(s.rows, HeldBy(s, who)), who)))
    case RollbackClaim(who) => Some(s.(held := Release(s, who)))
    case Update(project, uid, status, result) =>
      if status.Available? || status.Running? || Any(s.rows, Both(OfIds(project, {uid}), Held(s))) then None
      else Some(s.(rows := Change(s.rows, OfIds(project, {uid}), WithResult(status, result))))
    case Cancel(project, uids) =>
      if Any(s.rows, Both(OfIds(project, uids), Held(s))) then None
      else Some(s.(rows := Change(s.rows, OfIds(project, uids), WithStatus(Canceled))))
    case FailStale(stale) =>
      if Any(s.rows, Both(Stale(stale), Held(s))) then None
      else Some(s.(rows := Change(s.rows, Stale(stale), WithResult(Failed, TIMED_OUT))))
  }

  /** The locks other transactions keep. */
  function Release(s: State, who: int): map<int, int> { s.held - (set id | id in s.held && s.held[id] == who) }

  function Exec(s: State, actions: seq<Action>): Option<State>
    decreases |actions|
  {
    if actions == [] then Some(s)
    else
      match Next(s, actions[0])
      case None => None
      case Some(s') => Exec(s', actions[1..])
  }

  // ---------------------------------------------------------------- what every step keeps

  /** The last thing that happened to a run. */
  function Last(trace: seq<Event>, id: int): Option<Event> {
    if trace == [] then None
    else if trace[|trace|-1].id == id then Some(trace[|trace|-1])
    else Last(trace[..|trace|-1], id)
  }

  /** Ids are unique, and there is at most one row per project and plan. */
  ghost predicate Unique(rows: seq<Row>) {
    forall i, j :: 0 <= i < j < |rows| ==>
      rows[i].id != rows[j].id && !(rows[i].project == rows[j].project && rows[i].plan == rows[j].plan)
  }

  /** Each claim comes right after a creation of the same run. */
  ghost predicate ClaimsFollowCreations(trace: seq<Event>) {
    forall i :: 0 <= i < |trace| && trace[i].Claimed? ==> Last(trace[..i], trace[i].id) == Some(Created(trace[i].id))
  }

  /** An available row has been created since it was last claimed. */
  ghost predicate AvailableIsCreated(rows: seq<Row>, trace: seq<Event>) {
    forall r :: r in rows && r.status.Available? ==> Last(trace, r.id) == Some(Created(r.id))
  }

  ghost predicate HeldAvailable(s: State) {
    forall id :: id in s.held ==> exists r :: r in s.rows && r.id == id && r.status.Available?
  }

  ghost predicate Inv(s: State) {
    && Unique(s.rows) && AvailableIsCreated(s.rows, s.trace) && HeldAvailable(s) && ClaimsFollowCreations(s.trace)
  }

  lemma {:induction false} SameRow(rows: seq<Row>, a: Row, b: Row)
    requires Unique(rows) && a in rows && b in rows && (a.id == b.id || (a.project == b.project && a.plan == b.plan))
    ensures a == b
  {
    var i :| 0 <= i < |rows| && rows[i] == a;
    var j :| 0 <= j < |rows| && rows[j] == b;
    assert i == j;
  }

  ghost predicate KeepsKeys(to: Row -> Row) {
    forall r :: to(r).id == r.id && to(r).project == r.project && to(r).plan == r.plan
  }

  lemma {:induction false} ChangeKeepsUnique(rows: seq<Row>, which: Filter, to: Row -> Row)
    requires Unique(rows) && KeepsKeys(to)
    ensures Unique(Change(rows, which, to))
  {
    var changed := Change(rows, which, to);
    forall i, j | 0 <= i < j < |changed|
      ensures changed[i].id != changed[j].id && !(changed[i].project == changed[j].project && changed[i].plan == changed[j].plan)
    {
      assert changed[i].id == rows[i].id && changed[j].id == rows[j].id;
      assert changed[i].project == rows[i].project && changed[j].project == rows[j].project;
      assert changed[i].plan == rows[i].plan && changed[j].plan == rows[j].plan;
    }
  }

  /** A changed table's rows, by the rows they come from. */
  lemma {:induction false} ChangedFrom(rows: seq<Row>, which: Filter, to: Row -> Row)
    ensures forall r :: r in Change(rows, which, to) ==> exists o :: o in rows && r == if which(o) then to(o) else o
    ensures forall o :: o in rows ==> (if which(o) then to(o) else o) in Change(rows, which, to)
  {
    var changed := Change(rows, which, to);
    forall r | r in changed ensures exists o :: o in rows && r == if which(o) then to(o) else o {
      var i :| 0 <= i < |changed| && changed[i] == r;
      assert rows[i] in rows;
    }
    forall o | o in rows ensures (if which(o) then to(o) else o) in changed {
      var i :| 0 <= i < |rows| && rows[i] == o;
      assert changed[i] in changed;
    }
  }

  /** A statement that leaves no row available that was not, and touches no locked row. */
  lemma {:induction false} ChangeKeeps(s: State, which: Filter, to: Row -> Row)
    requires Inv(s) && KeepsKeys(to) && (forall r :: !to(r).status.Available?) && !Any(s.rows, Both(which, Held(s)))
    ensures Inv(s.(rows := Change(s.rows, which, to)))
  {
    ChangeKeepsUnique(s.rows, which, to);
    ChangedFrom(s.rows, which, to);
    var changed := Change(s.rows, which, to);
    forall id | id in s.held ensures exists r :: r in changed && r.id == id && r.status.Available? {
      var o :| o in s.rows && o.id == id && o.status.Available?;
      assert Both(which, Held(s))(o) == which(o);
      assert o in changed;
    }
  }

  lemma {:induction false} LastAppend(trace: seq<Event>, e: Event, id: int)
    ensures Last(trace + [e], id) == if e.id == id then Some(e) else Last(trace, id)
  {
    assert (trace + [e])[..|trace|] == trace;
  }

  lemma {:induction false} LastClaims(trace: seq<Event>, ids: seq<int>, who: int, id: int)
    ensures Last(trace + ClaimEvents(ids, who), id) == if id in ids then Some(Claimed(id, who)) else Last(trace, id)
  {
    if ids == [] {
      assert trace + ClaimEvents(ids, who) == trace;
    } else {
      var init := ids[..|ids|-1];
      LastClaims(trace, init, who, id);
      assert trace + ClaimEvents(ids, who) == trace + ClaimEvents(init, who) + [Claimed(ids[|ids|-1], who)];
      LastAppend(trace + ClaimEvents(init, who), Claimed(ids[|ids|-1], who), id);
      assert ids == init + [ids[|ids|-1]];
    }
  }

  lemma {:induction false} LastCreates(trace: seq<Event>, ids: seq<int>, id: int)
    ensures Last(trace + CreateEvents(ids), id) == if id in ids then Some(Created(id)) else Last(trace, id)
  {
    if ids == [] {
      assert trace + CreateEvents(ids) == trace;
    } else {
      var init := ids[..|ids|-1];
      LastCreates(trace, init, id);
      assert trace + CreateEvents(ids) == trace + CreateEvents(init) + [Created(ids[|ids|-1])];
      LastAppend(trace + CreateEvents(init), Created(ids[|ids|-1]), id);
      assert ids == init + [ids[|ids|-1]];
    }
  }

  ghost predicate Distinct(ids: seq<int>) { forall i, j :: 0 <= i < j < |ids| ==> ids[i] != ids[j] }

  lemma {:induction false} IdsDistinct(rows: seq<Row>, which: Filter)
    requires Unique(rows)
    ensures Distinct(IdsWhere(rows, which))
  {
    if rows != [] {
      var init, last := rows[..|rows|-1], rows[|rows|-1];
      IdsDistinct(init, which);
      var ids := IdsWhere(init, which);
      forall i | 0 <= i < |ids| ensures ids[i] != last.id {
        assert ids[i] in ids;
        var r :| r in init && which(r) && r.id == ids[i];
        var k :| 0 <= k < |init| && init[k] == r;
        assert rows[k] == r;
      }
    }
  }

  lemma {:induction false} ClaimEventsFollow(trace: seq<Event>, ids: seq<int>, who: int)
    requires ClaimsFollowCreations(trace) && Distinct(ids)
    requires forall id :: id in ids ==> Last(trace, id) == Some(Created(id))
    ensures ClaimsFollowCreations(trace + ClaimEvents(ids, who))
  {
    var all := trace + ClaimEvents(ids, who);
    forall i | 0 <= i < |all| && all[i].Claimed? ensures Last(all[..i], all[i].id) == Some(Created(all[i].id)) {
      if i < |trace| {
        assert all[..i] == trace[..i];
      } else {
        var k := i - |trace|;
        assert all[..i] == trace + ClaimEvents(ids[..k], who);
        LastClaims(trace, ids[..k], who, ids[k]);
        assert ids[k] in ids;
      }
    }
  }

  lemma {:induction false} CreateEventsFollow(trace: seq<Event>, ids: seq<int>)
    requires ClaimsFollowCreations(trace)
    ensures ClaimsFollowCreations(trace + CreateEvents(ids))
  {
    var all := trace + CreateEvents(ids);
    forall i | 0 <= i < |all| && all[i].Claimed? ensures Last(all[..i], all[i].id) == Some(Created(all[i].id)) {
      assert i < |trace| && all[..i] == trace[..i];
    }
  }

  lemma {:induction false} NotClaimed(s: State, who: int, r: Row)
    requires !HeldBy(s, who)(r)
    ensures r.id !in IdsWhere(s.rows, HeldBy(s, who))
  {
    assert forall o: Row :: o.id == r.id ==> HeldBy(s, who)(o) == HeldBy(s, who)(r);
  }

  lemma {:induction false} HeldWereCreated(s: State, who: int)
    requires Inv(s)
    ensures forall id :: id in IdsWhere(s.rows, HeldBy(s, who)) ==> Last(s.trace, id) == Some(Created(id))
  {
    forall id | id in IdsWhere(s.rows, HeldBy(s, who)) ensures Last(s.trace, id) == Some(Created(id)) {
      var r :| r in s.rows && HeldBy(s, who)(r) && r.id == id;
      var o :| o in s.rows && o.id == id && o.status.Available?;
    }
  }

  lemma {:induction false} CommitKeepsCreated(s: State, who: int)
    requires Inv(s)
    ensures var s' := Next(s, CommitClaim(who)).value; AvailableIsCreated(s'.rows, s'.trace)
  {
    var s' := Next(s, CommitClaim(who)).value;
    var which := HeldBy(s, who);
    ChangedFrom(s.rows, which, WithStatus(Running));
    forall r | r in s'.rows && r.status.Available? ensures Last(s'.trace, r.id) == Some(Created(r.id)) {
      assert r in s.rows && !which(r);
      LastClaims(s.trace, IdsWhere(s.rows, which), who, r.id);
      NotClaimed(s, who, r);
    }
  }

  lemma {:induction false} CommitKeeps(s: State, who: int)
    requires Inv(s)
    ensures Inv(Next(s, CommitClaim(who)).value)
  {
    var which := HeldBy(s, who);
    ChangeKeepsUnique(s.rows, which, WithStatus(Running));
    HeldWereCreated(s, who);
    IdsDistinct(s.rows, which);
    ClaimEventsFollow(s.trace, IdsWhere(s.rows, which), who);
    CommitKeepsCreated(s, who);
    CommitKeepsHeld(s, who);
  }

  lemma {:induction false} CommitKeepsHeld(s: State, who: int)
    requires Inv(s)
    ensures HeldAvailable(Next(s, CommitClaim(who)).value)
  {
    var s' := Next(s, CommitClaim(who)).value;
    ChangedFrom(s.rows, HeldBy(s, who), WithStatus(Running));
    forall id | id in s'.held ensures exists r :: r in s'.rows && r.id == id && r.status.Available? {
      var o :| o in s.rows && o.id == id && o.status.Available?;
      assert !HeldBy(s, who)(o);
      assert o in s'.rows;
    }
  }

  lemma {:induction false} UpsertKeepsUnique(rows: seq<Row>, project: string, plan: int, id: int, result: string)
    requires Unique(rows)
    ensures Unique(Upsert(rows, project, plan, id, result))
  {
    if Any(rows, OfPlan(project, plan)) {
      ChangeKeepsUnique(rows, OfPlan(project, plan), WithResult(Available, result));
    } else if !Any(rows, WithId(id)) {
      var row := Row(id, project, plan, Available, result);
      forall i | 0 <= i < |rows| ensures rows[i].id != id && !(rows[i].project == project && rows[i].plan == plan) {
        assert rows[i] in rows;
        assert OfPlan(project, plan)(rows[i]) || WithId(id)(rows[i]) ==> false;
      }
    }
  }

  /** Rows of other plans are as they were; every row of this plan is available. */
  lemma {:induction false} UpsertIs(rows: seq<Row>, project: string, plan: int, id: int, result: string)
    requires Any(rows, OfPlan(project, plan)) || !Any(rows, WithId(id))
    ensures var rows' := Upsert(rows, project, plan, id, result);
            && (forall r :: r in rows' && !OfPlan(project, plan)(r) ==> r in rows)
            && (forall r :: r in rows && !OfPlan(project, plan)(r) ==> r in rows')
  {
    ChangedFrom(rows, OfPlan(project, plan), WithResult(Available, result));
    assert KeepsKeys(WithResult(Available, result));
  }

  lemma {:induction false} CreateKeeps(s: State, project: string, plan: int, id: int, result: string)
    requires Inv(s) && Next(s, Create(project, plan, id, result)).Some?
    ensures Inv(Next(s, Create(project, plan, id, result)).value)
  {
    var s' := Next(s, Create(project, plan, id, result)).value;
    var which := OfPlan(project, plan);
    if Any(s.rows, which) || !Any(s.rows, WithId(id)) {
      var rows := Upsert(s.rows, project, plan, id, result);
      var ids := IdsWhere(rows, which);
      UpsertKeepsUnique(s.rows, project, plan, id, result);
      UpsertIs(s.rows, project, plan, id, result);
      CreateEventsFollow(s.trace, ids);
      forall r | r in rows && r.status.Available? ensures Last(s'.trace, r.id) == Some(Created(r.id)) {
        LastCreates(s.trace, ids, r.id);
        assert which(r) ==> r.id in ids;
      }
      forall i | i in s.held ensures exists r :: r in rows && r.id == i && r.status.Available? {
        var o :| o in s.rows && o.id == i && o.status.Available?;
        assert Both(which, Held(s))(o) == which(o);
        assert o in rows;
      }
    }
  }

  lemma {:induction false} LockKeeps(s: State, who: int, id: int)
    requires Inv(s) && Next(s, LockRow(who, id)).Some?
    ensures Inv(Next(s, LockRow(who, id)).value)
  {
    var which: Filter := Lockable(id);
    var r :| r in s.rows && which(r);
  }

  lemma {:induction false} StepKeeps(s: State, a: Action)
    requires Inv(s) && Next(s, a).Some?
    ensures Inv(Next(s, a).value)
  {
    match a
    case Create(project, plan, id, result) => CreateKeeps(s, project, plan, id, result);
    case LockRow(who, id) => LockKeeps(s, who, id);
    case CommitClaim(who) => CommitKeeps(s, who);
    case RollbackClaim(who) =>
    case Update(project, uid, status, result) => ChangeKeeps(s, OfIds(project, {uid}), WithResult(status, result));
    case Cancel(project, uids) => ChangeKeeps(s, OfIds(project, uids), WithStatus(Canceled));
    case FailStale(stale) => ChangeKeeps(s, Stale(stale), WithResult(Failed, TIMED_OUT));
  }

  lemma {:induction false} ExecKeeps(s: State, actions: seq<Action>)
    requires Inv(s) && Exec(s, actions).Some?
    ensures Inv(Exec(s, actions).value)
    decreases |actions|
  {
    if actions != [] {
      StepKeeps(s, actions[0]);
      ExecKeeps(Next(s, actions[0]).value, actions[1..]);
    }
  }

  // ---------------------------------------------------------------- the guarantees

  lemma {:induction false} CreatedBetween(trace: seq<Event>, i: nat, j: nat)
    requires i < j <= |trace| && trace[i].Claimed? && Last(trace[..j], trace[i].id) == Some(Created(trace[i].id))
    ensures exists m :: i < m < j && trace[m] == Created(trace[i].id)
    decreases j
  {
    var t := trace[..j];
    assert t[..j-1] == trace[..j-1];
    assert t[j-1] == trace[j-1];
    if trace[j-1].id != trace[i].id { CreatedBetween(trace, i, j - 1); }
  }

  const START := State([], map[], [])

  /** In every interleaving: a run handed out twice was created anew in between, so that each of
      its available episodes goes to at most one claimer; it was created before it was first
      handed out; and there is at most one row per project and plan. */
  lemma {:induction false} ClaimsAreSeparated(actions: seq<Action>, i: nat, j: nat)
    requires Exec(START, actions).Some?
    ensures var s := Exec(START, actions).value;
      && Unique(s.rows)
      && (i < |s.trace| && s.trace[i].Claimed? ==> Last(s.trace[..i], s.trace[i].id) == Some(Created(s.trace[i].id)))
      && (i < j < |s.trace| && s.trace[i].Claimed? && s.trace[j].Claimed? && s.trace[i].id == s.trace[j].id ==>
            exists m :: i < m < j && s.trace[m] == Created(s.trace[i].id))
  {
    ExecKeeps(START, actions);
    var trace := Exec(START, actions).value.trace;
    if i < j < |trace| && trace[i].Claimed? && trace[j].Claimed? && trace[i].id == trace[j].id {
      CreatedBetween(trace, i, j);
    }
  }

  lemma {:induction false} SameIds(rows: seq<Row>, a: Filter, b: Filter)
    requires forall r :: r in rows ==> a(r) == b(r)
    ensures IdsWhere(rows, a) == IdsWhere(rows, b)
  {
    if rows != [] { SameIds(rows[..|rows|-1], a, b); }
  }

  function Locks(ids: seq<int>, who: int): seq<Action> {
    if ids == [] then [] else Locks(ids[..|ids|-1], who) + [LockRow(who, ids[|ids|-1])]
  }

  function HeldAll(held: map<int, int>, ids: seq<int>, who: int): map<int, int> {
    if ids == [] then held else HeldAll(held, ids[..|ids|-1], who)[ids[|ids|-1] := who]
  }

  lemma {:induction false} HeldAllIs(held: map<int, int>, ids: seq<int>, who: int)
    ensures forall id :: id in HeldAll(held, ids, who) <==> id in held || id in ids
    ensures forall id :: id in HeldAll(held, ids, who) ==>
              HeldAll(held, ids, who)[id] == if id in ids then who else held[id]
  {
    if ids != [] {
      HeldAllIs(held, ids[..|ids|-1], who);
      assert ids == ids[..|ids|-1] + [ids[|ids|-1]];
    }
  }

  lemma {:induction false} ExecAppend(s: State, before: seq<Action>, after: seq<Action>)
    requires Exec(s, before).Some?
    ensures Exec(s, before + after) == Exec(Exec(s, before).value, after)
    decreases |before|
  {
    if before == [] {
      assert before + after == after;
    } else {
      assert (before + after)[1..] == before[1..] + after;
      ExecAppend(Next(s, before[0]).value, before[1..], after);
    }
  }

  lemma {:induction false} ExecOne(s: State, a: Action)
    ensures Exec(s, [a]) == Next(s, a)
  {
    assert [a][1..] == [];
  }

  lemma {:induction false} LocksRun(s: State, ids: seq<int>, who: int)
    requires Distinct(ids) && forall id :: id in ids ==> id !in s.held && Any(s.rows, Lockable(id))
    ensures Exec(s, Locks(ids, who)) == Some(s.(held := HeldAll(s.held, ids, who)))
  {
    if ids != [] {
      var init, last := ids[..|ids|-1], ids[|ids|-1];
      assert ids == init + [last];
      LocksRun(s, init, who);
      HeldAllIs(s.held, init, who);
      var s1 := s.(held := HeldAll(s.held, init, who));
      assert last !in init;
      ExecAppend(s, Locks(init, who), [LockRow(who, last)]);
      ExecOne(s1, LockRow(who, last));
    }
  }

  lemma {:induction false} Claimables(rows: seq<Row>, locked: set<int>)
    requires Unique(rows)
    ensures var ids := IdsWhere(rows, Claimable(locked));
            Distinct(ids) && forall id :: id in ids ==> id !in locked && Any(rows, Lockable(id))
  {
    IdsDistinct(rows, Claimable(locked));
    var ids := IdsWhere(rows, Claimable(locked));
    forall id | id in ids ensures id !in locked && Any(rows, Lockable(id)) {
      var r :| r in rows && Claimable(locked)(r) && r.id == id;
      assert Lockable(id)(r);
    }
  }

  /** The state after the statement that claims every available row not in `locked`. */
  function AfterClaim(s: State, locked: set<int>, who: int): State {
    State(Change(s.rows, Claimable(locked), WithStatus(Running)), s.held,
          s.trace + ClaimEvents(IdsWhere(s.rows, Claimable(locked)), who))
  }

  lemma {:induction false} SameChange(rows: seq<Row>, a: Filter, b: Filter, to: Row -> Row)
    requires forall r :: r in rows ==> a(r) == b(r)
    ensures Change(rows, a, to) == Change(rows, b, to)
  {
    assert forall i :: 0 <= i < |rows| ==> rows[i] in rows;
  }

  lemma {:induction false} HeldIsClaimable(s: State, locked: set<int>, who: int, ids: seq<int>)
    requires Unique(s.rows) && who !in s.held.Values && ids == IdsWhere(s.rows, Claimable(locked))
    ensures forall r :: r in s.rows ==> HeldBy(s.(held := HeldAll(s.held, ids, who)), who)(r) == Claimable(locked)(r)
  {
    HeldAllIs(s.held, ids, who);
    assert forall id :: id in s.held ==> s.held[id] in s.held.Values;
    forall r | r in s.rows ensures r.id in ids <==> Claimable(locked)(r) {
      if r.id in ids {
        var o :| o in s.rows && Claimable(locked)(o) && o.id == r.id;
        SameRow(s.rows, o, r);
      }
    }
  }

  lemma {:induction false} HeldReleased(s: State, who: int, ids: seq<int>)
    requires who !in s.held.Values && forall id :: id in ids ==> id !in s.held
    ensures Release(s.(held := HeldAll(s.held, ids, who)), who) == s.held
  {
    HeldAllIs(s.held, ids, who);
    assert forall id :: id in s.held ==> s.held[id] in s.held.Values;
    var all := HeldAll(s.held, ids, who);
    var mine := set id | id in all && all[id] == who;
    assert forall id :: id in mine <==> id in ids;
    forall id ensures id in all - mine <==> id in s.held {
      assert id in ids ==> id in all && id in mine && id !in s.held;
      assert id !in ids ==> id !in mine;
    }
    forall id | id in s.held ensures (all - mine)[id] == s.held[id] {
      assert id in ids ==> id !in s.held;
      assert id in all && all[id] == s.held[id] && id in all - mine;
    }
    assert all - mine == s.held;
  }

  /** A claim is the one statement: locking every available row not in `locked`, then committing,
      makes exactly these rows running and hands out their ids in table order. */
  lemma {:induction false} ClaimIsItsSteps(s: State, locked: set<int>, who: int)
    requires Inv(s) && s.held.Keys <= locked && who !in s.held.Values
    ensures var ids := IdsWhere(s.rows, Claimable(locked));
            Exec(s, Locks(ids, who) + [CommitClaim(who)]) == Some(AfterClaim(s, locked, who))
  {
    var ids := IdsWhere(s.rows, Claimable(locked));
    Claimables(s.rows, locked);
    LocksRun(s, ids, who);
    var locking := s.(held := HeldAll(s.held, ids, who));
    ExecAppend(s, Locks(ids, who), [CommitClaim(who)]);
    ExecOne(locking, CommitClaim(who));
    HeldIsClaimable(s, locked, who, ids);
    HeldReleased(s, who, ids);
    SameIds(s.rows, HeldBy(locking, who), Claimable(locked));
    SameChange(s.rows, HeldBy(locking, who), Claimable(locked), WithStatus(Running));
  }

  lemma {:induction false} ClaimKeeps(s: State, locked: set<int>, who: int)
    requires Inv(s) && s.held.Keys <= locked && who !in s.held.Values
    ensures Inv(AfterClaim(s, locked, who))
  {
    ClaimIsItsSteps(s, locked, who);
    ExecKeeps(s, Locks(IdsWhere(s.rows, Claimable(locked)), who) + [CommitClaim(who)]);
  }

  /** The statement updates or cancels the run. */
  predicate Touches(a: Action, r: Row) {
    || (a.Update? && a.project == r.project && a.uid == r.id)
    || (a.Cancel? && a.project == r.project && r.id in a.uids)
  }

  predicate Recreates(a: Action, r: Row) { a.Create? && a.project == r.project && a.plan == r.plan }

  /** The run is still of its plan, and available or not. */
  ghost predicate Has(rows: seq<Row>, r: Row, available: bool) {
    exists q :: q in rows && q.id == r.id && q.project == r.project && q.plan == r.plan && q.status.Available? == available
  }

  /** No event from one state to a later one hands the run out. */
  ghost predicate NotHandedOut(s: State, e: State, id: int) {
    forall i :: |s.trace| <= i < |e.trace| ==> !(e.trace[i].Claimed? && e.trace[i].id == id)
  }

  /** A row of a changed table, and whether it is available. */
  lemma {:induction false} HasChanged(rows: seq<Row>, r: Row, available: bool, available': bool, which: Filter, to: Row -> Row)
    requires Has(rows, r, available) && KeepsKeys(to)
    requires forall q :: q in rows && q.id == r.id && q.project == r.project && q.plan == r.plan && q.status.Available? == available ==>
               (if which(q) then to(q) else q).status.Available? == available'
    ensures Has(Change(rows, which, to), r, available')
  {
    ChangedFrom(rows, which, to);
    var q :| q in rows && q.id == r.id && q.project == r.project && q.plan == r.plan && q.status.Available? == available;
    assert (if which(q) then to(q) else q) in Change(rows, which, to);
  }

  lemma {:induction false} HasAfterCreate(s: State, r: Row, available: bool, a: Action)
    requires a.Create? && !Recreates(a, r) && Has(s.rows, r, available) && Next(s, a).Some?
    ensures Has(Next(s, a).value.rows, r, available)
  {
    if Any(s.rows, OfPlan(a.project, a.plan)) || !Any(s.rows, WithId(a.id)) {
      UpsertIs(s.rows, a.project, a.plan, a.id, a.result);
    }
  }

  lemma {:induction false} ClaimedEvent(trace: seq<Event>, ids: seq<int>, who: int, id: int) returns (i: nat)
    requires id in ids
    ensures |trace| <= i < |trace + ClaimEvents(ids, who)| && (trace + ClaimEvents(ids, who))[i] == Claimed(id, who)
  {
    var k :| 0 <= k < |ids| && ids[k] == id;
    i := |trace| + k;
  }

  lemma {:induction false} HeldIsHandedOut(s: State, who: int, id: int)
    requires NotHandedOut(s, Next(s, CommitClaim(who)).value, id)
    ensures id !in IdsWhere(s.rows, HeldBy(s, who))
  {
    if id in IdsWhere(s.rows, HeldBy(s, who)) { var i := ClaimedEvent(s.trace, IdsWhere(s.rows, HeldBy(s, who)), who, id); }
  }

  lemma {:induction false} HasAfterCommit(s: State, r: Row, available: bool, who: int)
    requires Has(s.rows, r, available) && NotHandedOut(s, Next(s, CommitClaim(who)).value, r.id)
    ensures Has(Next(s, CommitClaim(who)).value.rows, r, available)
  {
    HeldIsHandedOut(s, who, r.id);
    HasChanged(s.rows, r, available, available, HeldBy(s, who), WithStatus(Running));
  }

  /** One step on a run: it stays available but for an update or a cancel of it. */
  lemma {:induction false} HasAfterStep(s: State, r: Row, available: bool, a: Action)
    requires Has(s.rows, r, available) && Next(s, a).Some? && !Recreates(a, r) && NotHandedOut(s, Next(s, a).value, r.id)
    ensures Has(Next(s, a).value.rows, r, available && !Touches(a, r))
  {
    match a
    case Create(_, _, _, _) => HasAfterCreate(s, r, available, a);
    case LockRow(_, _) =>
    case CommitClaim(who) => HasAfterCommit(s, r, available, who);
    case RollbackClaim(_) =>
    case Update(_, _, _, _) => HasAfterUpdate(s, r, available, a);
    case Cancel(_, _) => HasAfterCancel(s, r, available, a);
    case FailStale(stale) => HasChanged(s.rows, r, available, available, Stale(stale), WithResult(Failed, TIMED_OUT));
  }

  lemma {:induction false} HasAfterUpdate(s: State, r: Row, available: bool, a: Action)
    requires a.Update? && Has(s.rows, r, available) && Next(s, a).Some?
    ensures Has(Next(s, a).value.rows, r, available && !Touches(a, r))
  {
    HasChanged(s.rows, r, available, available && !Touches(a, r), OfIds(a.project, {a.uid}), WithResult(a.status, a.result));
  }

  lemma {:induction false} HasAfterCancel(s: State, r: Row, available: bool, a: Action)
    requires a.Cancel? && Has(s.rows, r, available) && Next(s, a).Some?
    ensures Has(Next(s, a).value.rows, r, available && !Touches(a, r))
  {
    HasChanged(s.rows, r, available, available && !Touches(a, r), OfIds(a.project, a.uids), WithStatus(Canceled));
  }

  /** An episode may go to nobody: updates do not look at the status, so the late result of an
      earlier claim ends an available run before anyone can claim it. */
  lemma {:induction false} LateResultEndsEpisode(s: State, r: Row, status: Status, result: string, who: int)
    requires Inv(s) && r in s.rows && r.status.Available? && r.id !in s.held && !status.Available? && !status.Running?
    ensures var done := Next(s, Update(r.project, r.id, status, result));
            done.Some? && done.value.trace == s.trace && Next(done.value, LockRow(who, r.id)) == None
  {
    var a := Update(r.project, r.id, status, result);
    assert forall o: Row :: Both(OfIds(r.project, {r.id}), Held(s))(o) ==> o.id == r.id;
    HasAfterStep(s, r, true, a);
    StepKeeps(s, a);
    NotLockable(Next(s, a).value.rows, r);
  }

  lemma {:induction false} NotLockable(rows: seq<Row>, r: Row)
    requires Unique(rows) && Has(rows, r, false)
    ensures !Any(rows, Lockable(r.id))
  {
    var q :| q in rows && q.id == r.id && !q.status.Available?;
    forall o | o in rows ensures !Lockable(r.id)(o) { if o.id == r.id { SameRow(rows, o, q); } }
  }

  lemma {:induction false} TraceGrows(s: State, actions: seq<Action>)
    requires Exec(s, actions).Some?
    ensures s.trace <= Exec(s, actions).value.trace
    decreases |actions|
  {
    if actions != [] { TraceGrows(Next(s, actions[0]).value, actions[1..]); }
  }

  lemma {:induction false} HasAfterRun(s: State, r: Row, available: bool, actions: seq<Action>)
    requires Has(s.rows, r, available) && Exec(s, actions).Some? && NotHandedOut(s, Exec(s, actions).value, r.id)
    requires forall a :: a in actions ==> !Recreates(a, r)
    ensures Has(Exec(s, actions).value.rows, r, available && forall a :: a in actions ==> !Touches(a, r))
    decreases |actions|
  {
    if actions != [] {
      var s', rest := Next(s, actions[0]).value, actions[1..];
      TraceGrows(s', rest);
      assert s.trace <= s'.trace;
      HasAfterStep(s, r, available, actions[0]);
      HasAfterRun(s', r, available && !Touches(actions[0], r), rest);
      assert forall a :: a in actions <==> a == actions[0] || a in rest;
    }
  }

  /** Which episodes are handed out. From when a run is available, over any run of the others that
      neither creates it anew nor hands it out: a claim that finds its row unlocked then hands it
      out exactly when none of them updated or canceled it. */
  lemma {:induction false} HandedOutIff(s: State, r: Row, actions: seq<Action>, locked: set<int>)
    requires Inv(s) && r in s.rows && r.status.Available? && r.id !in locked
    requires Exec(s, actions).Some? && NotHandedOut(s, Exec(s, actions).value, r.id)
    requires forall a :: a in actions ==> !Recreates(a, r)
    ensures r.id in IdsWhere(Exec(s, actions).value.rows, Claimable(locked)) <==> forall a :: a in actions ==> !Touches(a, r)
  {
    var rows := Exec(s, actions).value.rows;
    ExecKeeps(s, actions);
    HasAfterRun(s, r, true, actions);
    var available := forall a :: a in actions ==> !Touches(a, r);
    var q :| q in rows && q.id == r.id && q.status.Available? == available;
    if r.id in IdsWhere(rows, Claimable(locked)) {
      var o :| o in rows && Claimable(locked)(o) && o.id == r.id;
      SameRow(rows, o, q);
    } else {
      assert !Claimable(locked)(q);
    }
  }

  // ---------------------------------------------------------------- the statements as methods

  /** Rows outside `which` are in one table exactly when they are in the other. */
  ghost predicate OthersKept(before: seq<Row>, after: seq<Row>, which: Filter) {
    forall r :: !which(r) ==> (r in before <==> r in after)
  }

  /** Position by position, at most one row differs. */
  ghost predicate AtMostOneDiffers(before: seq<Row>, after: seq<Row>) {
    |before| == |after| && forall i, j :: 0 <= i < j < |before| ==> before[i] == after[i] || before[j] == after[j]
  }

  /** The positions at which two tables differ. */
  function Differing(before: seq<Row>, after: seq<Row>): set<nat>
    requires |before| == |after|
  {
    set i: nat | i < |before| && before[i] != after[i]
  }

  /** What CreatePlanCheckRun leaves of a plan: one available row, with the result, under the id
      it had or else the new one. */
  ghost predicate OneAvailable(before: seq<Row>, after: seq<Row>, project: string, plan: int, id: int, result: string) {
    exists r :: r in after && r.project == project && r.plan == plan && r.status.Available? && r.result == result
                && if Any(before, OfPlan(project, plan))
                   then exists o :: o in before && OfPlan(project, plan)(o) && o.id == r.id
                   else r.id == id
  }

  lemma {:induction false} UpsertMeans(rows: seq<Row>, project: string, plan: int, id: int, result: string)
    requires Unique(rows) && (Any(rows, OfPlan(project, plan)) || !Any(rows, WithId(id)))
    ensures OneAvailable(rows, Upsert(rows, project, plan, id, result), project, plan, id, result)
    ensures OthersKept(rows, Upsert(rows, project, plan, id, result), OfPlan(project, plan))
  {
    UpsertIs(rows, project, plan, id, result);
    if Any(rows, OfPlan(project, plan)) {
      ResetMeans(rows, project, plan, id, result);
    } else {
      assert Row(id, project, plan, Available, result) in Upsert(rows, project, plan, id, result);
    }
  }

  lemma {:induction false} ResetMeans(rows: seq<Row>, project: string, plan: int, id: int, result: string)
    requires Any(rows, OfPlan(project, plan))
    ensures OneAvailable(rows, Change(rows, OfPlan(project, plan), WithResult(Available, result)), project, plan, id, result)
  {
    var which := OfPlan(project, plan);
    var o :| o in rows && which(o);
    ChangedFrom(rows, which, WithResult(Available, result));
    assert WithResult(Available, result)(o) in Change(rows, which, WithResult(Available, result));
  }

  lemma {:induction false} OnlyOneOfIds(rows: seq<Row>, project: string, uid: int, to: Row -> Row)
    requires Unique(rows) && KeepsKeys(to)
    ensures AtMostOneDiffers(rows, Change(rows, OfIds(project, {uid}), to))
    ensures OthersKept(rows, Change(rows, OfIds(project, {uid}), to), OfIds(project, {uid}))
  {
    OthersChangeKept(rows, OfIds(project, {uid}), to);
  }

  lemma {:induction false} OthersChangeKept(rows: seq<Row>, which: Filter, to: Row -> Row)
    requires forall r :: which(r) ==> which(to(r))
    ensures OthersKept(rows, Change(rows, which, to), which)
  {
    ChangedFrom(rows, which, to);
  }

  function Positions(rows: seq<Row>, which: Filter): set<nat> { set i: nat | i < |rows| && which(rows[i]) }

  /** As many ids match as rows do. */
  lemma {:induction false} CountMatching(rows: seq<Row>, which: Filter)
    ensures |IdsWhere(rows, which)| == |Positions(rows, which)|
  {
    if |rows| > 0 {
      var n := |rows| - 1;
      CountMatching(rows[..n], which);
      assert Positions(rows, which) == Positions(rows[..n], which) + (if which(rows[n]) then {n} else {});
    }
  }

  class Table {
    var rows: seq<Row>
    ghost var trace: seq<Event>

    /** The table between statements: no row locked. */
    ghost function View(): State reads this { State(rows, map[], trace) }

    ghost predicate Valid() reads this { Inv(View()) }

    constructor ()
      ensures Valid() && View() == START
    {
      rows, trace := [], [];
    }

    /** CreatePlanCheckRun; `nextID` is what nextProjectID returned. */
    method CreatePlanCheckRun(project: string, plan: int, nextID: int, result: string) returns (ok: bool)
      requires Valid()
      modifies this
      ensures Valid() && Next(old(View()), Create(project, plan, nextID, result)) == Some(View())
      ensures ok <==> (exists r :: r in old(rows) && r.project == project && r.plan == plan) || forall r :: r in old(rows) ==> r.id != nextID
      ensures ok ==> OneAvailable(old(rows), rows, project, plan, nextID, result) && OthersKept(old(rows), rows, OfPlan(project, plan))
      ensures !ok ==> rows == old(rows)
    {
      StepKeeps(View(), Create(project, plan, nextID, result));
      if Any(rows, OfPlan(project, plan)) || !Any(rows, WithId(nextID)) { UpsertMeans(rows, project, plan, nextID, result); }
      if Any(rows, OfPlan(project, plan)) {
        rows := Change(rows, OfPlan(project, plan), WithResult(Available, result));
        ok := true;
      } else {
        if Any(rows, WithId(nextID)) { return false; }
        rows := rows + [Row(nextID, project, plan, Available, result)];
        ok := true;
      }
      trace := trace + CreateEvents(IdsWhere(rows, OfPlan(project, plan)));
    }

    /** ClaimAvailablePlanCheckRuns by `who`; `locked` are the rows other transactions have locked,
        which it skips. */
    method ClaimAvailablePlanCheckRuns(locked: set<int>, ghost who: int) returns (claimed: seq<int>)
      requires Valid()
      modifies this
      ensures Valid() && trace == old(trace) + ClaimEvents(claimed, who)
      ensures Exec(old(View()), Locks(claimed, who) + [CommitClaim(who)]) == Some(View())
      ensures claimed == IdsWhere(old(rows), Claimable(locked))
    {
      claimed := ScanClaimable(rows, locked);
      ClaimIsItsSteps(View(), locked, who);
      ClaimKeeps(View(), locked, who);
      rows := Change(rows, Claimable(locked), WithStatus(Running));
      trace := trace + ClaimEvents(claimed, who);
    }

    /** The loop over the returned rows. */
    static method ScanClaimable(all: seq<Row>, locked: set<int>) returns (claimed: seq<int>)
      ensures claimed == IdsWhere(all, Claimable(locked))
    {
      claimed := [];
      for i := 0 to |all|
        invariant claimed == IdsWhere(all[..i], Claimable(locked))
      {
        assert all[..i+1][..i] == all[..i];
        if Claimable(locked)(all[i]) { claimed := claimed + [all[i].id]; }
      }
      assert all[..|all|] == all;
    }

    /** UpdatePlanCheckRun: whatever the row's status is. */
    method UpdatePlanCheckRun(project: string, status: Status, result: string, uid: int)
      requires Valid()
      modifies this
      ensures !status.Available? ==> Valid()
      ensures !status.Available? && !status.Running? ==> Next(old(View()), Update(project, uid, status, result)) == Some(View())
      ensures AtMostOneDiffers(old(rows), rows) && OthersKept(old(rows), rows, OfIds(project, {uid}))
      ensures forall r :: r in old(rows) && r.project == project && r.id == uid ==> Row(uid, project, r.plan, status, result) in rows
    {
      OnlyOneOfIds(rows, project, uid, WithResult(status, result));
      ChangedFrom(rows, OfIds(project, {uid}), WithResult(status, result));
      if !status.Available? { ChangeKeeps(View(), OfIds(project, {uid}), WithResult(status, result)); }
      rows := Change(rows, OfIds(project, {uid}), WithResult(status, result));
    }

    method BatchCancelPlanCheckRuns(project: string, uids: set<int>)
      requires Valid()
      modifies this
      ensures Valid() && Next(old(View()), Cancel(project, uids)) == Some(View())
      ensures forall r :: r in rows && r.project == project && r.id in uids ==> r.status.Canceled?
      ensures |rows| == |old(rows)| && forall i :: 0 <= i < |rows| ==>
                rows[i] == old(rows)[i] || (old(rows)[i].id in uids && rows[i] == old(rows)[i].(status := Canceled))
      ensures OthersKept(old(rows), rows, OfIds(project, uids))
    {
      StepKeeps(View(), Cancel(project, uids));
      OthersChangeKept(rows, OfIds(project, uids), WithStatus(Canceled));
      rows := Change(rows, OfIds(project, uids), WithStatus(Canceled));
    }

    /** FailStalePlanCheckRuns; `failed` is the number of rows affected. */
    method FailStalePlanCheckRuns(stale: set<int>) returns (failed: nat)
      requires Valid()
      modifies this
      ensures Valid() && Next(old(View()), FailStale(stale)) == Some(View())
      ensures |rows| == |old(rows)| && failed == |Differing(old(rows), rows)|
      ensures forall i :: i in Differing(old(rows), rows) ==>
                old(rows)[i].status.Running? && rows[i] == old(rows)[i].(status := Failed, result := "timed out")
      ensures forall r :: r in rows && r.id in stale ==> !r.status.Running?
    {
      StepKeeps(View(), FailStale(stale));
      CountMatching(rows, Stale(stale));
      failed := |IdsWhere(rows, Stale(stale))|;
      rows := Change(rows, Stale(stale), WithResult(Failed, TIMED_OUT));
      assert Differing(old(rows), rows) == Positions(old(rows), Stale(stale));
    }
  }
}
