/** The rollout driver of action/command/rollout.go: it polls a rollout that a server changes
    underneath it, starts stage after stage and stops at the target; and the stage status of
    action/github/summary.go. */
module RolloutDriver {
  import opened Results
  import opened Walks
  import opened Strings
  import opened ResourceNames

  // ---------------------------------------------------------------- what a poll shows

  datatype Status = Unspecified | NotStarted | Pending | Running | Failed | Canceled | Done | Skipped | Unknown

  datatype Task = Task(name: string, status: Status)

  datatype Stage = Stage(name: string, environment: string, tasks: seq<Task>)

  /** One turn of the inner loop: the context is cancelled, the rollout cannot be read, or it is
      read; `runOk` says whether a request to run tasks would succeed then. */
  datatype Poll = Cancelled | Unreadable | Read(stages: seq<Stage>, runOk: bool)

  predicate Finished(t: Task) { t.status.Done? || t.status.Skipped? }

  predicate AllFinished(tasks: seq<Task>) { forall t :: t in tasks ==> Finished(t) }

  predicate Complete(stage: Stage) { AllFinished(stage.tasks) }

  predicate Has(tasks: seq<Task>, status: Status) { exists t :: t in tasks && t.status == status }

  /** The names of the tasks not started yet, in order. */
  function NotStartedNames(tasks: seq<Task>): (names: seq<string>)
    ensures names != [] <==> exists t :: t in tasks && t.status.NotStarted?
  {
    if tasks == [] then []
    else
      var last := tasks[|tasks|-1];
      assert tasks == tasks[..|tasks|-1] + [last];
      NotStartedNames(tasks[..|tasks|-1]) + (if last.status.NotStarted? then [last.name] else [])
  }

  // ---------------------------------------------------------------- the driver as a function

  datatype Outcome =
    | NoTarget | FirstReadFailed | NoStages | TargetNotFound
    | ContextCancelled | ReadFailed | OutOfBounds | FoundFailed | FoundCanceled | RunFailed
    | TargetDone | AllStagesDone
    | StillPolling
  {
    /** waitForRollout returns without an error. */
    predicate Success() { NoTarget? || NoStages? || TargetNotFound? || TargetDone? || AllStagesDone? }
  }

  /** A request, at a poll, to run tasks of the stage with an index. */
  datatype Call = Call(poll: nat, stage: nat, parent: string, tasks: seq<string>)

  /** How a run ends, the requests it makes, and the poll at which it saw each stage complete. */
  datatype Run = Run(outcome: Outcome, calls: seq<Call>, completed: seq<nat>)

  datatype Decision = Stop(outcome: Outcome) | Completed(target: bool) | Wait(tasks: seq<string>)

  function Decide(target: string, i: nat, poll: Poll): Decision {
    match poll
    case Cancelled => Stop(ContextCancelled)
    case Unreadable => Stop(ReadFailed)
    case Read(stages, _) =>
      if i >= |stages| then Stop(OutOfBounds)
      else if Has(stages[i].tasks, Failed) then Stop(FoundFailed)
      else if Has(stages[i].tasks, Canceled) then Stop(FoundCanceled)
      else if Complete(stages[i]) then Completed(stages[i].environment == target)
      else Wait(NotStartedNames(stages[i].tasks))
  }

  /** From poll `k` on, at stage `i` of `n`. */
  function Drive(target: string, n: nat, polls: seq<Poll>, i: nat, k: nat): Run
    requires k <= |polls|
    decreases |polls| - k
  {
    if i >= n then Run(AllStagesDone, [], [])
    else if k == |polls| then Run(StillPolling, [], [])
    else
      match Decide(target, i, polls[k])
      case Stop(outcome) => Run(outcome, [], [])
      case Completed(last) =>
        if last then Run(TargetDone, [], [k])
        else var r := Drive(target, n, polls, i + 1, k + 1); r.(completed := [k] + r.completed)
      case Wait(tasks) =>
        if tasks == [] then Drive(target, n, polls, i, k + 1)
        else
          var call := Call(k, i, polls[k].stages[i].name, tasks);
          if !polls[k].runOk then Run(RunFailed, [call], [])
          else var r := Drive(target, n, polls, i, k + 1); r.(calls := [call] + r.calls)
  }

  predicate HasEnvironment(stages: seq<Stage>, environment: string) {
    exists stage :: stage in stages && stage.environment == environment
  }

  function WholeRun(target: string, first: Result<seq<Stage>>, polls: seq<Poll>): Run {
    if target == "" then Run(NoTarget, [], [])
    else if first.Error? then Run(FirstReadFailed, [], [])
    else if first.value == [] then Run(NoStages, [], [])
    else if !HasEnvironment(first.value, target) then Run(TargetNotFound, [], [])
    else Drive(target, |first.value|, polls, 0, 0)
  }

  // ---------------------------------------------------------------- the driver as written

  lemma {:induction false} OneMoreTask(tasks: seq<Task>, j: nat)
    requires j < |tasks|
    ensures AllFinished(tasks[..j+1]) <==> AllFinished(tasks[..j]) && Finished(tasks[j])
    ensures forall s :: Has(tasks[..j+1], s) <==> Has(tasks[..j], s) || tasks[j].status == s
    ensures NotStartedNames(tasks[..j+1]) ==
            NotStartedNames(tasks[..j]) + if tasks[j].status.NotStarted? then [tasks[j].name] else []
  {
    assert tasks[..j+1] == tasks[..j] + [tasks[j]] && tasks[..j+1][..j] == tasks[..j];
    forall s ensures Has(tasks[..j+1], s) <==> Has(tasks[..j], s) || tasks[j].status == s {
      if tasks[j].status == s { assert tasks[j] in tasks[..j+1]; }
    }
  }

  /** What the scan finds: whether all are done or skipped, whether one failed or was canceled, and
      the names of those not started. */
  datatype Scan = Scan(done: bool, foundFailed: bool, foundCanceled: bool, notStarted: seq<string>)
  {
    function Add(t: Task): Scan {
      Scan(done && Finished(t), foundFailed || t.status.Failed?, foundCanceled || t.status.Canceled?,
           if t.status.NotStarted? then notStarted + [t.name] else notStarted)
    }
  }

  function ScanOf(tasks: seq<Task>): Scan {
    if tasks == [] then Scan(true, false, false, []) else ScanOf(tasks[..|tasks|-1]).Add(tasks[|tasks|-1])
  }

  lemma {:induction false} ScanOfIs(tasks: seq<Task>)
    ensures ScanOf(tasks) == Scan(AllFinished(tasks), Has(tasks, Failed), Has(tasks, Canceled), NotStartedNames(tasks))
  {
    if tasks != [] {
      var j := |tasks| - 1;
      ScanOfIs(tasks[..j]);
      OneMoreTask(tasks, j);
      assert tasks[..j+1] == tasks;
    }
  }

  /** The scan over a stage's tasks. */
  method CheckTasks(tasks: seq<Task>) returns (done: bool, foundFailed: bool, foundCanceled: bool, notStarted: seq<string>)
    ensures done == AllFinished(tasks)
    ensures foundFailed == Has(tasks, Failed)
    ensures foundCanceled == Has(tasks, Canceled)
    ensures notStarted == NotStartedNames(tasks)
  {
    done, foundFailed, foundCanceled, notStarted := true, false, false, [];
    for j := 0 to |tasks|
      invariant Scan(done, foundFailed, foundCanceled, notStarted) == ScanOf(tasks[..j])
    {
      var task := tasks[j];
      assert tasks[..j+1][..j] == tasks[..j];
      match task.status {
        case NotStarted =>
          notStarted := notStarted + [task.name];
          done := false;
        case Failed =>
          foundFailed := true;
          done := false;
        case Canceled =>
          foundCanceled := true;
          done := false;
        case Done =>
        case Skipped =>
        case _ =>
          done := false;
      }
    }
    assert tasks[..|tasks|] == tasks;
    ScanOfIs(tasks);
  }

  /** One poll of stage `i`. */
  method CheckStage(target: string, i: nat, poll: Poll) returns (d: Decision)
    ensures d == Decide(target, i, poll)
  {
    if poll.Cancelled? { return Stop(ContextCancelled); }
    if poll.Unreadable? { return Stop(ReadFailed); }
    if i >= |poll.stages| { return Stop(OutOfBounds); }
    var stage := poll.stages[i];
    var done, foundFailed, foundCanceled, notStarted := CheckTasks(stage.tasks);
    if foundFailed { return Stop(FoundFailed); }
    if foundCanceled { return Stop(FoundCanceled); }
    if done { return Completed(target == stage.environment); }
    return Wait(notStarted);
  }

  /** What the deferred function finds when the driver returns: whether the context is cancelled by
      then, the task runs it lists, and for which parents a request to cancel fails. */
  datatype Ending = Ending(cancelled: bool, list: Result<seq<TaskRun>>, fails: string -> bool)

  /** The context is cancelled for good: a poll that saw it cancelled leaves it so. */
  predicate CancelledAtEnd(run: Run, end: Ending) {
    !run.outcome.StillPolling? && (run.outcome.ContextCancelled? || end.cancelled)
  }

  /** waitForRollout: the run, and the requests to cancel that it leaves behind. */
  method WaitForRollout(target: string, first: Result<seq<Stage>>, polls: seq<Poll>, end: Ending)
    returns (run: Run, ghost order: seq<string>, requests: seq<Request>)
    ensures run == WholeRun(target, first, polls)
    ensures target != "" && run.outcome != StillPolling && (run.outcome == ContextCancelled || end.cancelled) && end.list.Ok? ==>
              CancelsAll(end.list.value, order, requests)
    ensures target == "" || run.outcome == StillPolling || (run.outcome != ContextCancelled && !end.cancelled) || end.list.Error? ==>
              requests == []
  {
    order, requests := [], [];
    if target == "" { return Run(NoTarget, [], []), [], []; }
    run := FollowRollout(target, first, polls);
    if CancelledAtEnd(run, end) {
      var asked, errors, ok;
      asked, requests, errors, ok := CancelRollout(end.list, end.fails);
      order := asked;
    }
  }

  /** Its body behind the deferred function. */
  method FollowRollout(target: string, first: Result<seq<Stage>>, polls: seq<Poll>) returns (run: Run)
    requires target != ""
    ensures run == WholeRun(target, first, polls)
  {
    if first.Error? { return Run(FirstReadFailed, [], []); }
    var n := |first.value|;
    if n == 0 { return Run(NoStages, [], []); }
    var targetStageFound := FindEnvironment(first.value, target);
    if !targetStageFound { return Run(TargetNotFound, [], []); }
    run := RunStages(target, n, polls, DriverOf(target, n, polls));
  }

  /** The rest of a run, by stage and poll. */
  type Driver = (nat, nat) -> Run

  function DriverOf(target: string, n: nat, polls: seq<Poll>): Driver {
    (i: nat, k: nat) => if k <= |polls| then Drive(target, n, polls, i, k) else Run(StillPolling, [], [])
  }

  ghost predicate Drives(drive: Driver, target: string, n: nat, polls: seq<Poll>) {
    forall i: nat, k: nat {:trigger Drive(target, n, polls, i, k)} :: k <= |polls| ==> drive(i, k) == Drive(target, n, polls, i, k)
  }

  /** The loop over the stages and, inside it, the polling loop of one stage. */
  method RunStages(target: string, n: nat, polls: seq<Poll>, ghost drive: Driver) returns (run: Run)
    requires Drives(drive, target, n, polls)
    ensures run == drive(0, 0)
  {
    var k, calls: seq<Call>, completed: seq<nat> := 0, [], [];
    for i := 0 to n
      invariant k <= |polls|
      invariant Continues(drive(0, 0), calls, completed, drive(i, k))
    {
      var done := false;
      while !done
        invariant k <= |polls|
        invariant Continues(drive(0, 0), calls, completed, drive(if done then i + 1 else i, k))
        decreases |polls| - k, !done
      {
        Step(drive, calls, completed, target, n, polls, i, k);
        if k == |polls| { return Run(StillPolling, calls, completed); }
        var decision := CheckStage(target, i, polls[k]);
        match decision {
          case Stop(outcome) =>
            return Run(outcome, calls, completed);
          case Completed(last) =>
            completed := completed + [k];
            if last { return Run(TargetDone, calls, completed); }
            done := true;
          case Wait(tasks) =>
            if |tasks| > 0 {
              calls := calls + [Call(k, i, polls[k].stages[i].name, tasks)];
              if !polls[k].runOk { return Run(RunFailed, calls, completed); }
            }
        }
        k := k + 1;
      }
    }
    Step(drive, calls, completed, target, n, polls, n, k);
    return Run(AllStagesDone, calls, completed);
  }

  lemma {:induction false} Step(drive: Driver, calls: seq<Call>, completed: seq<nat>, target: string, n: nat, polls: seq<Poll>, i: nat, k: nat)
    requires Drives(drive, target, n, polls) && k <= |polls| && Continues(drive(0, 0), calls, completed, drive(i, k))
    ensures
      if i >= n then drive(0, 0) == Run(AllStagesDone, calls, completed)
      else if k == |polls| then drive(0, 0) == Run(StillPolling, calls, completed)
      else Goes(drive, calls, completed, target, polls, i, k)
  {
    assert drive(i, k) == Drive(target, n, polls, i, k);
    assert calls + [] == calls && completed + [] == completed;
    if i < n && k < |polls| { StepGoes(drive, calls, completed, target, n, polls, i, k); }
  }

  /** What one poll adds, then the rest of the run. */
  ghost predicate Goes(drive: Driver, calls: seq<Call>, completed: seq<nat>, target: string, polls: seq<Poll>, i: nat, k: nat)
    requires k < |polls|
  {
    match Decide(target, i, polls[k])
    case Stop(outcome) => drive(0, 0) == Run(outcome, calls, completed)
    case Completed(last) =>
      if last then drive(0, 0) == Run(TargetDone, calls, completed + [k])
      else Continues(drive(0, 0), calls, completed + [k], drive(i + 1, k + 1))
    case Wait(tasks) =>
      if tasks == [] then Continues(drive(0, 0), calls, completed, drive(i, k + 1))
      else
        var more := calls + [Call(k, i, polls[k].stages[i].name, tasks)];
        if polls[k].runOk then Continues(drive(0, 0), more, completed, drive(i, k + 1))
        else drive(0, 0) == Run(RunFailed, more, completed)
  }

  lemma {:induction false} StepGoes(drive: Driver, calls: seq<Call>, completed: seq<nat>, target: string, n: nat, polls: seq<Poll>, i: nat, k: nat)
    requires Drives(drive, target, n, polls) && k < |polls| && i < n && Continues(drive(0, 0), calls, completed, drive(i, k))
    ensures Goes(drive, calls, completed, target, polls, i, k)
  {
    assert drive(i, k) == Drive(target, n, polls, i, k);
    match Decide(target, i, polls[k])
    case Stop(outcome) => assert calls + [] == calls && completed + [] == completed;
    case Completed(last) =>
      assert calls + [] == calls;
      var r := Drive(target, n, polls, i + 1, k + 1);
      assert completed + ([k] + r.completed) == completed + [k] + r.completed;
    case Wait(tasks) =>
      var call := Call(k, i, polls[k].stages[i].name, tasks);
      var r := Drive(target, n, polls, i, k + 1);
      assert calls + ([call] + r.calls) == calls + [call] + r.calls;
      assert completed + [] == completed;
  }

  method FindEnvironment(stages: seq<Stage>, environment: string) returns (found: bool)
    ensures found == HasEnvironment(stages, environment)
  {
    for j := 0 to |stages|
      invariant forall stage :: stage in stages[..j] ==> stage.environment != environment
    {
      if stages[j].environment == environment {
        assert stages[j] in stages;
        return true;
      }
    }
    assert stages[..|stages|] == stages;
    return false;
  }

  /** What has been done so far, then the rest of the run, is the whole run. */
  ghost predicate Continues(whole: Run, calls: seq<Call>, completed: seq<nat>, rest: Run) {
    whole == Run(rest.outcome, calls + rest.calls, completed + rest.completed)
  }

  // ---------------------------------------------------------------- what every run keeps

  /** A request names exactly the tasks of one stage seen not started at that poll, in which no
      task was seen failed or canceled. */
  ghost predicate CallOk(polls: seq<Poll>, c: Call) {
    && c.poll < |polls| && polls[c.poll].Read? && c.stage < |polls[c.poll].stages|
    && var stage := polls[c.poll].stages[c.stage];
       && c.parent == stage.name && c.tasks == NotStartedNames(stage.tasks) && c.tasks != []
       && !Has(stage.tasks, Failed) && !Has(stage.tasks, Canceled)
  }

  ghost predicate SeenComplete(polls: seq<Poll>, k: nat, stage: nat) {
    k < |polls| && polls[k].Read? && stage < |polls[k].stages| && Complete(polls[k].stages[stage])
  }

  ghost predicate SeenAs(target: string, polls: seq<Poll>, k: nat, stage: nat, isTarget: bool) {
    SeenComplete(polls, k, stage) && (polls[k].stages[stage].environment == target <==> isTarget)
  }

  /** Stages i, i + 1, ... were seen complete one after the other, from poll k on; only the last
      one of a run that reached its target is the target. */
  ghost predicate CompletedOk(target: string, polls: seq<Poll>, i: nat, k: nat, completed: seq<nat>, reached: bool) {
    && (forall j :: 0 <= j < |completed| ==>
          completed[j] >= k && SeenAs(target, polls, completed[j], i + j, reached && j == |completed| - 1))
    && (forall j, m :: 0 <= j < m < |completed| ==> completed[j] < completed[m])
    && (reached ==> completed != [])
  }

  ghost predicate CallsOk(polls: seq<Poll>, i: nat, k: nat, r: Run) {
    forall c :: c in r.calls ==>
      && CallOk(polls, c) && c.poll >= k && i <= c.stage <= i + |r.completed|
      && (r.outcome.TargetDone? ==> c.stage < i + |r.completed|)
      && forall j :: 0 <= j < c.stage - i ==> r.completed[j] < c.poll
  }

  lemma {:induction false} CompletedStep(target: string, polls: seq<Poll>, i: nat, k: nat, completed: seq<nat>, reached: bool)
    requires CompletedOk(target, polls, i + 1, k + 1, completed, reached)
    requires k < |polls| && Decide(target, i, polls[k]) == Completed(false)
    ensures CompletedOk(target, polls, i, k, [k] + completed, reached)
  {
    var all := [k] + completed;
    forall j | 0 <= j < |all|
      ensures all[j] >= k && SeenAs(target, polls, all[j], i + j, reached && j == |all| - 1)
    {
      if j > 0 { assert SeenAs(target, polls, completed[j-1], i + 1 + (j - 1), reached && j - 1 == |completed| - 1); }
    }
  }

  lemma {:induction false} CompletedLater(target: string, polls: seq<Poll>, i: nat, k: nat, completed: seq<nat>, reached: bool)
    requires CompletedOk(target, polls, i, k + 1, completed, reached)
    ensures CompletedOk(target, polls, i, k, completed, reached)
  {
  }

  /** What a run adds to the rest of it, poll by poll. */
  ghost predicate AddsUp(target: string, polls: seq<Poll>, i: nat, k: nat, r: Run, rest: Run, more: Run)
    requires k < |polls|
  {
    match Decide(target, i, polls[k])
    case Stop(_) => r.calls == [] && r.completed == [] && !r.outcome.TargetDone?
    case Completed(last) => if last then r == Run(TargetDone, [], [k]) else r == Run(more.outcome, more.calls, [k] + more.completed)
    case Wait(tasks) =>
      || r == rest
      || (tasks != [] && r.outcome.RunFailed? && r.completed == [] && r.calls == [Call(k, i, polls[k].stages[i].name, tasks)])
      || (tasks != [] && r == Run(rest.outcome, [Call(k, i, polls[k].stages[i].name, tasks)] + rest.calls, rest.completed))
  }

  lemma {:induction false} DriveAddsUp(target: string, n: nat, polls: seq<Poll>, i: nat, k: nat)
    requires k < |polls| && i < n
    ensures AddsUp(target, polls, i, k, Drive(target, n, polls, i, k), Drive(target, n, polls, i, k + 1), Drive(target, n, polls, i + 1, k + 1))
  {
  }

  lemma {:induction false} CompletedAddsUp(target: string, polls: seq<Poll>, i: nat, k: nat, r: Run, rest: Run, more: Run)
    requires k < |polls| && AddsUp(target, polls, i, k, r, rest, more)
    requires CompletedOk(target, polls, i, k + 1, rest.completed, rest.outcome.TargetDone?)
    requires CompletedOk(target, polls, i + 1, k + 1, more.completed, more.outcome.TargetDone?)
    ensures CompletedOk(target, polls, i, k, r.completed, r.outcome.TargetDone?)
  {
    match Decide(target, i, polls[k])
    case Stop(_) =>
    case Completed(last) =>
      if !last { CompletedStep(target, polls, i, k, more.completed, more.outcome.TargetDone?); }
    case Wait(_) =>
      CompletedLater(target, polls, i, k, rest.completed, rest.outcome.TargetDone?);
  }

  lemma {:induction false} DriveCompletes(target: string, n: nat, polls: seq<Poll>, i: nat, k: nat)
    requires k <= |polls|
    ensures var r := Drive(target, n, polls, i, k);
            CompletedOk(target, polls, i, k, r.completed, r.outcome.TargetDone?)
    decreases |polls| - k
  {
    if i < n && k < |polls| {
      DriveCompletes(target, n, polls, i + 1, k + 1);
      DriveCompletes(target, n, polls, i, k + 1);
      DriveAddsUp(target, n, polls, i, k);
      CompletedAddsUp(target, polls, i, k, Drive(target, n, polls, i, k), Drive(target, n, polls, i, k + 1), Drive(target, n, polls, i + 1, k + 1));
    }
  }

  lemma {:induction false} CallsAddUp(target: string, polls: seq<Poll>, i: nat, k: nat, r: Run, rest: Run, more: Run)
    requires k < |polls| && AddsUp(target, polls, i, k, r, rest, more)
    requires CallsOk(polls, i, k + 1, rest) && CallsOk(polls, i + 1, k + 1, more)
    requires rest.outcome.TargetDone? ==> rest.completed != []
    ensures CallsOk(polls, i, k, r)
  {
    if Decide(target, i, polls[k]) == Completed(false) {
      var completed := [k] + more.completed;
      assert forall j :: 1 <= j < |completed| ==> completed[j] == more.completed[j-1];
    }
  }

  lemma {:induction false} DriveCalls(target: string, n: nat, polls: seq<Poll>, i: nat, k: nat)
    requires k <= |polls|
    ensures CallsOk(polls, i, k, Drive(target, n, polls, i, k))
    decreases |polls| - k
  {
    if i < n && k < |polls| {
      DriveCalls(target, n, polls, i + 1, k + 1);
      DriveCalls(target, n, polls, i, k + 1);
      DriveCompletes(target, n, polls, i, k + 1);
      DriveAddsUp(target, n, polls, i, k);
      CallsAddUp(target, polls, i, k, Drive(target, n, polls, i, k), Drive(target, n, polls, i, k + 1), Drive(target, n, polls, i + 1, k + 1));
    }
  }

  // ---------------------------------------------------------------- what the driver does at each poll

  predicate AllDone(stage: Stage) { forall t :: t in stage.tasks ==> t.status == Done || t.status == Skipped }

  predicate Shows(stage: Stage, status: Status) { exists t :: t in stage.tasks && t.status == status }

  /** After this poll of stage `i` the driver polls again: nothing failed or was canceled, the target
      is not done, and a request, if there is something to start, succeeds. */
  ghost predicate GoesOn(target: string, poll: Poll, i: nat) {
    && poll.Read? && i < |poll.stages|
    && var stage := poll.stages[i];
       && !Shows(stage, Failed) && !Shows(stage, Canceled)
       && (AllDone(stage) ==> stage.environment != target) && (Shows(stage, NotStarted) ==> poll.runOk)
  }

  /** By the polls alone: from stage `i` at poll `k` the driver gets to stage `j` at poll `q`. */
  ghost predicate Reaches(target: string, n: nat, polls: seq<Poll>, i: nat, k: nat, j: nat, q: nat)
    decreases q - k
  {
    && k <= q <= |polls|
    && if k == q then i == j
       else
         && i < n && GoesOn(target, polls[k], i)
         && Reaches(target, n, polls, if AllDone(polls[k].stages[i]) then i + 1 else i, k + 1, j, q)
  }

  /** The poll asks for the request: its stage has tasks not started, these are the ones named, and
      none failed or was canceled. */
  ghost predicate Asks(polls: seq<Poll>, c: Call) {
    && c.poll < |polls| && polls[c.poll].Read? && c.stage < |polls[c.poll].stages|
    && var stage := polls[c.poll].stages[c.stage];
       && Shows(stage, NotStarted) && !Shows(stage, Failed) && !Shows(stage, Canceled)
       && c.parent == stage.name && c.tasks == NotStartedNames(stage.tasks)
  }

  /** The positions of the tasks not started, in order, and their names. */
  ghost predicate NamesAt(tasks: seq<Task>, names: seq<string>, at: seq<nat>) {
    && |at| == |names|
    && (forall m :: 0 <= m < |at| ==> at[m] < |tasks| && tasks[at[m]].status == NotStarted && names[m] == tasks[at[m]].name)
    && (forall m, m' :: 0 <= m < m' < |at| ==> at[m] < at[m'])
    && (forall p :: 0 <= p < |tasks| && tasks[p].status == NotStarted ==> p in at)
  }

  /** The names not started are those of all tasks that are not, in order. */
  lemma {:induction false} NotStartedNamesAre(tasks: seq<Task>) returns (at: seq<nat>)
    ensures NamesAt(tasks, NotStartedNames(tasks), at)
  {
    at := [];
    if tasks != [] {
      var n := |tasks| - 1;
      at := NotStartedNamesAre(tasks[..n]);
      OneMoreName(tasks[..n], tasks[n], NotStartedNames(tasks[..n]), at);
      assert tasks == tasks[..n] + [tasks[n]];
      if tasks[n].status == NotStarted { at := at + [n]; }
    }
  }

  lemma {:induction false} OneMoreName(tasks: seq<Task>, t: Task, names: seq<string>, at: seq<nat>)
    requires NamesAt(tasks, names, at)
    ensures t.status == NotStarted ==> NamesAt(tasks + [t], names + [t.name], at + [|tasks|])
    ensures t.status != NotStarted ==> NamesAt(tasks + [t], names, at)
  {
    if t.status == NotStarted {
      var at' := at + [|tasks|];
      forall p | 0 <= p <= |tasks| && (tasks + [t])[p].status == NotStarted ensures p in at' {
        if p < |tasks| { assert p in at; } else { assert at'[|at|] == p; }
      }
    }
  }

  lemma {:induction false} StagesAsSeen(stage: Stage)
    ensures Complete(stage) <==> AllDone(stage)
    ensures forall s :: Has(stage.tasks, s) <==> Shows(stage, s)
    ensures Shows(stage, NotStarted) <==> NotStartedNames(stage.tasks) != []
    ensures AllDone(stage) ==> !Shows(stage, NotStarted) && !Shows(stage, Failed) && !Shows(stage, Canceled)
  {
  }

  /** One poll, by what it shows. */
  lemma {:induction false} DecideIs(target: string, i: nat, poll: Poll)
    requires poll.Read? && i < |poll.stages|
    ensures var stage, d := poll.stages[i], Decide(target, i, poll);
            && (Shows(stage, Failed) ==> d == Stop(FoundFailed))
            && (!Shows(stage, Failed) && Shows(stage, Canceled) ==> d == Stop(FoundCanceled))
            && (AllDone(stage) ==> d == Completed(stage.environment == target))
            && (!Shows(stage, Failed) && !Shows(stage, Canceled) && !AllDone(stage) ==> d == Wait(NotStartedNames(stage.tasks)))
            && (Shows(stage, NotStarted) <==> NotStartedNames(stage.tasks) != [])
  {
    StagesAsSeen(poll.stages[i]);
  }

  /** How a run ends that gets to stage `j` at poll `q` and does not go on. */
  ghost predicate EndsAt(target: string, n: nat, polls: seq<Poll>, j: nat, q: nat, outcome: Outcome)
    requires q <= |polls|
  {
    if j >= n then outcome == AllStagesDone
    else if q == |polls| then outcome == StillPolling
    else
      match polls[q]
      case Cancelled => outcome == ContextCancelled
      case Unreadable => outcome == ReadFailed
      case Read(stages, runOk) =>
        if j >= |stages| then outcome == OutOfBounds
        else
          && (outcome == FoundFailed <==> Shows(stages[j], Failed))
          && (outcome == FoundCanceled <==> !Shows(stages[j], Failed) && Shows(stages[j], Canceled))
          && (outcome == TargetDone <==> AllDone(stages[j]) && stages[j].environment == target)
          && (outcome == RunFailed <==> !Shows(stages[j], Failed) && !Shows(stages[j], Canceled) && Shows(stages[j], NotStarted) && !runOk)
  }

  function AsksAt(polls: seq<Poll>, i: nat, k: nat): seq<Call>
    requires k < |polls|
  {
    if polls[k].Read? && i < |polls[k].stages| && !Shows(polls[k].stages[i], Failed) && !Shows(polls[k].stages[i], Canceled)
       && Shows(polls[k].stages[i], NotStarted)
    then [Call(k, i, polls[k].stages[i].name, NotStartedNames(polls[k].stages[i].tasks))] else []
  }

  function DoneAt(polls: seq<Poll>, i: nat, k: nat): seq<nat>
    requires k < |polls|
  {
    if polls[k].Read? && i < |polls[k].stages| && AllDone(polls[k].stages[i]) then [k] else []
  }

  /** The stage after this poll, for a driver that goes on. */
  function After(polls: seq<Poll>, i: nat, k: nat): nat
    requires k < |polls|
  {
    if polls[k].Read? && i < |polls[k].stages| && AllDone(polls[k].stages[i]) then i + 1 else i
  }

  /** What one poll adds, and whether the driver goes on. */
  ghost predicate StepOf(drive: Driver, target: string, n: nat, polls: seq<Poll>, i: nat, k: nat)
    requires k <= |polls|
  {
    var r := drive(i, k);
    if i >= n || k == |polls| then r.calls == [] && r.completed == [] && EndsAt(target, n, polls, i, k, r.outcome)
    else if GoesOn(target, polls[k], i) then
      var rest := drive(After(polls, i, k), k + 1);
      r == Run(rest.outcome, AsksAt(polls, i, k) + rest.calls, DoneAt(polls, i, k) + rest.completed)
    else r.calls == AsksAt(polls, i, k) && r.completed == DoneAt(polls, i, k) && EndsAt(target, n, polls, i, k, r.outcome)
  }

  ghost predicate Steps(drive: Driver, target: string, n: nat, polls: seq<Poll>) {
    forall i: nat, k: nat :: k <= |polls| ==> StepOf(drive, target, n, polls, i, k)
  }

  lemma {:induction false} DriveSteps(target: string, n: nat, polls: seq<Poll>)
    ensures Steps(DriverOf(target, n, polls), target, n, polls)
  {
    forall i: nat, k: nat | k <= |polls| ensures StepOf(DriverOf(target, n, polls), target, n, polls, i, k) {
      if k < |polls| && polls[k].Read? && i < |polls[k].stages| {
        DecideIs(target, i, polls[k]);
        StagesAsSeen(polls[k].stages[i]);
      }
    }
  }

  lemma {:induction false} CallAmong(drive: Driver, target: string, n: nat, polls: seq<Poll>, i: nat, k: nat, c: Call)
    requires Steps(drive, target, n, polls) && k <= |polls|
    ensures c in drive(i, k).calls <==> Reaches(target, n, polls, i, k, c.stage, c.poll) && c.stage < n && Asks(polls, c)
    decreases |polls| - k
  {
    assert StepOf(drive, target, n, polls, i, k);
    if i < n && k < |polls| && GoesOn(target, polls[k], i) { CallAmong(drive, target, n, polls, After(polls, i, k), k + 1, c); }
  }

  lemma {:induction false} CompletedAmong(drive: Driver, target: string, n: nat, polls: seq<Poll>, i: nat, k: nat, m: nat, q: nat)
    requires Steps(drive, target, n, polls) && k <= |polls|
    ensures m < |drive(i, k).completed| && drive(i, k).completed[m] == q <==>
            Reaches(target, n, polls, i, k, i + m, q) && i + m < n && q < |polls| && DoneAt(polls, i + m, q) != []
    decreases |polls| - k
  {
    assert StepOf(drive, target, n, polls, i, k);
    if i < n && k < |polls| && GoesOn(target, polls[k], i) {
      if !AllDone(polls[k].stages[i]) {
        CompletedAmong(drive, target, n, polls, i, k + 1, m, q);
      } else if m > 0 {
        CompletedAmong(drive, target, n, polls, i + 1, k + 1, m - 1, q);
      } else {
        ReachesForward(target, n, polls, i + 1, k + 1, i, q);
      }
    }
  }

  /** The driver never goes back. */
  lemma {:induction false} ReachesForward(target: string, n: nat, polls: seq<Poll>, i: nat, k: nat, j: nat, q: nat)
    ensures Reaches(target, n, polls, i, k, j, q) ==> i <= j
    decreases q - k
  {
    if k < q <= |polls| && i < n && GoesOn(target, polls[k], i) {
      ReachesForward(target, n, polls, After(polls, i, k), k + 1, j, q);
    }
  }

  lemma {:induction false} EndAmong(drive: Driver, target: string, n: nat, polls: seq<Poll>, i: nat, k: nat, j: nat, q: nat)
    requires Steps(drive, target, n, polls)
    requires Reaches(target, n, polls, i, k, j, q) && (j < n && q < |polls| ==> !GoesOn(target, polls[q], j))
    ensures var run := drive(i, k);
            && EndsAt(target, n, polls, j, q, run.outcome)
            && (forall c :: c in run.calls ==> c.poll <= q) && (forall p :: p in run.completed ==> p <= q)
    decreases q - k
  {
    assert StepOf(drive, target, n, polls, i, k);
    if k < q { EndAmong(drive, target, n, polls, After(polls, i, k), k + 1, j, q); }
  }

  /** A request is made exactly where the polls ask for it: the driver gets to the stage, and sees
      tasks not started and none failed or canceled. */
  lemma {:induction false} RequestIff(target: string, first: seq<Stage>, polls: seq<Poll>, c: Call)
    requires target != "" && HasEnvironment(first, target)
    ensures c in WholeRun(target, Ok(first), polls).calls <==>
            Reaches(target, |first|, polls, 0, 0, c.stage, c.poll) && c.stage < |first| && Asks(polls, c)
  {
    DriveSteps(target, |first|, polls);
    CallAmong(DriverOf(target, |first|, polls), target, |first|, polls, 0, 0, c);
  }

  /** The m-th stage is seen complete at a poll exactly where the driver gets to it there and all its
      tasks are done or skipped. */
  lemma {:induction false} CompletedIff(target: string, first: seq<Stage>, polls: seq<Poll>, m: nat, q: nat)
    requires target != "" && HasEnvironment(first, target)
    ensures var completed := WholeRun(target, Ok(first), polls).completed;
            m < |completed| && completed[m] == q <==>
            && Reaches(target, |first|, polls, 0, 0, m, q) && m < |first| && q < |polls| && polls[q].Read? && m < |polls[q].stages|
            && forall t :: t in polls[q].stages[m].tasks ==> t.status == Done || t.status == Skipped
  {
    DriveSteps(target, |first|, polls);
    CompletedAmong(DriverOf(target, |first|, polls), target, |first|, polls, 0, 0, m, q);
  }

  /** The run ends where the polls first give no reason to go on, with the outcome that they show
      there; nothing is asked for or completed after it. */
  lemma {:induction false} EndIs(target: string, first: seq<Stage>, polls: seq<Poll>, j: nat, q: nat)
    requires target != "" && HasEnvironment(first, target)
    requires Reaches(target, |first|, polls, 0, 0, j, q) && (j < |first| && q < |polls| ==> !GoesOn(target, polls[q], j))
    ensures var run := WholeRun(target, Ok(first), polls);
            && EndsAt(target, |first|, polls, j, q, run.outcome)
            && (forall c :: c in run.calls ==> c.poll <= q) && (forall p :: p in run.completed ==> p <= q)
  {
    DriveSteps(target, |first|, polls);
    EndAmong(DriverOf(target, |first|, polls), target, |first|, polls, 0, 0, j, q);
  }

  /** Before the first poll: there is something to drive exactly when a target is given, the rollout
      can be read, and one of its stages is the target's; nothing is asked for otherwise. */
  lemma {:induction false} NothingToDrive(target: string, first: Result<seq<Stage>>, polls: seq<Poll>)
    ensures var run := WholeRun(target, first, polls);
            if target == "" then run == Run(NoTarget, [], [])
            else if first.Error? then run == Run(FirstReadFailed, [], [])
            else if first.value == [] then run == Run(NoStages, [], [])
            else if forall stage :: stage in first.value ==> stage.environment != target then run == Run(TargetNotFound, [], [])
            else run.outcome !in {NoTarget, FirstReadFailed, NoStages, TargetNotFound}
  {
    if target != "" && first.Ok? && HasEnvironment(first.value, target) { DriveEnds(target, |first.value|, polls, 0, 0); }
  }

  /** Every run ends at some poll and stage, so these are all of them. */
  lemma {:induction false} RunEnds(target: string, n: nat, polls: seq<Poll>, i: nat, k: nat) returns (j: nat, q: nat)
    requires k <= |polls|
    ensures Reaches(target, n, polls, i, k, j, q) && (j < n && q < |polls| ==> !GoesOn(target, polls[q], j))
    decreases |polls| - k
  {
    j, q := i, k;
    if i < n && k < |polls| && GoesOn(target, polls[k], i) {
      j, q := RunEnds(target, n, polls, After(polls, i, k), k + 1);
    }
  }

  // ---------------------------------------------------------------- on a well-behaved server

  /** The stage list is stable: every read shows stages for the environments of the first one. */
  ghost predicate Stable(first: seq<Stage>, polls: seq<Poll>) {
    forall k :: 0 <= k < |polls| && polls[k].Read? ==> SameStages(first, polls[k].stages)
  }

  ghost predicate SameStages(first: seq<Stage>, stages: seq<Stage>) {
    |first| == |stages| && forall j :: 0 <= j < |first| ==> first[j].environment == stages[j].environment
  }

  /** The server keeps a stage's tasks, and a task done or skipped stays so. */
  ghost predicate Absorbing(polls: seq<Poll>) {
    forall p, q :: 0 <= p < q < |polls| && polls[p].Read? && polls[q].Read? ==> Later(polls[p].stages, polls[q].stages)
  }

  ghost predicate Later(before: seq<Stage>, after: seq<Stage>) {
    |before| == |after| && forall j :: 0 <= j < |before| ==> LaterTasks(before[j].tasks, after[j].tasks)
  }

  ghost predicate LaterTasks(before: seq<Task>, after: seq<Task>) {
    |before| == |after| && forall m :: 0 <= m < |before| ==> Finished(before[m]) ==> Finished(after[m])
  }

  lemma {:induction false} CompleteStays(polls: seq<Poll>, p: nat, q: nat, j: nat)
    requires Absorbing(polls) && p <= q < |polls| && polls[q].Read? && SeenComplete(polls, p, j)
    ensures SeenComplete(polls, q, j)
  {
    if p < q {
      var before, after := polls[p].stages[j].tasks, polls[q].stages[j].tasks;
      assert LaterTasks(before, after);
      forall t | t in after ensures Finished(t) {
        var m :| 0 <= m < |after| && after[m] == t;
        assert before[m] in before;
      }
    }
  }

  /** The index of the first stage for the target environment. */
  function FirstTarget(first: seq<Stage>, target: string): (t: nat)
    requires HasEnvironment(first, target)
    ensures t < |first| && first[t].environment == target && forall j :: 0 <= j < t ==> first[j].environment != target
  {
    if first[0].environment == target then 0
    else
      assert forall stage :: stage in first ==> stage == first[0] || stage in first[1..];
      1 + FirstTarget(first[1..], target)
  }

  lemma {:induction false} SeenInFirst(first: seq<Stage>, polls: seq<Poll>, k: nat, j: nat)
    requires Stable(first, polls) && SeenComplete(polls, k, j)
    ensures j < |first| && polls[k].stages[j].environment == first[j].environment
  {
    assert SameStages(first, polls[k].stages);
  }

  /** Stages the driver has left behind come before the target. */
  lemma {:induction false} CompletedBelowTarget(target: string, first: seq<Stage>, polls: seq<Poll>, completed: seq<nat>, reached: bool)
    requires Stable(first, polls) && HasEnvironment(first, target) && CompletedOk(target, polls, 0, 0, completed, reached)
    ensures |completed| <= FirstTarget(first, target) + 1
    ensures |completed| == FirstTarget(first, target) + 1 <==> reached
  {
    var t := FirstTarget(first, target);
    if t < |completed| { SeenInFirst(first, polls, completed[t], t); }
    if reached { SeenInFirst(first, polls, completed[|completed|-1], |completed| - 1); }
  }

  /** On a server with a stable stage list where done and skipped tasks stay so: a request to run
      tasks of a stage is made only while every earlier stage is complete, and never past the
      first target stage. */
  lemma {:induction false} RunsInOrder(target: string, first: seq<Stage>, polls: seq<Poll>, c: Call)
    requires Stable(first, polls) && Absorbing(polls)
    requires c in WholeRun(target, Ok(first), polls).calls
    ensures CallOk(polls, c) && HasEnvironment(first, target) && c.stage <= FirstTarget(first, target)
    ensures forall j :: 0 <= j < c.stage ==> SeenComplete(polls, c.poll, j)
  {
    var r := Drive(target, |first|, polls, 0, 0);
    DriveCompletes(target, |first|, polls, 0, 0);
    DriveCalls(target, |first|, polls, 0, 0);
    InOrder(target, first, polls, r, c);
  }

  lemma {:induction false} InOrder(target: string, first: seq<Stage>, polls: seq<Poll>, r: Run, c: Call)
    requires Stable(first, polls) && Absorbing(polls) && HasEnvironment(first, target) && c in r.calls
    requires CompletedOk(target, polls, 0, 0, r.completed, r.outcome.TargetDone?) && CallsOk(polls, 0, 0, r)
    ensures CallOk(polls, c) && c.stage <= FirstTarget(first, target)
    ensures forall j :: 0 <= j < c.stage ==> SeenComplete(polls, c.poll, j)
  {
    CompletedBelowTarget(target, first, polls, r.completed, r.outcome.TargetDone?);
    forall j | 0 <= j < c.stage ensures SeenComplete(polls, c.poll, j) {
      assert SeenComplete(polls, r.completed[j], 0 + j);
      CompleteStays(polls, r.completed[j], c.poll, j);
    }
  }

  lemma {:induction false} DriveEnds(target: string, n: nat, polls: seq<Poll>, i: nat, k: nat)
    requires k <= |polls| && i <= n
    ensures Drive(target, n, polls, i, k).outcome.AllStagesDone? ==> |Drive(target, n, polls, i, k).completed| == n - i
    ensures Drive(target, n, polls, i, k).outcome !in {NoTarget, FirstReadFailed, NoStages, TargetNotFound}
    ensures (forall q :: k <= q < |polls| && polls[q].Read? ==> |polls[q].stages| == n) ==>
              !Drive(target, n, polls, i, k).outcome.OutOfBounds?
    decreases |polls| - k
  {
    if i < n && k < |polls| {
      match Decide(target, i, polls[k])
      case Stop(_) =>
      case Completed(last) => if !last { DriveEnds(target, n, polls, i + 1, k + 1); }
      case Wait(_) => DriveEnds(target, n, polls, i, k + 1);
    }
  }

  /** On such a server, for a rollout that has the target stage: the driver returns without error
      only when every stage up to the first target stage is complete. */
  lemma {:induction false} SuccessMeansComplete(target: string, first: seq<Stage>, polls: seq<Poll>)
    requires target != "" && Stable(first, polls) && Absorbing(polls) && HasEnvironment(first, target)
    requires WholeRun(target, Ok(first), polls).outcome.Success()
    ensures WholeRun(target, Ok(first), polls).outcome == TargetDone
    ensures exists k :: CompleteUpTo(polls, k, FirstTarget(first, target))
  {
    var r, t := Drive(target, |first|, polls, 0, 0), FirstTarget(first, target);
    DriveCompletes(target, |first|, polls, 0, 0);
    DriveEnds(target, |first|, polls, 0, 0);
    CompletedBelowTarget(target, first, polls, r.completed, r.outcome.TargetDone?);
    var k := r.completed[t];
    forall j | 0 <= j <= t ensures SeenComplete(polls, k, j) {
      assert SeenComplete(polls, r.completed[j], 0 + j) && SeenComplete(polls, r.completed[t], 0 + t);
      CompletedSorted(target, polls, r.completed, r.outcome.TargetDone?, j, t);
      CompleteStays(polls, r.completed[j], k, j);
    }
    assert CompleteUpTo(polls, k, t);
  }

  /** At one poll every stage up to `t` is complete. */
  ghost predicate CompleteUpTo(polls: seq<Poll>, k: nat, t: nat) { forall j :: 0 <= j <= t ==> SeenComplete(polls, k, j) }

  lemma {:induction false} CompletedSorted(target: string, polls: seq<Poll>, completed: seq<nat>, reached: bool, i: nat, j: nat)
    requires CompletedOk(target, polls, 0, 0, completed, reached) && i <= j < |completed|
    ensures completed[i] <= completed[j]
    decreases j
  {
    if i < j { CompletedSorted(target, polls, completed, reached, i, j - 1); }
  }

  /** A stable stage list never makes the driver fall off its end. */
  lemma {:induction false} StableNeverOutOfBounds(target: string, first: seq<Stage>, polls: seq<Poll>)
    requires Stable(first, polls)
    ensures !WholeRun(target, Ok(first), polls).outcome.OutOfBounds?
  {
    forall q | 0 <= q < |polls| && polls[q].Read? ensures |polls[q].stages| == |first| {
      assert SameStages(first, polls[q].stages);
    }
    DriveEnds(target, |first|, polls, 0, 0);
  }

  /** Once a poll sees the context cancelled the driver has returned, and has asked for nothing
      since: every request and every completed stage was at an earlier poll. */
  lemma {:induction false} CancelledStops(target: string, n: nat, polls: seq<Poll>, i: nat, k: nat, q: nat)
    requires k <= q < |polls| && polls[q].Cancelled?
    ensures var run := Drive(target, n, polls, i, k);
            && !run.outcome.StillPolling?
            && (forall c :: c in run.calls ==> c.poll < q) && (forall p :: p in run.completed ==> p < q)
    decreases |polls| - k
  {
    if i < n && k < q {
      match Decide(target, i, polls[k])
      case Stop(_) =>
      case Completed(last) => if !last { CancelledStops(target, n, polls, i + 1, k + 1, q); }
      case Wait(_) => CancelledStops(target, n, polls, i, k + 1, q);
    }
  }

  // ---------------------------------------------------------------- the status in the summary

  datatype StageStatus = IsFailed | IsCanceled | IsRunning | IsPending | IsNotStarted | IsDone | IsSkipped

  /** getAggregatedStageStatus. */
  method GetAggregatedStageStatus(tasks: seq<Task>) returns (r: StageStatus)
    ensures r.IsFailed? <==> Has(tasks, Failed)
    ensures r.IsCanceled? <==> !Has(tasks, Failed) && Has(tasks, Canceled)
    ensures r.IsRunning? <==> !Has(tasks, Failed) && !Has(tasks, Canceled) && Has(tasks, Running)
    ensures r.IsDone? || r.IsSkipped? <==> tasks != [] && AllFinished(tasks)
    ensures r.IsSkipped? <==> tasks != [] && AllFinished(tasks) && Has(tasks, Skipped)
    ensures r.IsNotStarted? <==>
      && !Has(tasks, Failed) && !Has(tasks, Canceled) && !Has(tasks, Running) && !Has(tasks, Pending)
      && (Has(tasks, NotStarted) || Has(tasks, Unspecified))
  {
    if |tasks| == 0 { return IsPending; }
    var seen, allDone := ScanStatuses(tasks);
    if seen.failed { return IsFailed; }
    if seen.canceled { return IsCanceled; }
    if seen.running { return IsRunning; }
    if seen.pending { return IsPending; }
    if seen.notStarted { return IsNotStarted; }
    if allDone && !seen.skipped { return IsDone; }
    if allDone && seen.skipped { return IsSkipped; }
    return IsPending;
  }

  datatype Seen = Seen(running: bool, failed: bool, canceled: bool, skipped: bool, pending: bool, notStarted: bool)

  /** The flags say which statuses occur. */
  predicate SeenOf(seen: Seen, occurs: Status -> bool) {
    && seen.running == occurs(Running) && seen.failed == occurs(Failed) && seen.canceled == occurs(Canceled)
    && seen.skipped == occurs(Skipped) && seen.pending == occurs(Pending)
    && seen.notStarted == (occurs(NotStarted) || occurs(Unspecified))
  }

  function Occurs(tasks: seq<Task>): Status -> bool { s => Has(tasks, s) }

  /** The flag that a status raises. */
  function Raise(seen: Seen, status: Status): Seen {
    match status
    case Running => seen.(running := true)
    case Failed => seen.(failed := true)
    case Canceled => seen.(canceled := true)
    case Skipped => seen.(skipped := true)
    case Pending => seen.(pending := true)
    case NotStarted => seen.(notStarted := true)
    case Unspecified => seen.(notStarted := true)
    case Done => seen
    case Unknown => seen
  }

  lemma {:induction false} RaiseSees(seen: Seen, before: Status -> bool, after: Status -> bool, status: Status)
    requires SeenOf(seen, before) && forall s :: after(s) <==> before(s) || s == status
    ensures SeenOf(Raise(seen, status), after)
  {
  }

  /** Its loop over the tasks. */
  method ScanStatuses(tasks: seq<Task>) returns (seen: Seen, allDone: bool)
    ensures SeenOf(seen, Occurs(tasks)) && allDone == AllFinished(tasks)
  {
    seen, allDone := Seen(false, false, false, false, false, false), true;
    for j := 0 to |tasks|
      invariant SeenOf(seen, Occurs(tasks[..j])) && allDone == AllFinished(tasks[..j])
    {
      OneMoreTask(tasks, j);
      RaiseSees(seen, Occurs(tasks[..j]), Occurs(tasks[..j+1]), tasks[j].status);
      seen := Raise(seen, tasks[j].status);
      if !Finished(tasks[j]) { allDone := false; }
    }
    assert tasks[..|tasks|] == tasks;
  }

  // ---------------------------------------------------------------- cancelling

  datatype TaskRun = TaskRun(name: string, status: Status)

  predicate Active(r: TaskRun) { r.status.Running? || r.status.Pending? }

  /** The parent that the name of a task run is cut down to. */
  function StageOf(name: string): string { Split(name, "/tasks")[0] }

  /** The names of the active runs with a parent, in order. */
  function ActiveOf(runs: seq<TaskRun>, stage: string): seq<string> {
    if runs == [] then []
    else
      var last := runs[|runs|-1];
      ActiveOf(runs[..|runs|-1], stage) + (if Active(last) && StageOf(last.name) == stage then [last.name] else [])
  }

  /** The grouping in cancelRollout: each parent is asked to cancel exactly its active runs. */
  method GroupByStage(runs: seq<TaskRun>) returns (groups: map<string, seq<string>>)
    ensures forall stage :: stage in groups <==> ActiveOf(runs, stage) != []
    ensures forall stage :: stage in groups ==> groups[stage] == ActiveOf(runs, stage)
  {
    groups := map[];
    for j := 0 to |runs|
      invariant forall stage :: stage in groups <==> ActiveOf(runs[..j], stage) != []
      invariant forall stage :: stage in groups ==> groups[stage] == ActiveOf(runs[..j], stage)
    {
      assert runs[..j+1][..j] == runs[..j];
      if Active(runs[j]) {
        var stage := StageOf(runs[j].name);
        groups := groups[stage := (if stage in groups then groups[stage] else []) + [runs[j].name]];
      }
    }
    assert runs[..|runs|] == runs;
  }

  /** The names asked of a parent are those of its active runs, and no others. */
  lemma {:induction false} ActiveOfIff(runs: seq<TaskRun>, stage: string, name: string)
    ensures name in ActiveOf(runs, stage) <==>
            StageOf(name) == stage && exists r :: r in runs && (r.status == Running || r.status == Pending) && r.name == name
  {
    if runs != [] {
      ActiveOfIff(runs[..|runs|-1], stage, name);
      assert runs == runs[..|runs|-1] + [runs[|runs|-1]];
    }
  }

  datatype Request = Request(parent: string, names: seq<string>)

  function CancelRequest(runs: seq<TaskRun>, stage: string): Request { Request(stage + "/tasks/-", ActiveOf(runs, stage)) }

  /** Each stage with active runs is asked once to cancel exactly these. */
  ghost predicate CancelsAll(runs: seq<TaskRun>, order: seq<string>, requests: seq<Request>) {
    && (forall stage :: stage in order <==> ActiveOf(runs, stage) != [])
    && (forall i, j :: 0 <= i < j < |order| ==> order[i] != order[j])
    && |requests| == |order| && (forall i :: 0 <= i < |order| ==> requests[i] == CancelRequest(runs, order[i]))
  }

  /** Each active run is then named by exactly one request, that of the parent its name is cut to. */
  lemma {:induction false} EachCancelledOnce(runs: seq<TaskRun>, order: seq<string>, requests: seq<Request>, r: TaskRun) returns (i: nat)
    requires CancelsAll(runs, order, requests) && r in runs && (r.status == Running || r.status == Pending)
    ensures i < |requests| && r.name in requests[i].names && requests[i].parent == StageOf(r.name) + "/tasks/-"
    ensures forall j :: 0 <= j < |requests| && r.name in requests[j].names ==> j == i
  {
    var stage := StageOf(r.name);
    ActiveOfIff(runs, stage, r.name);
    assert stage in order;
    i :| 0 <= i < |order| && order[i] == stage;
    forall j | 0 <= j < |requests| && r.name in requests[j].names ensures j == i { ActiveOfIff(runs, order[j], r.name); }
  }

  /** And none of them names a run that is not active. */
  lemma {:induction false} OnlyActiveCancelled(runs: seq<TaskRun>, order: seq<string>, requests: seq<Request>, i: nat, name: string)
    requires CancelsAll(runs, order, requests) && i < |requests| && name in requests[i].names
    ensures exists r :: r in runs && (r.status == Running || r.status == Pending) && r.name == name
  {
    ActiveOfIff(runs, order[i], name);
  }

  /** cancelRollout: `fails` says for which parents the request fails. Each stage with active runs
      is asked once, in any order and whatever failed before; the failures are collected. */
  method CancelRollout(list: Result<seq<TaskRun>>, fails: string -> bool)
    returns (order: seq<string>, requests: seq<Request>, errors: seq<string>, ok: bool)
    ensures list.Error? ==> requests == [] && !ok
    ensures list.Ok? ==>
      && CancelsAll(list.value, order, requests)
      && (forall stage :: stage in errors <==> stage in order && fails(stage + "/tasks/-"))
      && (ok <==> errors == [])
  {
    order, requests, errors := [], [], [];
    if list.Error? { return [], [], [], false; }
    var groups := GroupByStage(list.value);
    var rest := groups.Keys;
    while rest != {}
      invariant rest <= groups.Keys && Asked(list.value, fails, groups.Keys - rest, order, requests, errors)
      decreases rest
    {
      var stage := Pick(rest);
      ghost var was := errors;
      if fails(stage + "/tasks/-") { errors := errors + [stage]; }
      AskMore(list.value, fails, groups.Keys - rest, stage, order, requests, was);
      assert groups.Keys - (rest - {stage}) == groups.Keys - rest + {stage};
      order, requests := order + [stage], requests + [Request(stage + "/tasks/-", groups[stage])];
      rest := rest - {stage};
    }
    assert groups.Keys - {} == groups.Keys;
    ok := |errors| == 0;
  }

  /** The stages in `done` have been asked, each once; the failures are those of their requests. */
  ghost predicate Asked(runs: seq<TaskRun>, fails: string -> bool, done: set<string>, order: seq<string>, requests: seq<Request>,
                        errors: seq<string>) {
    && (forall stage :: stage in order <==> stage in done)
    && (forall i, j :: 0 <= i < j < |order| ==> order[i] != order[j])
    && |requests| == |order| && (forall i :: 0 <= i < |order| ==> requests[i] == CancelRequest(runs, order[i]))
    && (forall stage :: stage in errors <==> stage in order && fails(stage + "/tasks/-"))
  }

  lemma {:induction false} AskMore(runs: seq<TaskRun>, fails: string -> bool, done: set<string>, stage: string, order: seq<string>,
                                   requests: seq<Request>, errors: seq<string>)
    requires Asked(runs, fails, done, order, requests, errors) && stage !in done
    ensures Asked(runs, fails, done + {stage}, order + [stage], requests + [CancelRequest(runs, stage)],
                  if fails(stage + "/tasks/-") then errors + [stage] else errors)
  {
    forall i | 0 <= i < |order| ensures order[i] != stage { assert order[i] in order; }
  }

  /** A task run's parent is its own stage exactly when neither the project nor the stage has an
      id that starts with `tasks`. */
  lemma {:induction false} StageOfIff(r: TaskRunResourceRef)
    requires SlashFree(r.project) && SlashFree(r.stage)
    ensures StageOf(FormatTaskRun(r.project, r.plan, r.stage, r.task, r.taskRun)) == FormatStage(r.project, r.plan, r.stage)
            <==> !("tasks" <= r.project) && !("tasks" <= r.stage)
  {
    var segs, w := TaskRunSegs(r), "tasks";
    FormatTaskRunIsPath(r);
    FormatStageIsPath(r.project, r.plan, r.stage);
    TaskRunSegsSlashFree(r);
    assert "/" + w == "/tasks";
    SplitPathOnWord(segs, w);
    assert segs[..7] == StageSegs(r.project, r.plan, r.stage);
    CutAtTasks(r, segs, w);
    var k := FirstStart(segs, w);
    if k < 7 {
      PathLength(segs[..7], k);
      assert segs[..7][..k] == segs[..k];
    }
  }

  lemma {:induction false} CutAtTasks(r: TaskRunResourceRef, segs: seq<string>, w: string)
    requires w == "tasks" && segs == TaskRunSegs(r)
    ensures FirstStart(segs, w) <= 7 && (FirstStart(segs, w) == 7 <==> !(w <= r.project) && !(w <= r.stage))
  {
    FixedWords(r.plan);
    assert segs[7] == w && segs[1] == r.project && segs[6] == r.stage;
    assert segs[2] == "plans" && segs[3] == FormatInt(r.plan) && segs[4] == "rollout" && segs[5] == "stages";
  }

  lemma {:induction false} FixedWords(n: int)
    ensures !("tasks" <= "plans") && !("tasks" <= "rollout") && !("tasks" <= "stages") && !("tasks" <= FormatInt(n))
  {
    FormatIntSlashFree(n);
    assert "tasks"[0] == 't' && "plans"[0] == 'p' && "rollout"[0] == 'r' && "stages"[0] == 's';
  }

  lemma {:induction false} PathLength(segs: seq<string>, k: nat)
    requires 1 <= k < |segs|
    ensures |Path(segs[..k])| < |Path(segs)|
  {
    if k == 1 {
      assert segs[..1][0] == segs[0];
    } else {
      PathLength(segs[1..], k - 1);
      assert segs[..k][1..] == segs[1..][..k-1];
    }
  }
}
