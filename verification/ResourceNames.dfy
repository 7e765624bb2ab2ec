/** Resource names: the printers and parsers of backend/common/resource_name.go and
    backend/common/resource_ref.go. */
module ResourceNames {
  import opened Results
  import opened Strings

  const PROJECT_NAME_PREFIX := "projects/"
  const PLAN_PREFIX := "plans/"
  const STAGE_PREFIX := "stages/"
  const TASK_PREFIX := "tasks/"
  const TASK_RUN_PREFIX := "taskRuns/"
  const RELEASE_NAME_PREFIX := "releases/"
  const FILE_NAME_PREFIX := "files/"
  const INSTANCE_NAME_PREFIX := "instances/"
  const ENVIRONMENT_NAME_PREFIX := "environments/"
  const EMPTY_STAGE_ID := "-"

  // ---------------------------------------------------------------- tokens of a name

  /** A collection prefix: a slash-free kind followed by a slash. */
  predicate IsPrefix(p: string) { p != "" && p[|p|-1] == '/' && SlashFree(Kind(p)) }

  predicate ArePrefixes(ps: seq<string>) { forall i :: 0 <= i < |ps| ==> IsPrefix(ps[i]) }

  function Kind(p: string): string { if p == "" then "" else p[..|p|-1] }

  predicate PrefixesMatch(parts: seq<string>, prefixes: seq<string>) {
    |parts| == 2 * |prefixes| && forall i :: 0 <= i < |prefixes| ==> parts[2*i] + "/" == prefixes[i]
  }

  function OddParts(parts: seq<string>, n: nat): seq<string>
    requires |parts| == 2 * n
  {
    seq(n, i requires 0 <= i < n => parts[2*i+1])
  }

  function NameParentTokens(name: string, prefixes: seq<string>): Result<seq<string>> {
    var parts := Split(name, "/");
    if PrefixesMatch(parts, prefixes) then Ok(OddParts(parts, |prefixes|)) else Error
  }

  method GetNameParentTokens(name: string, prefixes: seq<string>) returns (r: Result<seq<string>>)
    ensures r == NameParentTokens(name, prefixes)
  {
    var parts := Split(name, "/");
    if |parts| != 2 * |prefixes| { return Error; }
    var tokens := [];
    for i := 0 to |prefixes|
      invariant |tokens| == i
      invariant forall k :: 0 <= k < i ==> parts[2*k] + "/" == prefixes[k] && tokens[k] == parts[2*k+1]
    {
      if parts[2*i] + "/" != prefixes[i] { return Error; }
      tokens := tokens + [parts[2*i+1]];
    }
    assert tokens == OddParts(parts, |prefixes|);
    return Ok(tokens);
  }

  /** kind, token, kind, token, ... */
  function Interleave(prefixes: seq<string>, tokens: seq<string>): (segs: seq<string>)
    requires |prefixes| == |tokens|
    ensures |segs| == 2 * |prefixes|
    ensures forall i :: 0 <= i < |prefixes| ==> segs[2*i] == Kind(prefixes[i]) && segs[2*i+1] == tokens[i]
  {
    if prefixes == [] then []
    else
      var n := |prefixes| - 1;
      Interleave(prefixes[..n], tokens[..n]) + [Kind(prefixes[n]), tokens[n]]
  }

  /** The parser accepts exactly the names that print slash-free tokens, and returns those tokens. */
  lemma {:induction false} NameParentTokensIff(name: string, prefixes: seq<string>, tokens: seq<string>)
    requires prefixes != [] && ArePrefixes(prefixes)
    ensures NameParentTokens(name, prefixes) == Ok(tokens) <==>
            |tokens| == |prefixes| && AllSlashFree(tokens) && name == Path(Interleave(prefixes, tokens))
  {
    if NameParentTokens(name, prefixes) == Ok(tokens) {
      AcceptedIsPrinted(name, prefixes, tokens);
    }
    if |tokens| == |prefixes| && AllSlashFree(tokens) && name == Path(Interleave(prefixes, tokens)) {
      PrintedIsAccepted(prefixes, tokens);
    }
  }

  lemma {:induction false} AcceptedIsPrinted(name: string, prefixes: seq<string>, tokens: seq<string>)
    requires prefixes != [] && NameParentTokens(name, prefixes) == Ok(tokens)
    ensures |tokens| == |prefixes| && AllSlashFree(tokens) && name == Path(Interleave(prefixes, tokens))
  {
    var parts := Split(name, "/");
    PathSplit(name);
    var segs := Interleave(prefixes, tokens);
    forall i | 0 <= i < |prefixes| ensures segs[2*i] == parts[2*i] && segs[2*i+1] == parts[2*i+1] {
      assert Kind(parts[2*i] + "/") == parts[2*i];
    }
    SameByPairs(segs, parts, |prefixes|);
    forall t | t in tokens ensures SlashFree(t) {
      var i :| 0 <= i < |tokens| && tokens[i] == t;
      assert parts[2*i+1] in parts;
    }
  }

  lemma {:induction false} SameByPairs(a: seq<string>, b: seq<string>, n: nat)
    requires |a| == |b| == 2 * n && forall i :: 0 <= i < n ==> a[2*i] == b[2*i] && a[2*i+1] == b[2*i+1]
    ensures a == b
  {
    forall k | 0 <= k < |a| ensures a[k] == b[k] {
      var i := k / 2;
      assert k == 2 * i || k == 2 * i + 1;
    }
  }

  lemma {:induction false} PrintedIsAccepted(prefixes: seq<string>, tokens: seq<string>)
    requires prefixes != [] && ArePrefixes(prefixes) && |tokens| == |prefixes| && AllSlashFree(tokens)
    ensures NameParentTokens(Path(Interleave(prefixes, tokens)), prefixes) == Ok(tokens)
  {
    var segs := Interleave(prefixes, tokens);
    InterleaveSlashFree(prefixes, tokens);
    SplitPath(segs);
    InterleaveMatches(prefixes, tokens);
  }

  lemma {:induction false} InterleaveMatches(prefixes: seq<string>, tokens: seq<string>)
    requires ArePrefixes(prefixes) && |tokens| == |prefixes|
    ensures var segs := Interleave(prefixes, tokens); PrefixesMatch(segs, prefixes) && OddParts(segs, |prefixes|) == tokens
  {
    var segs := Interleave(prefixes, tokens);
    forall i | 0 <= i < |prefixes| ensures segs[2*i] + "/" == prefixes[i] {
      KindAndSlash(prefixes[i]);
    }
  }

  lemma {:induction false} KindAndSlash(p: string)
    requires IsPrefix(p)
    ensures Kind(p) + "/" == p
  {
  }

  lemma {:induction false} InterleaveSlashFree(prefixes: seq<string>, tokens: seq<string>)
    requires ArePrefixes(prefixes) && |tokens| == |prefixes| && AllSlashFree(tokens)
    ensures AllSlashFree(Interleave(prefixes, tokens))
  {
    var segs := Interleave(prefixes, tokens);
    forall i | 0 <= i < |prefixes| ensures SlashFree(segs[2*i]) && SlashFree(segs[2*i+1]) {
      assert IsPrefix(prefixes[i]) && tokens[i] in tokens;
    }
    SlashFreeByPairs(segs, |prefixes|);
  }

  lemma {:induction false} SlashFreeByPairs(a: seq<string>, n: nat)
    requires |a| == 2 * n && forall i :: 0 <= i < n ==> SlashFree(a[2*i]) && SlashFree(a[2*i+1])
    ensures AllSlashFree(a)
  {
    forall k | 0 <= k < |a| ensures SlashFree(a[k]) {
      var i := k / 2;
      assert k == 2 * i || k == 2 * i + 1;
    }
  }

  /** The tokens of an accepted name never contain a slash. */
  lemma {:induction false} TokensSlashFree(name: string, prefixes: seq<string>)
    ensures NameParentTokens(name, prefixes).Ok? ==>
              |NameParentTokens(name, prefixes).value| == |prefixes| && AllSlashFree(NameParentTokens(name, prefixes).value)
  {
    PathSplit(name);
    if NameParentTokens(name, prefixes).Ok? {
      var tokens := NameParentTokens(name, prefixes).value;
      forall i | 0 <= i < |tokens| ensures SlashFree(tokens[i]) {
        assert tokens[i] in Split(name, "/");
      }
    }
  }

  // ---------------------------------------------------------------- printers

  function FormatProject(project: string): string { PROJECT_NAME_PREFIX + project }

  function FormatPlan(project: string, plan: Int64): string {
    FormatProject(project) + "/" + PLAN_PREFIX + FormatInt(plan)
  }

  function FormatRollout(project: string, plan: Int64): string {
    FormatPlan(project, plan) + "/rollout"
  }

  function FormatStageID(environment: string): string {
    if environment == "" then EMPTY_STAGE_ID else environment
  }

  function FormatStage(project: string, plan: Int64, stage: string): string {
    FormatRollout(project, plan) + "/" + STAGE_PREFIX + stage
  }

  function FormatTask(project: string, plan: Int64, stage: string, task: Int64): string {
    FormatStage(project, plan, stage) + "/" + TASK_PREFIX + FormatInt(task)
  }

  function FormatTaskRun(project: string, plan: Int64, stage: string, task: Int64, taskRun: Int64): string {
    FormatTask(project, plan, stage, task) + "/" + TASK_RUN_PREFIX + FormatInt(taskRun)
  }

  // ---------------------------------------------------------------- parsers

  datatype ResourcePlanRef = ResourcePlanRef(project: string, plan: Int64)

  datatype TaskRunResourceRef =
    TaskRunResourceRef(project: string, plan: Int64, stage: string, task: Int64, taskRun: Int64)
  {
    function String(): string {
      "projects/" + project + "/plans/" + FormatInt(plan) + "/rollout/stages/" + stage
      + "/tasks/" + FormatInt(task) + "/taskRuns/" + FormatInt(taskRun)
    }
  }

  function ParseResourcePlanRef(name: string): Result<ResourcePlanRef> {
    var tokens :- NameParentTokens(name, [PROJECT_NAME_PREFIX, PLAN_PREFIX]);
    var plan :- ParseInt(tokens[1]);
    Ok(ResourcePlanRef(tokens[0], plan))
  }

  function GetProjectIDPlanID(name: string): Result<(string, Int64)> {
    var ref :- ParseResourcePlanRef(name);
    Ok((ref.project, ref.plan))
  }

  function ParseTaskRunResourceRef(name: string): Result<TaskRunResourceRef> {
    var parts := Split(name, "/rollout");
    if |parts| != 2 then Error
    else
      var planRef :- ParseResourcePlanRef(parts[0]);
      var suffix := Split(TrimPrefix(parts[1], "/"), "/");
      if |suffix| != 6 || suffix[0] + "/" != STAGE_PREFIX || suffix[2] + "/" != TASK_PREFIX
         || suffix[4] + "/" != TASK_RUN_PREFIX then Error
      else
        var task :- ParseInt(suffix[3]);
        var taskRun :- ParseInt(suffix[5]);
        Ok(TaskRunResourceRef(planRef.project, planRef.plan, suffix[1], task, taskRun))
  }

  function GetProjectIDPlanIDStageIDTaskIDTaskRunID(name: string): Result<(string, Int64, string, Int64, Int64)> {
    var parts := Split(name, "/rollout");
    if |parts| != 2 then Error
    else
      var ids :- GetProjectIDPlanID(parts[0]);
      var suffix := Split(TrimPrefix(parts[1], "/"), "/");
      if |suffix| != 6 || suffix[0] + "/" != STAGE_PREFIX || suffix[2] + "/" != TASK_PREFIX
         || suffix[4] + "/" != TASK_RUN_PREFIX then Error
      else
        var task :- ParseInt(suffix[3]);
        var taskRun :- ParseInt(suffix[5]);
        Ok((ids.0, ids.1, suffix[1], task, taskRun))
  }

  datatype MaybeStage = AnyStage | OneStage(id: string)

  function GetProjectIDPlanIDMaybeStageID(name: string): Result<(string, Int64, MaybeStage)> {
    var parts := Split(name, "/rollout");
    if |parts| != 2 then Error
    else
      var ids :- GetProjectIDPlanID(parts[0]);
      var suffix := Split(TrimPrefix(parts[1], "/"), "/");
      if |suffix| != 2 || suffix[0] + "/" != STAGE_PREFIX then Error
      else Ok((ids.0, ids.1, if suffix[1] != "-" then OneStage(suffix[1]) else AnyStage))
  }

  // ---------------------------------------------------------------- printed names as paths

  function PlanSegs(project: string, plan: Int64): seq<string> {
    ["projects", project, "plans", FormatInt(plan)]
  }

  function StageSegs(project: string, plan: Int64, stage: string): seq<string> {
    PlanSegs(project, plan) + ["rollout"] + ["stages", stage]
  }

  function TaskRunSegs(r: TaskRunResourceRef): seq<string> {
    StageSegs(r.project, r.plan, r.stage) + ["tasks", FormatInt(r.task)] + ["taskRuns", FormatInt(r.taskRun)]
  }

  lemma {:induction false} FormatPlanIsPath(project: string, plan: Int64)
    ensures FormatPlan(project, plan) == Path(PlanSegs(project, plan))
  {
    PathAppend2(["projects"], project, "plans");
    PathAppend(["projects", project, "plans"], FormatInt(plan));
    assert ["projects"] + [project, "plans"] == ["projects", project, "plans"];
    assert ["projects", project, "plans"] + [FormatInt(plan)] == PlanSegs(project, plan);
  }

  lemma {:induction false} FormatStageIsPath(project: string, plan: Int64, stage: string)
    ensures FormatStage(project, plan, stage) == Path(StageSegs(project, plan, stage))
  {
    FormatPlanIsPath(project, plan);
    PathAppend(PlanSegs(project, plan), "rollout");
    PathAppend2(PlanSegs(project, plan) + ["rollout"], "stages", stage);
  }

  lemma {:induction false} FormatTaskIsPath(r: TaskRunResourceRef)
    ensures FormatTask(r.project, r.plan, r.stage, r.task) == Path(StageSegs(r.project, r.plan, r.stage) + ["tasks", FormatInt(r.task)])
  {
    FormatStageIsPath(r.project, r.plan, r.stage);
    var name, s := FormatStage(r.project, r.plan, r.stage), StageSegs(r.project, r.plan, r.stage);
    PathAppend2(s, "tasks", FormatInt(r.task));
    assert TASK_PREFIX == "tasks" + "/";
    PrefixJoins(name, "tasks", FormatInt(r.task));
  }

  lemma {:induction false} PrefixJoins(name: string, kind: string, id: string)
    ensures name + "/" + (kind + "/") + id == name + "/" + kind + "/" + id
  {
  }

  lemma {:induction false} FormatTaskRunIsPath(r: TaskRunResourceRef)
    ensures FormatTaskRun(r.project, r.plan, r.stage, r.task, r.taskRun) == Path(TaskRunSegs(r))
  {
    FormatTaskIsPath(r);
    var name, t := FormatTask(r.project, r.plan, r.stage, r.task), StageSegs(r.project, r.plan, r.stage) + ["tasks", FormatInt(r.task)];
    PathAppend2(t, "taskRuns", FormatInt(r.taskRun));
    PrefixJoins(name, "taskRuns", FormatInt(r.taskRun));
    assert TASK_RUN_PREFIX == "taskRuns" + "/";
  }

  /** The typed reference prints the name that the formatter prints. */
  lemma {:induction false} StringIsFormatTaskRun(r: TaskRunResourceRef)
    ensures r.String() == FormatTaskRun(r.project, r.plan, r.stage, r.task, r.taskRun)
  {
    var plan := "projects/" + r.project + "/plans/" + FormatInt(r.plan);
    assert FormatPlan(r.project, r.plan) == plan;
    var stage := plan + "/rollout/stages/" + r.stage;
    assert FormatStage(r.project, r.plan, r.stage) == stage;
    var task := stage + "/tasks/" + FormatInt(r.task);
    assert FormatTask(r.project, r.plan, r.stage, r.task) == task;
  }

  // ---------------------------------------------------------------- round trip of task runs

  /** A project or stage id that the task-run parsers can read back: no slash, and not
      mistaken for the `/rollout` separator. */
  predicate Readable(id: string) { SlashFree(id) && !("rollout" <= id) }

  lemma {:induction false} PrefixText()
    ensures PROJECT_NAME_PREFIX == "projects" + "/" && PLAN_PREFIX == "plans" + "/" && RELEASE_NAME_PREFIX == "releases" + "/"
  {
  }

  lemma {:induction false} PlanRefRoundTrip(project: string, plan: Int64)
    requires SlashFree(project)
    ensures ParseResourcePlanRef(Path(PlanSegs(project, plan))) == Ok(ResourcePlanRef(project, plan))
  {
    FormatIntSlashFree(plan);
    ParseFormatInt(plan);
    PrefixText();
    PrintedPairIsAccepted("projects", "plans", project, FormatInt(plan));
  }

  lemma {:induction false} PrintedPairIsAccepted(kind1: string, kind2: string, x: string, y: string)
    requires SlashFree(kind1) && SlashFree(kind2) && SlashFree(x) && SlashFree(y)
    ensures NameParentTokens(Path([kind1, x, kind2, y]), [kind1 + "/", kind2 + "/"]) == Ok([x, y])
  {
    var prefixes, tokens := [kind1 + "/", kind2 + "/"], [x, y];
    assert Kind(kind1 + "/") == kind1 && Kind(kind2 + "/") == kind2;
    var segs := Interleave(prefixes, tokens);
    assert segs == [segs[2*0], segs[2*0+1], segs[2*1], segs[2*1+1]];
    PrintedIsAccepted(prefixes, tokens);
  }

  predicate NoneStarts(segs: seq<string>, w: string) { forall k :: 0 <= k < |segs| ==> !(w <= segs[k]) }

  /** A path around a segment `w`, where no later segment starts with `w`, splits there only. */
  lemma {:induction false} SplitAroundWord(plan: seq<string>, w: string, rest: seq<string>)
    requires plan != [] && rest != [] && SlashFree(w) && AllSlashFree(plan) && AllSlashFree(rest)
    requires NoneStarts(plan[1..], w) && NoneStarts(rest, w)
    ensures Split(Path(plan + [w] + rest), "/" + w) == [Path(plan), "/" + Path(rest)]
  {
    var segs := plan + [w] + rest;
    SplitPathOnWord(segs, w);
    var k := FirstStart(segs, w);
    assert segs[|plan|] == w;
    forall j | 1 <= j < |plan| ensures !(w <= segs[j]) { assert segs[j] == plan[1..][j-1]; }
    assert k == |plan|;
    assert segs[..k] == plan && segs[k+1..] == rest && w[|w|..] == "";
    var tail := [""] + rest;
    TailNotSplit(rest, w);
    assert Pieces(segs, w) == [Path(plan)] + Pieces(tail, w);
  }

  lemma {:induction false} TailNotSplit(rest: seq<string>, w: string)
    requires rest != [] && NoneStarts(rest, w)
    ensures Pieces([""] + rest, w) == ["/" + Path(rest)]
  {
    var tail := [""] + rest;
    forall j | 1 <= j < |tail| ensures !(w <= tail[j]) { assert tail[j] == rest[j-1]; }
    assert FirstStart(tail, w) == |tail|;
    assert tail[1..] == rest;
    assert Path(tail) == "/" + Path(rest);
  }

  lemma {:induction false} OtherWords(n: int)
    ensures !("rollout" <= FormatInt(n)) && !("rollout" <= "plans") && !("rollout" <= "stages")
    ensures !("rollout" <= "tasks") && !("rollout" <= "taskRuns")
  {
    FormatIntSlashFree(n);
    assert "rollout"[0] == 'r' && "plans"[0] == 'p' && "stages"[0] == 's' && "tasks"[0] == 't' && "taskRuns"[0] == 't';
  }

  function RunSuffix(r: TaskRunResourceRef): seq<string> {
    ["stages", r.stage, "tasks", FormatInt(r.task), "taskRuns", FormatInt(r.taskRun)]
  }

  lemma {:induction false} TaskRunSegsSlashFree(r: TaskRunResourceRef)
    requires SlashFree(r.project) && SlashFree(r.stage)
    ensures AllSlashFree(PlanSegs(r.project, r.plan)) && AllSlashFree(RunSuffix(r))
    ensures TaskRunSegs(r) == PlanSegs(r.project, r.plan) + ["rollout"] + RunSuffix(r)
  {
    FormatIntSlashFree(r.plan);
    FormatIntSlashFree(r.task);
    FormatIntSlashFree(r.taskRun);
  }

  lemma {:induction false} SuffixReads(r: TaskRunResourceRef)
    requires SlashFree(r.stage)
    ensures Split(TrimPrefix("/" + Path(RunSuffix(r)), "/"), "/") == RunSuffix(r)
    ensures ParseInt(RunSuffix(r)[3]) == Ok(r.task) && ParseInt(RunSuffix(r)[5]) == Ok(r.taskRun)
  {
    assert TrimPrefix("/" + Path(RunSuffix(r)), "/") == Path(RunSuffix(r));
    FormatIntSlashFree(r.task);
    FormatIntSlashFree(r.taskRun);
    SplitPath(RunSuffix(r));
    ParseFormatInt(r.task);
    ParseFormatInt(r.taskRun);
  }

  lemma {:induction false} ReadableSplit(r: TaskRunResourceRef)
    requires Readable(r.project) && Readable(r.stage)
    ensures Split(Path(TaskRunSegs(r)), "/rollout") == [Path(PlanSegs(r.project, r.plan)), "/" + Path(RunSuffix(r))]
  {
    TaskRunSegsSlashFree(r);
    OtherWords(r.plan);
    OtherWords(r.task);
    OtherWords(r.taskRun);
    var w := "rollout";
    assert "/" + w == "/rollout";
    assert PlanSegs(r.project, r.plan)[1..] == [r.project, "plans", FormatInt(r.plan)];
    SplitAroundWord(PlanSegs(r.project, r.plan), w, RunSuffix(r));
  }

  lemma {:induction false} RunReads(name: string, left: string, right: string, suffix: seq<string>, r: TaskRunResourceRef)
    requires Split(name, "/rollout") == [left, right] && ParseResourcePlanRef(left) == Ok(ResourcePlanRef(r.project, r.plan))
    requires Split(TrimPrefix(right, "/"), "/") == suffix && |suffix| == 6 && suffix[1] == r.stage
    requires suffix[0] + "/" == STAGE_PREFIX && suffix[2] + "/" == TASK_PREFIX && suffix[4] + "/" == TASK_RUN_PREFIX
    requires ParseInt(suffix[3]) == Ok(r.task) && ParseInt(suffix[5]) == Ok(r.taskRun)
    ensures ParseTaskRunResourceRef(name) == Ok(r)
  {
  }

  lemma {:induction false} ReadableTaskRunRoundTrip(r: TaskRunResourceRef)
    requires Readable(r.project) && Readable(r.stage)
    ensures ParseTaskRunResourceRef(Path(TaskRunSegs(r))) == Ok(r)
  {
    var suffix := RunSuffix(r);
    ReadableSplit(r);
    PlanRefRoundTrip(r.project, r.plan);
    SuffixReads(r);
    SuffixKinds(r);
    RunReads(Path(TaskRunSegs(r)), Path(PlanSegs(r.project, r.plan)), "/" + Path(suffix), suffix, r);
  }

  lemma {:induction false} SuffixKinds(r: TaskRunResourceRef)
    ensures var s := RunSuffix(r); s[0] + "/" == STAGE_PREFIX && s[2] + "/" == TASK_PREFIX && s[4] + "/" == TASK_RUN_PREFIX
  {
  }

  /** What the parser returns never has a slash in the project or the stage. */
  lemma {:induction false} ParsedIdsSlashFree(name: string)
    ensures var r := ParseTaskRunResourceRef(name);
            r.Ok? ==> SlashFree(r.value.project) && SlashFree(r.value.stage)
  {
    var parts := Split(name, "/rollout");
    if |parts| == 2 {
      TokensSlashFree(parts[0], [PROJECT_NAME_PREFIX, PLAN_PREFIX]);
      PathSplit(TrimPrefix(parts[1], "/"));
    }
  }

  /** An id that starts with `rollout` makes the name split into three pieces or more. */
  lemma {:induction false} UnreadableSplit(segs: seq<string>, w: string)
    requires AllSlashFree(segs) && |segs| > 6 && SlashFree(w) && segs[4] == w && (w <= segs[1] || w <= segs[6])
    ensures |Split(Path(segs), "/" + w)| >= 3
  {
    SplitPathOnWord(segs, w);
    if w <= segs[1] {
      PiecesCount(segs, w, 1, 4);
    } else {
      PiecesCount(segs, w, 4, 6);
    }
  }

  lemma {:induction false} StageSegsSlashFree(project: string, plan: Int64, stage: string)
    requires SlashFree(project) && SlashFree(stage)
    ensures AllSlashFree(StageSegs(project, plan, stage))
  {
    FormatIntSlashFree(plan);
  }

  lemma {:induction false} RolloutWord()
    ensures "/" + "rollout" == "/rollout" && SlashFree("rollout")
  {
  }

  lemma {:induction false} UnreadableTaskRun(r: TaskRunResourceRef)
    requires SlashFree(r.project) && SlashFree(r.stage) && ("rollout" <= r.project || "rollout" <= r.stage)
    ensures |Split(Path(TaskRunSegs(r)), "/rollout")| >= 3
  {
    var segs := TaskRunSegs(r);
    TaskRunSegsSlashFree(r);
    RolloutWord();
    assert |segs| > 6 && segs[1] == r.project && segs[4] == "rollout" && segs[6] == r.stage by { StageSegsStart(r.project, r.plan, r.stage); }
    UnreadableSplit(segs, segs[4]);
  }

  lemma {:induction false} UnreadableStage(project: string, plan: Int64, stage: string)
    requires SlashFree(project) && SlashFree(stage) && ("rollout" <= project || "rollout" <= stage)
    ensures |Split(Path(StageSegs(project, plan, stage)), "/rollout")| >= 3
  {
    var segs := StageSegs(project, plan, stage);
    StageSegsSlashFree(project, plan, stage);
    RolloutWord();
    StageSegsStart(project, plan, stage);
    UnreadableSplit(segs, segs[4]);
  }

  lemma {:induction false} StageSegsStart(project: string, plan: Int64, stage: string)
    ensures var segs := StageSegs(project, plan, stage); |segs| == 7 && segs[1] == project && segs[4] == "rollout" && segs[6] == stage
  {
  }

  /** The printed name of a task run reads back as the same five fields, whatever the 64-bit
      ids, exactly when neither the project nor the stage contains a slash or starts with `rollout`. */
  lemma {:induction false} TaskRunRoundTripIff(r: TaskRunResourceRef)
    ensures ParseTaskRunResourceRef(FormatTaskRun(r.project, r.plan, r.stage, r.task, r.taskRun)) == Ok(r)
            <==> Readable(r.project) && Readable(r.stage)
  {
    FormatTaskRunIsPath(r);
    if Readable(r.project) && Readable(r.stage) {
      ReadableTaskRunRoundTrip(r);
    } else if SlashFree(r.project) && SlashFree(r.stage) {
      UnreadableTaskRun(r);
    } else {
      ParsedIdsSlashFree(Path(TaskRunSegs(r)));
    }
  }

  /** The deprecated parser and the typed one agree on every string. */
  lemma {:induction false} TaskRunParsersAgree(name: string)
    ensures GetProjectIDPlanIDStageIDTaskIDTaskRunID(name) ==
            match ParseTaskRunResourceRef(name)
            case Ok(r) => Ok((r.project, r.plan, r.stage, r.task, r.taskRun))
            case Error => Error
  {
  }

  /** What an environment's stage reads back as: the empty one, and one literally called `-`, as
      any stage. */
  function StageOf(environment: string): MaybeStage {
    if environment == "" || environment == "-" then AnyStage else OneStage(environment)
  }

  /** A stage name printed from an environment reads back as the same project, plan and environment
      exactly when neither project nor environment has a slash or starts with `rollout`. */
  lemma {:induction false} StageOfEnvironmentRoundTripIff(project: string, plan: Int64, environment: string)
    ensures GetProjectIDPlanIDMaybeStageID(FormatStage(project, plan, FormatStageID(environment))) == Ok((project, plan, StageOf(environment)))
            <==> Readable(project) && Readable(environment)
  {
    var stage := FormatStageID(environment);
    FormatStageIsPath(project, plan, stage);
    if Readable(project) && Readable(environment) {
      StageRoundTrip(project, plan, stage);
    } else if SlashFree(project) && SlashFree(environment) {
      UnreadableStage(project, plan, stage);
    } else {
      ParsedStageSlashFree(FormatStage(project, plan, stage));
    }
  }

  lemma {:induction false} StageRoundTrip(project: string, plan: Int64, stage: string)
    requires Readable(project) && Readable(stage)
    ensures GetProjectIDPlanIDMaybeStageID(Path(StageSegs(project, plan, stage))) ==
            Ok((project, plan, if stage != "-" then OneStage(stage) else AnyStage))
  {
    StageSplit(project, plan, stage);
    PlanRefRoundTrip(project, plan);
    StageSuffixSplit(stage);
    StageReads(Path(StageSegs(project, plan, stage)), Path(PlanSegs(project, plan)), "/" + Path(["stages", stage]), project, plan, stage);
  }

  lemma {:induction false} ParsedStageSlashFree(name: string)
    ensures var r := GetProjectIDPlanIDMaybeStageID(name);
            r.Ok? ==> SlashFree(r.value.0) && (r.value.2.OneStage? ==> SlashFree(r.value.2.id))
  {
    var parts := Split(name, "/rollout");
    if |parts| == 2 {
      TokensSlashFree(parts[0], [PROJECT_NAME_PREFIX, PLAN_PREFIX]);
      PathSplit(TrimPrefix(parts[1], "/"));
    }
  }

  lemma {:induction false} StageReads(name: string, left: string, right: string, project: string, plan: Int64, stage: string)
    requires Split(name, "/rollout") == [left, right] && GetProjectIDPlanID(left) == Ok((project, plan))
    requires Split(TrimPrefix(right, "/"), "/") == ["stages", stage]
    ensures GetProjectIDPlanIDMaybeStageID(name) == Ok((project, plan, if stage != "-" then OneStage(stage) else AnyStage))
  {
    PrefixText();
  }

  lemma {:induction false} StageSuffixSplit(stage: string)
    requires SlashFree(stage)
    ensures Split(TrimPrefix("/" + Path(["stages", stage]), "/"), "/") == ["stages", stage]
  {
    var rest := ["stages", stage];
    assert TrimPrefix("/" + Path(rest), "/") == Path(rest);
    SplitPath(rest);
  }

  lemma {:induction false} StageSplit(project: string, plan: Int64, stage: string)
    requires Readable(project) && Readable(stage)
    ensures Split(Path(StageSegs(project, plan, stage)), "/rollout") ==
            [Path(PlanSegs(project, plan)), "/" + Path(["stages", stage])]
  {
    OtherWords(plan);
    FormatIntSlashFree(plan);
    var segs, rest, w := PlanSegs(project, plan), ["stages", stage], "rollout";
    assert "/" + w == "/rollout";
    assert segs[1..] == [project, "plans", FormatInt(plan)];
    SplitAroundWord(segs, w, rest);
  }

  // ---------------------------------------------------------------- percent-encoding

  /** A string of bytes. */
  type ByteString = s: string | forall c :: c in s ==> (c as int) < 256

  function HexDigit(d: nat): char
    requires d < 16
  {
    if d < 10 then ('0' as int + d) as char else ('A' as int + d - 10) as char
  }

  predicate IsHex(c: char) { '0' <= c <= '9' || 'a' <= c <= 'f' || 'A' <= c <= 'F' }

  function Unhex(c: char): (d: nat)
    requires IsHex(c)
    ensures d < 16
  {
    if '0' <= c <= '9' then c as int - '0' as int
    else if 'a' <= c <= 'f' then c as int - 'a' as int + 10
    else c as int - 'A' as int + 10
  }

  /** Go's shouldEscape for a path segment, negated. */
  predicate Unescaped(c: char) {
    'a' <= c <= 'z' || 'A' <= c <= 'Z' || '0' <= c <= '9' || c in "-_.~" || c in "$&+:=@"
  }

  /** url.PathEscape. */
  function PathEscape(s: ByteString): string {
    if s == "" then ""
    else
      var c := s[0];
      (if Unescaped(c) then [c] else ['%', HexDigit(c as int / 16), HexDigit(c as int % 16)]) + PathEscape(s[1..])
  }

  predicate IsUpperHex(c: char) { '0' <= c <= '9' || 'A' <= c <= 'F' }

  /** Letters, digits and ten marks stand for themselves; every other byte becomes a percent sign and
      the two upper-case hexadecimal digits of its value; byte by byte, in order. */
  lemma {:induction false} EscapedBytes(c: char, s: ByteString)
    requires c as int < 256
    ensures var e := PathEscape([c] + s);
            if 'a' <= c <= 'z' || 'A' <= c <= 'Z' || '0' <= c <= '9' || c == '-' || c == '_' || c == '.' || c == '~'
               || c == '$' || c == '&' || c == '+' || c == ':' || c == '=' || c == '@'
            then e == [c] + PathEscape(s)
            else |e| >= 3 && e[0] == '%' && IsUpperHex(e[1]) && IsUpperHex(e[2]) && 16 * Unhex(e[1]) + Unhex(e[2]) == c as int
                 && e[3..] == PathEscape(s)
    ensures PathEscape("") == ""
  {
    assert ([c] + s)[1..] == s;
    if !Unescaped(c) {
      HexDigitReads(c as int / 16);
      HexDigitReads(c as int % 16);
    }
  }

  /** url.PathUnescape. */
  function PathUnescape(s: string): Result<string>
    decreases |s|
  {
    if s == "" then Ok("")
    else if s[0] == '%' then
      if |s| < 3 || !IsHex(s[1]) || !IsHex(s[2]) then Error
      else
        var rest :- PathUnescape(s[3..]);
        Ok([(16 * Unhex(s[1]) + Unhex(s[2])) as char] + rest)
    else
      var rest :- PathUnescape(s[1..]);
      Ok([s[0]] + rest)
  }

  lemma {:induction false} EscapeRoundTrip(s: ByteString)
    ensures PathUnescape(PathEscape(s)) == Ok(s) && SlashFree(PathEscape(s))
  {
    if s != "" {
      EscapeRoundTrip(s[1..]);
      var c, rest := s[0], PathEscape(s[1..]);
      assert s == [c] + s[1..];
      if Unescaped(c) {
        UnescapeLiteral(c, rest, s[1..]);
      } else {
        UnescapeByte(c as int, rest, s[1..]);
        assert HexDigit(c as int / 16) != '/' && HexDigit(c as int % 16) != '/';
      }
    }
  }

  lemma {:induction false} UnescapeLiteral(c: char, rest: string, s: string)
    requires c != '%' && PathUnescape(rest) == Ok(s)
    ensures PathUnescape([c] + rest) == Ok([c] + s)
  {
    assert ([c] + rest)[1..] == rest;
  }

  lemma {:induction false} UnescapeByte(b: nat, rest: string, s: string)
    requires b < 256 && PathUnescape(rest) == Ok(s)
    ensures PathUnescape(['%', HexDigit(b / 16), HexDigit(b % 16)] + rest) == Ok([b as char] + s)
  {
    HexDigitReads(b / 16);
    HexDigitReads(b % 16);
    var e := ['%', HexDigit(b / 16), HexDigit(b % 16)] + rest;
    assert e[3..] == rest && e[1] == HexDigit(b / 16) && e[2] == HexDigit(b % 16);
  }

  lemma {:induction false} HexDigitReads(d: nat)
    requires d < 16
    ensures IsHex(HexDigit(d)) && Unhex(HexDigit(d)) == d
  {
  }

  // ---------------------------------------------------------------- release files

  function FormatReleaseName(project: string, release: string): string {
    FormatProject(project) + "/" + RELEASE_NAME_PREFIX + release
  }

  function FormatReleaseFile(release: string, file: ByteString): string {
    release + "/" + FILE_NAME_PREFIX + PathEscape(file)
  }

  function GetProjectReleaseIDFile(name: string): Result<(string, string, string)> {
    var cut :- Cut(name, "/" + FILE_NAME_PREFIX);
    var tokens :- NameParentTokens(cut.0, [PROJECT_NAME_PREFIX, RELEASE_NAME_PREFIX]);
    var file :- PathUnescape(cut.1);
    Ok((tokens[0], tokens[1], file))
  }

  /** `files/` starts what follows a slash only where a whole segment is `files`. */
  lemma {:induction false} FilesStarts(head: string, rest: string)
    requires SlashFree(head)
    ensures FILE_NAME_PREFIX <= head + "/" + rest <==> head == "files"
  {
    var s := head + "/" + rest;
    assert s[|head|] == '/' && forall k :: 0 <= k < |head| ==> s[k] == head[k] != '/';
    assert "files/"[5] == '/' && forall k :: 0 <= k < 5 ==> "files/"[k] != '/';
    if "files/" <= s {
      assert forall k :: 0 <= k < 6 ==> s[k] == "files/"[k];
      assert |head| == 5;
      assert head == s[..5] == "files/"[..5];
    }
  }

  /** How far into the text after a slash the parser's cut lies, if that text has one. */
  function CutAfterSlash(rest: string): int {
    if FILE_NAME_PREFIX <= rest then 0
    else if Index(rest, "/" + FILE_NAME_PREFIX) < 0 then -1
    else 1 + Index(rest, "/" + FILE_NAME_PREFIX)
  }

  lemma {:induction false} CutPastHead(head: string, rest: string)
    requires SlashFree(head) && CutAfterSlash(rest) >= 0
    ensures Index(head + "/" + rest, "/" + FILE_NAME_PREFIX) == |head| + CutAfterSlash(rest)
    ensures CutAfterSlash(head + "/" + rest) == if head == "files" then 0 else 1 + |head| + CutAfterSlash(rest)
  {
    IndexOneHead(head, rest, FILE_NAME_PREFIX);
    FilesStarts(head, rest);
  }

  function ReleaseFileText(p: string, r: string, e: string): string {
    "projects" + "/" + (p + "/" + ("releases" + "/" + (r + "/" + (FILE_NAME_PREFIX + e))))
  }

  lemma {:induction false} Flatten6(a: string, b: string, c: string, d: string, x: string, y: string)
    ensures (a + "/" + b + "/" + (c + "/" + d)) + "/" + x + y == a + "/" + (b + "/" + (c + "/" + (d + "/" + (x + y))))
  {
  }

  lemma {:induction false} FormatReleaseFileIs(p: string, r: string, file: ByteString)
    ensures FormatReleaseFile(FormatReleaseName(p, r), file) == ReleaseFileText(p, r, PathEscape(file))
  {
    PrefixText();
    assert FormatProject(p) == "projects" + "/" + p;
    assert FormatReleaseName(p, r) == "projects" + "/" + p + "/" + ("releases" + "/" + r);
    Flatten6("projects", p, "releases", r, FILE_NAME_PREFIX, PathEscape(file));
  }

  lemma {:induction false} CutPastHeads(a: string, p: string, b: string, r: string, rest: string)
    requires SlashFree(a) && SlashFree(p) && SlashFree(b) && SlashFree(r) && a != "files" && b != "files" && CutAfterSlash(rest) == 0
    ensures Index(a + "/" + (p + "/" + (b + "/" + (r + "/" + rest))), "/" + FILE_NAME_PREFIX) ==
            |a| + if p == "files" then 0 else 1 + |p| + if r == "files" then 1 + |b| else 2 + |b| + |r|
  {
    CutPastHead(r, rest);
    CutPastHead(b, r + "/" + rest);
    CutPastHead(p, b + "/" + (r + "/" + rest));
    CutPastHead(a, p + "/" + (b + "/" + (r + "/" + rest)));
  }

  /** The printed name of a file of a release. */
  lemma {:induction false} ReleaseFileName(p: string, r: string, file: ByteString)
    ensures FormatReleaseFile(FormatReleaseName(p, r), file) == "projects/" + p + "/" + ("releases/" + r) + "/" + "files/" + PathEscape(file)
  {
  }

  /** Where the parser cuts a release-file name. */
  lemma {:induction false} CutOfReleaseFile(p: string, r: string, e: string)
    requires SlashFree(p) && SlashFree(r)
    ensures Index(ReleaseFileText(p, r, e), "/" + FILE_NAME_PREFIX) ==
            if p == "files" then 8 else if r == "files" then 18 + |p| else 19 + |p| + |r|
  {
    CutPastHeads("projects", p, "releases", r, FILE_NAME_PREFIX + e);
  }

  lemma {:induction false} TextBeforeCut(p: string, r: string, e: string)
    ensures var t := ReleaseFileText(p, r, e);
            && |t| == 26 + |p| + |r| + |e|
            && t[..8] == Path(["projects"])
            && t[..18+|p|] == Path(["projects", p, "releases"])
            && t[..19+|p|+|r|] == Path(["projects", p, "releases", r])
            && t[26+|p|+|r|..] == e
  {
    var t := ReleaseFileText(p, r, e);
    var a := "projects" + "/" + (p + "/" + "releases");
    assert t == a + ("/" + (r + "/" + (FILE_NAME_PREFIX + e)));
    var b := "projects" + "/" + (p + "/" + ("releases" + "/" + r));
    assert t == b + ("/" + (FILE_NAME_PREFIX + e));
    PathAppend2(["projects"], p, "releases");
    assert ["projects"] + [p, "releases"] == ["projects", p, "releases"];
    assert Path(["projects", p, "releases"]) == a;
    PathAppend(["projects", p, "releases"], r);
    assert ["projects", p, "releases"] + [r] == ["projects", p, "releases", r];
    assert Path(["projects", p, "releases", r]) == b;
  }

  lemma {:induction false} WrongArity(segs: seq<string>)
    requires segs != [] && AllSlashFree(segs) && |segs| != 4
    ensures NameParentTokens(Path(segs), [PROJECT_NAME_PREFIX, RELEASE_NAME_PREFIX]).Error?
  {
    SplitPath(segs);
  }

  lemma {:induction false} SlashFreeReleaseFile(p: string, r: string, e: string)
    requires SlashFree(p) && SlashFree(r)
    ensures var c := Cut(ReleaseFileText(p, r, e), "/" + FILE_NAME_PREFIX);
            c.Ok? && var tokens := NameParentTokens(c.value.0, [PROJECT_NAME_PREFIX, RELEASE_NAME_PREFIX]);
            if p == "files" || r == "files" then tokens.Error? else tokens == Ok([p, r]) && c.value.1 == e
  {
    CutOfReleaseFile(p, r, e);
    TextBeforeCut(p, r, e);
    if p == "files" {
      WrongArity(["projects"]);
    } else if r == "files" {
      WrongArity(["projects", p, "releases"]);
    } else {
      ReleaseTokens(p, r);
    }
  }

  lemma {:induction false} ReleaseTokens(p: string, r: string)
    requires SlashFree(p) && SlashFree(r)
    ensures NameParentTokens(Path(["projects", p, "releases", r]), [PROJECT_NAME_PREFIX, RELEASE_NAME_PREFIX]) == Ok([p, r])
  {
    PrefixText();
    PrintedPairIsAccepted("projects", "releases", p, r);
  }

  /** A release-file name reads back as the same project, release and path, for every path,
      exactly when neither id contains a slash or is the word `files`. */
  lemma {:induction false} ReleaseFileRoundTripIff(p: string, r: string, file: ByteString)
    ensures GetProjectReleaseIDFile(FormatReleaseFile(FormatReleaseName(p, r), file)) == Ok((p, r, file))
            <==> SlashFree(p) && SlashFree(r) && p != "files" && r != "files"
  {
    var e := PathEscape(file);
    EscapeRoundTrip(file);
    FormatReleaseFileIs(p, r, file);
    if SlashFree(p) && SlashFree(r) {
      SlashFreeReleaseFile(p, r, e);
    } else {
      var cut := Cut(ReleaseFileText(p, r, e), "/" + FILE_NAME_PREFIX);
      if cut.Ok? { TokensSlashFree(cut.value.0, [PROJECT_NAME_PREFIX, RELEASE_NAME_PREFIX]); }
    }
  }
}
