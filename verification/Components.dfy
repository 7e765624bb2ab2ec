/** Component start-up and health: backend/server/parallel_init.go, backend/server/components.go
    and the status aggregation of backend/server/health.go. The goroutines of an initialisation
    interleave freely, and maps are walked in any order. */
module Components {
  import opened Options
  import opened Walks

  datatype Class = Critical | Important | Optional

  datatype Status = Initializing | Healthy | Degraded | Disabled | Failed

  datatype Component = Component(class_: Class, status: Status, message: string)

  type Registry = map<string, Component>

  // ---------------------------------------------------------------- the registry

  /** A setter: nothing happens for a name that is not registered. */
  function Set(r: Registry, name: string, status: Status, message: string): Registry {
    if name in r then r[name := Component(r[name].class_, status, message)] else r
  }

  /** A nil error leaves the message as it was. */
  function Message(r: Registry, name: string, error: Option<string>): string {
    if error.Some? then error.value else if name in r then r[name].message else ""
  }

  predicate Ready(r: Registry) {
    forall name :: name in r && r[name].class_.Critical? ==> r[name].status.Healthy?
  }

  // ---------------------------------------------------------------- ParallelInit

  /** Where a component's goroutine is: running its function, back from it, past its look at the
      health report, or finished. */
  datatype Phase = Running | Succeeded | Erred | Looked(class_: Option<Class>) | Finished

  /** What each function will return: no error, or an error. */
  type Inits = map<string, Option<string>>

  datatype State = State(registry: Registry, phases: map<string, Phase>, errors: seq<string>)

  datatype Action = Return(name: string) | Look(name: string) | Write(name: string)

  function Next(inits: Inits, s: State, a: Action): Option<State> {
    if a.name !in inits || a.name !in s.phases then None
    else
      var name, phase := a.name, s.phases[a.name];
      match a
      case Return(_) =>
        if !phase.Running? then None
        else Some(s.(phases := s.phases[name := if inits[name].None? then Succeeded else Erred]))
      case Look(_) =>
        if !phase.Erred? then None
        else Some(s.(phases := s.phases[name := Looked(if name in s.registry then Some(s.registry[name].class_) else None)]))
      case Write(_) =>
        var done := s.(phases := s.phases[name := Finished]);
        if phase.Succeeded? then Some(done.(registry := Set(s.registry, name, Healthy, "")))
        else if !phase.Looked? || inits[name].None? then None
        else if phase.class_ == Some(Critical) then Some(done.(errors := s.errors + [name]))
        else if phase.class_ == Some(Important) then Some(done.(registry := Set(s.registry, name, Degraded, inits[name].value)))
        else Some(done.(registry := Set(s.registry, name, Disabled, inits[name].value)))
  }

  function Exec(inits: Inits, s: State, actions: seq<Action>): Option<State>
    decreases |actions|
  {
    if actions == [] then Some(s)
    else
      match Next(inits, s, actions[0])
      case None => None
      case Some(s') => Exec(inits, s', actions[1..])
  }

  ghost predicate Initial(inits: Inits, s: State) {
    s.errors == [] && s.phases.Keys == inits.Keys && forall name :: name in s.phases ==> s.phases[name].Running?
  }

  /** The goroutines have all finished, which is when ParallelInit returns. */
  ghost predicate AllFinished(s: State) { forall name :: name in s.phases ==> s.phases[name].Finished? }

  /** What a component becomes, by its class and its function's result alone. */
  function Outcome(c: Component, result: Option<string>): Component {
    if result.None? then Component(c.class_, Healthy, "")
    else
      match c.class_
      case Critical => c
      case Important => Component(c.class_, Degraded, result.value)
      case Optional => Component(c.class_, Disabled, result.value)
  }

  /** By its class: a success makes a component healthy; an error degrades an important one, disables
      an optional one, and leaves a critical one as it was. */
  ghost predicate StatusByClass(before: Component, after: Component, result: Option<string>) {
    && after.class_ == before.class_
    && (result == None ==> after.status == Healthy && after.message == "")
    && (result.Some? && before.class_ == Important ==> after.status == Degraded && after.message == result.value)
    && (result.Some? && before.class_ == Optional ==> after.status == Disabled && after.message == result.value)
    && (result.Some? && before.class_ == Critical ==> after == before)
  }

  /** A registered critical component's function failed. */
  predicate Fatal(r: Registry, inits: Inits, name: string) {
    name in inits && inits[name].Some? && name in r && r[name].class_.Critical?
  }

  ghost predicate PhaseOk(start: Registry, name: string, phase: Phase, result: Option<string>) {
    match phase
    case Running => true
    case Succeeded => result.None?
    case Erred => result.Some?
    case Looked(c) => result.Some? && c == if name in start then Some(start[name].class_) else None
    case Finished => true
  }

  predicate Ended(s: State, name: string) { name in s.phases && s.phases[name].Finished? }

  /** A component whose goroutine has finished has its outcome, any other is as it was. */
  ghost predicate RegistryOk(inits: Inits, start: Registry, s: State)
    requires s.phases.Keys == inits.Keys
  {
    && s.registry.Keys == start.Keys
    && forall name :: name in start ==>
         s.registry[name] == (if Ended(s, name) then Outcome(start[name], inits[name]) else start[name])
  }

  ghost predicate ErrorsOk(inits: Inits, start: Registry, s: State) {
    && (forall name :: name in s.errors <==> Ended(s, name) && Fatal(start, inits, name))
    && (forall i, j :: 0 <= i < j < |s.errors| ==> s.errors[i] != s.errors[j])
  }

  ghost predicate Inv(inits: Inits, start: Registry, s: State) {
    && s.phases.Keys == inits.Keys
    && (forall name :: name in s.phases ==> PhaseOk(start, name, s.phases[name], inits[name]))
    && RegistryOk(inits, start, s) && ErrorsOk(inits, start, s)
  }

  lemma {:induction false} WriteKeepsRegistry(inits: Inits, start: Registry, s: State, name: string)
    requires Inv(inits, start, s) && Next(inits, s, Write(name)).Some?
    ensures RegistryOk(inits, start, Next(inits, s, Write(name)).value)
  {
    assert PhaseOk(start, name, s.phases[name], inits[name]);
  }

  lemma {:induction false} WriteKeepsErrors(inits: Inits, start: Registry, s: State, name: string)
    requires Inv(inits, start, s) && Next(inits, s, Write(name)).Some?
    ensures ErrorsOk(inits, start, Next(inits, s, Write(name)).value)
  {
    assert PhaseOk(start, name, s.phases[name], inits[name]);
    var s' := Next(inits, s, Write(name)).value;
    assert forall n :: Ended(s', n) <==> Ended(s, n) || n == name;
    assert s'.errors == s.errors || s'.errors == s.errors + [name];
  }

  lemma {:induction false} StepKeeps(inits: Inits, start: Registry, s: State, a: Action)
    requires Inv(inits, start, s) && Next(inits, s, a).Some?
    ensures Inv(inits, start, Next(inits, s, a).value)
  {
    assert PhaseOk(start, a.name, s.phases[a.name], inits[a.name]);
    if a.Write? {
      WriteKeepsRegistry(inits, start, s, a.name);
      WriteKeepsErrors(inits, start, s, a.name);
    }
  }

  lemma {:induction false} ExecKeeps(inits: Inits, start: Registry, s: State, actions: seq<Action>)
    requires Inv(inits, start, s) && Exec(inits, s, actions).Some?
    ensures Inv(inits, start, Exec(inits, s, actions).value)
    decreases |actions|
  {
    if actions != [] {
      StepKeeps(inits, start, s, actions[0]);
      ExecKeeps(inits, start, Next(inits, s, actions[0]).value, actions[1..]);
    }
  }

  /** Whatever the schedule: each component ends as its class and its function's result say, the
      others as they were; ParallelInit fails exactly when a registered critical component's
      function did, and reports each such component once. */
  lemma {:induction false} ScheduleDoesNotMatter(inits: Inits, s: State, actions: seq<Action>)
    requires Initial(inits, s) && Exec(inits, s, actions).Some? && AllFinished(Exec(inits, s, actions).value)
    ensures var e := Exec(inits, s, actions).value;
      && e.registry.Keys == s.registry.Keys
      && (forall name :: name in e.registry ==>
            e.registry[name] == (if name in inits then Outcome(s.registry[name], inits[name]) else s.registry[name]))
      && (forall name :: name in s.registry && name in inits ==> StatusByClass(s.registry[name], e.registry[name], inits[name]))
      && (forall name :: name in e.errors <==> Fatal(s.registry, inits, name))
      && (forall i, j :: 0 <= i < j < |e.errors| ==> e.errors[i] != e.errors[j])
      && (e.errors != [] <==> exists name :: Fatal(s.registry, inits, name))
  {
    ExecKeeps(inits, s.registry, s, actions);
    var e := Exec(inits, s, actions).value;
    ErrorsNonEmpty(e.errors);
  }

  lemma {:induction false} ErrorsNonEmpty(errors: seq<string>)
    ensures errors != [] <==> exists name :: name in errors
  {
    if errors != [] { assert errors[0] in errors; }
  }

  /** A success that covered every critical component leaves the registry ready; a failure of a
      fresh registry never does. */
  lemma {:induction false} ReadyIff(inits: Inits, s: State, actions: seq<Action>)
    requires Initial(inits, s) && Exec(inits, s, actions).Some? && AllFinished(Exec(inits, s, actions).value)
    requires forall name :: name in s.registry && s.registry[name].class_.Critical? ==> name in inits
    requires forall name :: name in s.registry ==> s.registry[name].status.Initializing?
    ensures Ready(Exec(inits, s, actions).value.registry) <==> Exec(inits, s, actions).value.errors == []
  {
    ScheduleDoesNotMatter(inits, s, actions);
    var e := Exec(inits, s, actions).value;
    ReadyOrNot(e.registry);
    if SomeNotReady(e.registry, e.registry.Keys) {
      var name :| name in e.registry.Keys && NotReady(e.registry, name);
      assert e.registry[name] == Outcome(s.registry[name], inits[name]);
      assert Fatal(s.registry, inits, name);
    }
    if exists name :: Fatal(s.registry, inits, name) {
      var name :| Fatal(s.registry, inits, name);
      assert name in e.registry.Keys && NotReady(e.registry, name);
    }
  }

  // ---------------------------------------------------------------- one goroutine, and one schedule

  /** Every critical component but the named one is healthy. */
  predicate ReadyBut(r: Registry, name: string) {
    forall n :: n in r && n != name && r[n].class_.Critical? ==> r[n].status.Healthy?
  }

  /** Only the named component differs. */
  ghost predicate SameBut(before: Registry, after: Registry, name: string) {
    forall n :: n != name ==> (n in before <==> n in after) && (n in before ==> before[n] == after[n])
  }

  /** The steps of a component's goroutine. */
  function StepsOf(name: string, result: Option<string>): seq<Action> {
    if result.None? then [Return(name), Write(name)] else [Return(name), Look(name), Write(name)]
  }

  lemma {:induction false} ExecStep(inits: Inits, s: State, a: Action, rest: seq<Action>)
    requires Next(inits, s, a).Some?
    ensures Exec(inits, s, [a] + rest) == Exec(inits, Next(inits, s, a).value, rest)
  {
    assert ([a] + rest)[1..] == rest;
  }

  /** Run on its own, a goroutine leaves the component with its outcome, the others as they were,
      and reports an error exactly for a registered critical component whose function failed. */
  lemma {:induction false} GoroutineAlone(inits: Inits, s: State, name: string)
    requires name in inits && name in s.phases && s.phases[name].Running?
    ensures var e := Exec(inits, s, StepsOf(name, inits[name]));
      && e.Some? && SameBut(s.registry, e.value.registry, name)
      && (name in s.registry <==> name in e.value.registry)
      && (name in s.registry ==> e.value.registry[name] == Outcome(s.registry[name], inits[name]))
      && e.value.errors == s.errors + (if Fatal(s.registry, inits, name) then [name] else [])
      && e.value.phases == s.phases[name := Finished]
  {
    var result, p := inits[name], s.phases;
    var s1 := Next(inits, s, Return(name)).value;
    if result.None? {
      assert StepsOf(name, result) == [Return(name)] + ([Write(name)] + []);
      ExecStep(inits, s, Return(name), [Write(name)] + []);
      ExecStep(inits, s1, Write(name), []);
      assert p[name := Succeeded][name := Finished] == p[name := Finished];
    } else {
      var looked := Looked(if name in s.registry then Some(s.registry[name].class_) else None);
      var s2 := Next(inits, s1, Look(name)).value;
      assert StepsOf(name, result) == [Return(name)] + ([Look(name)] + ([Write(name)] + []));
      ExecStep(inits, s, Return(name), [Look(name)] + ([Write(name)] + []));
      ExecStep(inits, s1, Look(name), [Write(name)] + []);
      ExecStep(inits, s2, Write(name), []);
      assert p[name := Erred][name := looked][name := Finished] == p[name := Finished];
    }
  }

  /** The components in `done` have their outcome, the others are as they were; the failures of
      critical ones are reported once each. */
  ghost predicate Initialised(inits: Inits, start: Registry, now: Registry, errors: seq<string>, done: set<string>)
    requires done <= inits.Keys
  {
    && now.Keys == start.Keys
    && (forall name :: name in now ==> now[name] == (if name in done then Outcome(start[name], inits[name]) else start[name]))
    && (forall name :: name in errors <==> name in done && Fatal(start, inits, name))
    && (forall i, j :: 0 <= i < j < |errors| ==> errors[i] != errors[j])
  }

  lemma {:induction false} OneMoreInitialised(inits: Inits, start: Registry, before: Registry, after: Registry, asked: seq<string>,
                                              errors: seq<string>, done: set<string>, name: string)
    requires done <= inits.Keys && Initialised(inits, start, before, asked, done) && name in inits && name !in done
    requires after.Keys == before.Keys && SameBut(before, after, name)
    requires name in after ==> after[name] == Outcome(before[name], inits[name])
    requires errors == if Fatal(before, map[name := inits[name]], name) then asked + [name] else asked
    ensures Initialised(inits, start, after, errors, done + {name})
  {
    forall i | 0 <= i < |asked| ensures asked[i] != name { assert asked[i] in asked; }
  }

  class ComponentRegistry {
    var components: Registry

    constructor ()
      ensures components == map[]
    {
      components := map[];
    }

    /** The registry is then ready if the component is not critical and the others are. */
    method Register(name: string, class_: Class)
      modifies this
      ensures SameBut(old(components), components, name) && name in components
      ensures components[name] == Component(class_, Initializing, "")
      ensures Ready(components) <==> !class_.Critical? && ReadyBut(old(components), name)
    {
      components := components[name := Component(class_, Initializing, "")];
      ReadyByOne(components, name);
    }

    /** A healthy component no longer keeps the registry from being ready. */
    method SetHealthy(name: string)
      modifies this
      ensures components == Set(old(components), name, Healthy, "") && SameBut(old(components), components, name)
      ensures Ready(components) <==> ReadyBut(old(components), name)
    {
      if name in components { components := components[name := Component(components[name].class_, Healthy, "")]; }
      ReadyByOne(components, name);
    }

    method SetDegraded(name: string, error: Option<string>)
      modifies this
      ensures components == Set(old(components), name, Degraded, Message(old(components), name, error))
      ensures SameBut(old(components), components, name)
    {
      SetProblem(name, Degraded, error);
    }

    method SetFailed(name: string, error: Option<string>)
      modifies this
      ensures components == Set(old(components), name, Failed, Message(old(components), name, error))
      ensures SameBut(old(components), components, name)
    {
      SetProblem(name, Failed, error);
    }

    method SetDisabled(name: string, error: Option<string>)
      modifies this
      ensures components == Set(old(components), name, Disabled, Message(old(components), name, error))
      ensures SameBut(old(components), components, name)
    {
      SetProblem(name, Disabled, error);
    }

    /** A component that is not healthy, and its class is kept: the registry is ready exactly if it
        is not a critical component and the others are. */
    method SetProblem(name: string, status: Status, error: Option<string>)
      requires !status.Healthy?
      modifies this
      ensures components == Set(old(components), name, status, Message(old(components), name, error))
      ensures SameBut(old(components), components, name)
      ensures Ready(components) <==> ReadyBut(old(components), name) && (name in components ==> !components[name].class_.Critical?)
    {
      if name in components {
        var c := components[name];
        components := components[name := Component(c.class_, status, if error.Some? then error.value else c.message)];
      }
      ReadyByOne(components, name);
    }

    method IsReady() returns (ready: bool)
      ensures ready == Ready(components)
    {
      var rest := components.Keys;
      while rest != {}
        invariant rest <= components.Keys
        invariant forall name :: name in components.Keys - rest && components[name].class_.Critical? ==> components[name].status.Healthy?
        decreases rest
      {
        var name := Pick(rest);
        if components[name].class_.Critical? && !components[name].status.Healthy? { return false; }
        rest := rest - {name};
      }
      return true;
    }

    /** The body of a component's goroutine, when nothing interleaves with it. */
    method InitComponent(name: string, result: Option<string>) returns (critical: bool)
      modifies this
      ensures components.Keys == old(components).Keys && SameBut(old(components), components, name)
      ensures name in components ==> components[name] == Outcome(old(components)[name], result)
      ensures name in components ==> StatusByClass(old(components)[name], components[name], result)
      ensures critical <==> Fatal(old(components), map[name := result], name)
    {
      critical := false;
      if result.Some? {
        if name in components && components[name].class_.Critical? {
          critical := true;
        } else if name in components && components[name].class_.Important? {
          SetDegraded(name, result);
        } else {
          SetDisabled(name, result);
        }
      } else {
        SetHealthy(name);
      }
    }

    /** ParallelInit under the schedule that runs one goroutine after the other, in any order: the
        registry and the errors are those that `ScheduleDoesNotMatter` gives for every schedule. */
    method ParallelInit(inits: Inits) returns (errors: seq<string>)
      modifies this
      ensures components.Keys == old(components).Keys
      ensures forall name :: name in components ==>
                components[name] == (if name in inits then Outcome(old(components)[name], inits[name]) else old(components)[name])
      ensures forall name :: name in components && name in inits ==> StatusByClass(old(components)[name], components[name], inits[name])
      ensures forall name :: name in errors <==> Fatal(old(components), inits, name)
      ensures forall i, j :: 0 <= i < j < |errors| ==> errors[i] != errors[j]
    {
      errors := [];
      ghost var start := components;
      var rest := inits.Keys;
      while rest != {}
        invariant rest <= inits.Keys && Initialised(inits, start, components, errors, inits.Keys - rest)
        decreases rest
      {
        var name := Pick(rest);
        ghost var before, asked := components, errors;
        var critical := InitComponent(name, inits[name]);
        if critical { errors := errors + [name]; }
        OneMoreInitialised(inits, start, before, components, asked, errors, inits.Keys - rest, name);
        assert inits.Keys - (rest - {name}) == inits.Keys - rest + {name};
        rest := rest - {name};
      }
      assert inits.Keys - {} == inits.Keys;
    }
  }

  lemma {:induction false} ReadyByOne(r: Registry, name: string)
    ensures Ready(r) <==> ReadyBut(r, name) && (name in r && r[name].class_.Critical? ==> r[name].status.Healthy?)
  {
  }

  // ---------------------------------------------------------------- health

  datatype Overall = AllHealthy | SomeDegraded | Unhealthy

  datatype Health = Health(status: Status, message: string)

  /** The database's answer, or that it is unhealthy; the connections in use and the maximum. */
  datatype Pool = Pool(inUse: int, max: int)

  predicate PoolDegraded(p: Pool) { p.max > 0 && p.inUse >= p.max - 2 }

  /** One component's effect on the overall status. */
  function Merge(overall: Overall, c: Component): Overall {
    if c.class_.Critical? && !c.status.Healthy? then Unhealthy
    else if (c.status.Disabled? || c.status.Degraded?) && overall.AllHealthy? then SomeDegraded
    else overall
  }

  predicate Problem(r: Registry, name: string) {
    name in r && (r[name].status.Disabled? || r[name].status.Degraded?)
  }

  /** The loop over the health report, in any order. */
  method MergeReport(overall: Overall, report: Registry) returns (merged: Overall)
    ensures merged.Unhealthy? <==> overall.Unhealthy? || !Ready(report)
    ensures merged.AllHealthy? <==> overall.AllHealthy? && Ready(report) && !exists name :: Problem(report, name)
  {
    merged := overall;
    var rest := report.Keys;
    while rest != {}
      invariant rest <= report.Keys
      invariant merged.Unhealthy? <==> overall.Unhealthy? || SomeNotReady(report, report.Keys - rest)
      invariant merged.AllHealthy? <==>
        overall.AllHealthy? && !SomeNotReady(report, report.Keys - rest) && !SomeProblem(report, report.Keys - rest)
      decreases rest
    {
      var name := Pick(rest);
      OneMore(report, report.Keys - rest, name);
      assert report.Keys - (rest - {name}) == report.Keys - rest + {name};
      merged := Merge(merged, report[name]);
      rest := rest - {name};
    }
    assert report.Keys - rest == report.Keys;
    ReadyOrNot(report);
  }

  predicate SomeNotReady(r: Registry, names: set<string>) { exists name :: name in names && NotReady(r, name) }

  predicate SomeProblem(r: Registry, names: set<string>) { exists name :: name in names && Problem(r, name) }

  lemma {:induction false} OneMore(r: Registry, names: set<string>, name: string)
    ensures SomeNotReady(r, names + {name}) <==> SomeNotReady(r, names) || NotReady(r, name)
    ensures SomeProblem(r, names + {name}) <==> SomeProblem(r, names) || Problem(r, name)
  {
    assert name in names + {name};
    if SomeNotReady(r, names) {
      var n :| n in names && NotReady(r, n);
      assert n in names + {name};
    }
    if SomeProblem(r, names) {
      var n :| n in names && Problem(r, n);
      assert n in names + {name};
    }
  }

  lemma {:induction false} ReadyOrNot(r: Registry)
    ensures Ready(r) <==> !SomeNotReady(r, r.Keys)
    ensures SomeProblem(r, r.Keys) <==> exists name :: Problem(r, name)
  {
    if !Ready(r) {
      var name :| name in r && r[name].class_.Critical? && !r[name].status.Healthy?;
      assert NotReady(r, name) && name in r.Keys;
    }
    if exists name :: Problem(r, name) {
      var name :| Problem(r, name);
      assert name in r.Keys;
    }
  }

  predicate NotReady(r: Registry, name: string) { name in r && r[name].class_.Critical? && !r[name].status.Healthy? }

  /** performChecks: the overall status. `registry` and `pool` may be absent. */
  method PerformChecks(databaseUnhealthy: bool, registry: Option<Registry>, pool: Option<Pool>) returns (overall: Overall)
    ensures overall.Unhealthy? <==>
      databaseUnhealthy ||
      (registry.Some? && exists name :: name in registry.value && registry.value[name].class_ == Critical && registry.value[name].status != Healthy)
    ensures overall.AllHealthy? <==>
      && !databaseUnhealthy
      && (registry.Some? ==> forall name :: name in registry.value ==>
            && (registry.value[name].class_ == Critical ==> registry.value[name].status == Healthy)
            && registry.value[name].status != Disabled && registry.value[name].status != Degraded)
      && (pool.Some? && pool.value.max > 0 ==> pool.value.inUse < pool.value.max - 2)
  {
    overall := if databaseUnhealthy then Unhealthy else AllHealthy;
    if registry.Some? {
      overall := MergeReport(overall, registry.value);
      assert forall name :: name in registry.value && (registry.value[name].status == Disabled || registry.value[name].status == Degraded) ==>
               Problem(registry.value, name);
    }
    if pool.Some? && PoolDegraded(pool.value) && overall.AllHealthy? { overall := SomeDegraded; }
  }
}
