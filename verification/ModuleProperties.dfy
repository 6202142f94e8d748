/** Which modules can ever become active, and what the guarded steps keep. */
module ModuleProperties {
  import opened Common
  import opened ModuleModel
  import opened Sums

  // ----- paths -----

  lemma DependencyIsReached(reg: Registry, m: Code, d: Code)
    requires m in reg && d in reg[m].required
    ensures Reaches(reg, m, d)
  {
    assert Path(reg, [m, d]);
  }

  lemma ReachesTransitively(reg: Registry, a: Code, b: Code, c: Code)
    requires Reaches(reg, a, b) && Reaches(reg, b, c)
    ensures Reaches(reg, a, c)
  {
    var p :| Path(reg, p) && 2 <= |p| && p[0] == a && p[|p| - 1] == b;
    var q :| Path(reg, q) && 2 <= |q| && q[0] == b && q[|q| - 1] == c;
    var both := p + q[1..];
    assert forall i :: 0 <= i < |p| ==> both[i] == p[i];
    assert forall i :: |p| - 1 <= i < |both| ==> both[i] == q[i - (|p| - 1)];
    assert Path(reg, both);
  }

  lemma FirstDependency(reg: Registry, a: Code, b: Code) returns (d: Code)
    requires Reaches(reg, a, b)
    ensures a in reg && d in reg[a].required && (d == b || Reaches(reg, d, b))
  {
    var p :| Path(reg, p) && 2 <= |p| && p[0] == a && p[|p| - 1] == b;
    d := p[1];
    var rest := p[1..];
    assert forall i :: 0 <= i < |rest| ==> rest[i] == p[i + 1];
    assert Path(reg, rest);
    assert p[0] in reg;
  }

  // ----- only well-founded modules become active -----

  ghost predicate OnlyWellFounded(reg: Registry, st: Statuses) {
    forall m :: IsActive(st, m) ==> WellFoundedModule(reg, m)
  }

  /** A module all of whose dependencies are well-founded is well-founded itself. */
  lemma WellFoundedFromDependencies(reg: Registry, m: Code)
    requires m in reg
    requires forall k :: 0 <= k < |reg[m].required| ==> WellFoundedModule(reg, reg[m].required[k])
    ensures WellFoundedModule(reg, m)
  {
    forall x | Reaches(reg, m, x) ensures x in reg && !Reaches(reg, x, x) {
      var d := FirstDependency(reg, m, x);
      assert WellFoundedModule(reg, d);
    }
    if Reaches(reg, m, m) {
      var d := FirstDependency(reg, m, m);
    }
  }

  lemma {:induction false} EnableEachKeeps(reg: Registry, st: Statuses, codes: seq<Code>, status: Status)
    requires OnlyWellFounded(reg, st) && status in {Enabled, Trial}
    requires EnableEach(reg, st, codes, status).Ok?
    ensures OnlyWellFounded(reg, EnableEach(reg, st, codes, status).value)
    ensures Closed(reg, st) ==> Closed(reg, EnableEach(reg, st, codes, status).value)
    decreases |codes|
  {
    if codes != [] {
      WellFoundedFromDependencies(reg, codes[0]);
      EnableEachKeeps(reg, st[codes[0] := status], codes[1..], status);
    }
  }

  lemma PlanKeeps(reg: Registry, st: Statuses, codes: seq<Code>, asTrial: bool)
    requires OnlyWellFounded(reg, st) && PlanStep(reg, st, codes, asTrial).Ok?
    ensures OnlyWellFounded(reg, PlanStep(reg, st, codes, asTrial).value)
    ensures Closed(reg, st) ==> Closed(reg, PlanStep(reg, st, codes, asTrial).value)
  {
    var provisioned := Provision(reg, st);
    assert forall m :: IsActive(provisioned, m) <==> IsActive(st, m);
    EnableEachKeeps(reg, provisioned, SortModuleCodes(codes), if asTrial then Trial else Enabled);
  }

  lemma StepKeeps(reg: Registry, st: Statuses, a: Action)
    requires OnlyWellFounded(reg, st) && !a.Patch?
    ensures OnlyWellFounded(reg, Next(reg, st, a))
    ensures Closed(reg, st) ==> Closed(reg, Next(reg, st, a))
  {
    match a
    case Enable(code) =>
      if code in reg && DependenciesMet(reg, st, code) { WellFoundedFromDependencies(reg, code); }
    case Disable(code) =>
    case EnablePlan(codes, asTrial) =>
      if PlanStep(reg, st, codes, asTrial).Ok? { PlanKeeps(reg, st, codes, asTrial); }
  }

  /** On every guarded run from nothing, the active set is closed and holds well-founded modules only. */
  lemma {:induction false} EveryGuardedRunKeeps(reg: Registry, st: Statuses, run: seq<Action>)
    requires OnlyWellFounded(reg, st) && Closed(reg, st) && Guarded(run)
    ensures OnlyWellFounded(reg, After(reg, st, run)) && Closed(reg, After(reg, st, run))
    decreases |run|
  {
    if run != [] {
      StepKeeps(reg, st, run[0]);
      EveryGuardedRunKeeps(reg, Next(reg, st, run[0]), run[1..]);
    }
  }

  // ----- every well-founded module can become active -----

  ghost function Reachable(reg: Registry, m: Code): set<Code> {
    set x | x in reg && Reaches(reg, m, x)
  }

  lemma DependencyReachesLess(reg: Registry, m: Code, d: Code)
    requires WellFoundedModule(reg, m) && d in reg[m].required
    ensures WellFoundedModule(reg, d) && |Reachable(reg, d)| < |Reachable(reg, m)|
  {
    DependencyIsReached(reg, m, d);
    forall x | Reaches(reg, d, x) ensures Reaches(reg, m, x) {
      ReachesTransitively(reg, m, d, x);
    }
    assert d in Reachable(reg, m) && d !in Reachable(reg, d);
    assert Reachable(reg, d) <= Reachable(reg, m) - {d};
    SubsetSize(Reachable(reg, d), Reachable(reg, m) - {d});
  }

  lemma {:induction false} AfterConcat(reg: Registry, st: Statuses, r1: seq<Action>, r2: seq<Action>)
    ensures After(reg, st, r1 + r2) == After(reg, After(reg, st, r1), r2)
    decreases |r1|
  {
    if r1 == [] {
      assert r1 + r2 == r2;
    } else {
      assert (r1 + r2)[1..] == r1[1..] + r2;
      AfterConcat(reg, Next(reg, st, r1[0]), r1[1..], r2);
    }
  }

  ghost predicate Extends(st: Statuses, next: Statuses) {
    forall x :: IsActive(st, x) ==> IsActive(next, x)
  }

  lemma JoinRuns(reg: Registry, st: Statuses, first: seq<Action>, second: seq<Action>)
    requires Guarded(first) && Extends(st, After(reg, st, first))
    requires Guarded(second) && Extends(After(reg, st, first), After(reg, After(reg, st, first), second))
    ensures Guarded(first + second) && Extends(st, After(reg, st, first + second))
    ensures After(reg, st, first + second) == After(reg, After(reg, st, first), second)
  {
    AfterConcat(reg, st, first, second);
  }

  ghost predicate FirstActive(reg: Registry, st: Statuses, m: Code, n: nat) {
    m in reg && n <= |reg[m].required| && forall k :: 0 <= k < n ==> IsActive(st, reg[m].required[k])
  }

  /** A guarded run that loses nothing active and leaves the first n dependencies of m active. */
  ghost predicate Prepares(reg: Registry, st: Statuses, run: seq<Action>, m: Code, n: nat) {
    Guarded(run) && Extends(st, After(reg, st, run)) && FirstActive(reg, After(reg, st, run), m, n)
  }

  lemma OneMoreActive(reg: Registry, mid: Statuses, end: Statuses, m: Code, n: nat)
    requires FirstActive(reg, mid, m, n) && n < |reg[m].required|
    requires Extends(mid, end) && IsActive(end, reg[m].required[n])
    ensures FirstActive(reg, end, m, n + 1)
  {
  }

  lemma JoinActive(reg: Registry, st: Statuses, first: seq<Action>, second: seq<Action>, m: Code, n: nat)
    requires Prepares(reg, st, first, m, n) && n < |reg[m].required|
    requires Guarded(second) && Extends(After(reg, st, first), After(reg, After(reg, st, first), second))
    requires IsActive(After(reg, After(reg, st, first), second), reg[m].required[n])
    ensures Prepares(reg, st, first + second, m, n + 1)
  {
    OneMoreActive(reg, After(reg, st, first), After(reg, After(reg, st, first), second), m, n);
    JoinRuns(reg, st, first, second);
  }

  /** Enabling the next dependency of m, its own dependencies first, after a run for those before it. */
  lemma {:induction false} EnableNext(reg: Registry, st: Statuses, first: seq<Action>, m: Code, n: nat)
    returns (run: seq<Action>)
    requires WellFoundedModule(reg, m) && n < |reg[m].required| && Prepares(reg, st, first, m, n)
    ensures Prepares(reg, st, run, m, n + 1)
    decreases |Reachable(reg, m)|, 0
  {
    DependencyReachesLess(reg, m, reg[m].required[n]);
    var second := EnableWithDependencies(reg, After(reg, st, first), reg[m].required[n]);
    JoinActive(reg, st, first, second, m, n);
    run := first + second;
  }

  /** Enabling the first n dependencies of m, one after the other. */
  lemma {:induction false} EnableDependencies(reg: Registry, st: Statuses, m: Code, n: nat) returns (run: seq<Action>)
    requires WellFoundedModule(reg, m) && n <= |reg[m].required|
    ensures Prepares(reg, st, run, m, n)
    decreases |Reachable(reg, m)|, 1, n
  {
    if n == 0 {
      run := [];
    } else {
      var first := EnableDependencies(reg, st, m, n - 1);
      run := EnableNext(reg, st, first, m, n - 1);
    }
  }

  /** From any statuses a well-founded module can be enabled by guarded steps, losing nothing active. */
  lemma {:induction false} EnableWithDependencies(reg: Registry, st: Statuses, m: Code) returns (run: seq<Action>)
    requires WellFoundedModule(reg, m)
    ensures Guarded(run) && Extends(st, After(reg, st, run)) && IsActive(After(reg, st, run), m)
    decreases |Reachable(reg, m)|, 2
  {
    var first := EnableDependencies(reg, st, m, |reg[m].required|);
    var mid := After(reg, st, first);
    assert DependenciesMet(reg, mid, m);
    var last := [Enable(m)];
    assert After(reg, mid, last) == Next(reg, mid, Enable(m)) by {
      assert last[1..] == [];
    }
    JoinRuns(reg, st, first, last);
    run := first + last;
  }

  /**
   * A module can be brought to life by guarded steps from nothing if and only if everything it
   * depends on is known and nothing it depends on, itself included, lies on a dependency cycle.
   */
  lemma CanBecomeActiveIff(reg: Registry, m: Code)
    ensures (exists run :: Guarded(run) && IsActive(After(reg, map[], run), m)) <==> WellFoundedModule(reg, m)
  {
    if run :| Guarded(run) && IsActive(After(reg, map[], run), m) {
      EveryGuardedRunKeeps(reg, map[], run);
    }
    if WellFoundedModule(reg, m) {
      var run := EnableWithDependencies(reg, map[], m);
    }
  }

  // ----- modules with inactive definitions -----

  ghost function ActiveModules(st: Statuses): set<Code> {
    set m | m in st && IsActive(st, m)
  }

  /** The active modules that depend on the given one. */
  ghost function ActiveAbove(reg: Registry, st: Statuses, d: Code): set<Code> {
    set m | m in st && IsActive(st, m) && Reaches(reg, m, d)
  }

  /** Nothing new is active, and of the modules with inactive definitions at most d was switched off. */
  ghost predicate OnlySwitchedOff(reg: Registry, st: Statuses, next: Statuses, d: Code) {
    && (forall m :: IsActive(next, m) ==> IsActive(st, m))
    && (forall m :: IsActive(st, m) && m in reg && !reg[m].isActive && m != d ==> IsActive(next, m))
  }

  lemma DisableAlone(reg: Registry, st: Statuses, d: Code)
    requires IsActive(st, d) && !HasActiveDependent(reg, st, d)
    ensures After(reg, st, [Disable(d)]) == st[d := Disabled]
    ensures OnlySwitchedOff(reg, st, st[d := Disabled], d) && !IsActive(st[d := Disabled], d)
  {
    assert [Disable(d)][1..] == [];
    assert After(reg, st[d := Disabled], []) == st[d := Disabled];
  }

  lemma DependentIsHigher(reg: Registry, st: Statuses, m: Code, d: Code)
    requires OnlyWellFounded(reg, st) && IsActive(st, m) && m in reg && d in reg[m].required
    ensures |ActiveAbove(reg, st, m)| < |ActiveAbove(reg, st, d)|
  {
    DependencyIsReached(reg, m, d);
    forall x | x in ActiveAbove(reg, st, m) ensures x in ActiveAbove(reg, st, d) {
      ReachesTransitively(reg, x, m, d);
    }
    assert WellFoundedModule(reg, m);
    assert m in ActiveAbove(reg, st, d) && m !in ActiveAbove(reg, st, m);
    assert ActiveAbove(reg, st, m) <= ActiveAbove(reg, st, d) - {m};
    SubsetSize(ActiveAbove(reg, st, m), ActiveAbove(reg, st, d) - {m});
  }

  lemma SwitchingOffShrinks(reg: Registry, st: Statuses, next: Statuses, m: Code)
    requires OnlySwitchedOff(reg, st, next, m) && IsActive(st, m) && !IsActive(next, m)
    ensures |ActiveModules(next)| < |ActiveModules(st)|
  {
    assert ActiveModules(next) <= ActiveModules(st) - {m};
    SubsetSize(ActiveModules(next), ActiveModules(st) - {m});
    assert m in ActiveModules(st);
  }

  lemma GuardedConcat(first: seq<Action>, second: seq<Action>)
    requires Guarded(first) && Guarded(second)
    ensures Guarded(first + second)
  {
  }

  /** A module can be switched off after its dependents, and theirs, sparing all inactive definitions. */
  lemma {:induction false} DisableDown(reg: Registry, st: Statuses, d: Code) returns (run: seq<Action>)
    requires OnlyWellFounded(reg, st) && IsActive(st, d)
    ensures Guarded(run) && !IsActive(After(reg, st, run), d) && OnlySwitchedOff(reg, st, After(reg, st, run), d)
    decreases |ActiveModules(st)|, |ActiveAbove(reg, st, d)|
  {
    if HasActiveDependent(reg, st, d) {
      var m :| m in reg && reg[m].isActive && d in reg[m].required && IsActive(st, m);
      DependentIsHigher(reg, st, m, d);
      var first := DisableDown(reg, st, m);
      var mid := After(reg, st, first);
      SwitchingOffShrinks(reg, st, mid, m);
      var second := [];
      if IsActive(mid, d) { second := DisableDown(reg, mid, d); }
      AfterConcat(reg, st, first, second);
      GuardedConcat(first, second);
      run := first + second;
    } else {
      DisableAlone(reg, st, d);
      run := [Disable(d)];
    }
  }

  /** An inactive definition with dependencies: its module can be brought to life and then lose one of them. */
  lemma LosesDependency(reg: Registry, m: Code) returns (run: seq<Action>)
    requires m in reg && !reg[m].isActive && WellFoundedModule(reg, m) && reg[m].required != []
    ensures Guarded(run) && !FullyClosed(reg, After(reg, map[], run))
  {
    var up := EnableWithDependencies(reg, map[], m);
    var st := After(reg, map[], up);
    EveryGuardedRunKeeps(reg, map[], up);
    var d := reg[m].required[0];
    DependencyIsReached(reg, m, d);
    var down := [];
    if IsActive(st, d) { down := DisableDown(reg, st, d); }
    AfterConcat(reg, map[], up, down);
    GuardedConcat(up, down);
    run := up + down;
    assert IsActive(After(reg, map[], run), m) && !IsActive(After(reg, map[], run), d);
  }

  /**
   * Every guarded run from nothing leaves every active module with its required modules active if and
   * only if no module that could be activated has an inactive definition with dependencies.
   */
  lemma AlwaysFullyClosedIff(reg: Registry)
    ensures (forall run :: Guarded(run) ==> FullyClosed(reg, After(reg, map[], run))) <==>
      forall m :: m in reg && !reg[m].isActive && WellFoundedModule(reg, m) ==> reg[m].required == []
  {
    if m :| m in reg && !reg[m].isActive && WellFoundedModule(reg, m) && reg[m].required != [] {
      var run := LosesDependency(reg, m);
    } else {
      forall run | Guarded(run) ensures FullyClosed(reg, After(reg, map[], run)) {
        EveryGuardedRunKeeps(reg, map[], run);
      }
    }
  }

  // ----- the unguarded edit -----

  /** All the module requires, itself aside, is active. */
  predicate OthersMet(reg: Registry, st: Statuses, code: Code)
    requires code in reg
  {
    forall k :: 0 <= k < |reg[code].required| ==>
      reg[code].required[k] == code || IsActive(st, reg[code].required[k])
  }

  /** A direct edit to an active status keeps the closure exactly when the module's other dependencies are active. */
  lemma ActivatingKeepsClosedIff(reg: Registry, st: Statuses, code: Code, status: Status)
    requires Closed(reg, st) && code in st && status in {Enabled, Trial}
    ensures Closed(reg, Next(reg, st, Patch(code, status))) <==>
      (code in reg && reg[code].isActive ==> OthersMet(reg, st, code))
  {
    var next := Next(reg, st, Patch(code, status));
    assert forall m :: IsActive(next, m) <==> IsActive(st, m) || m == code;
    forall m | m != code && IsActive(next, m) && m in reg && reg[m].isActive ensures DependenciesMet(reg, next, m) {
      assert DependenciesMet(reg, st, m);
    }
  }

  /** A direct edit to an inactive status keeps it exactly when no other active module requires this one. */
  lemma DeactivatingKeepsClosedIff(reg: Registry, st: Statuses, code: Code, status: Status)
    requires Closed(reg, st) && code in st && status !in {Enabled, Trial}
    ensures Closed(reg, Next(reg, st, Patch(code, status))) <==>
      !exists m :: m != code && m in reg && reg[m].isActive && code in reg[m].required && IsActive(st, m)
  {
    var next := Next(reg, st, Patch(code, status));
    assert forall m :: IsActive(next, m) <==> IsActive(st, m) && m != code;
    forall m | IsActive(next, m) && m in reg && reg[m].isActive
      ensures DependenciesMet(reg, next, m) <==> code !in reg[m].required
    {
      assert DependenciesMet(reg, st, m);
    }
  }

  /**
   * What a direct status edit has to pass to keep the closure and the absence of modules on cycles:
   * exactly what the guards would have checked, but for a module's dependency on itself.
   */
  lemma PatchKeepsInvariantIff(reg: Registry, st: Statuses, code: Code, status: Status)
    requires Closed(reg, st) && code in st
    ensures Closed(reg, Next(reg, st, Patch(code, status))) <==>
      if status in {Enabled, Trial} then
        code in reg && reg[code].isActive ==> OthersMet(reg, st, code)
      else
        !exists m :: m != code && m in reg && reg[m].isActive && code in reg[m].required && IsActive(st, m)
    ensures OnlyWellFounded(reg, st) ==>
      (OnlyWellFounded(reg, Next(reg, st, Patch(code, status))) <==>
        (status in {Enabled, Trial} ==> WellFoundedModule(reg, code)))
  {
    if status in {Enabled, Trial} {
      ActivatingKeepsClosedIff(reg, st, code, status);
    } else {
      DeactivatingKeepsClosedIff(reg, st, code, status);
    }
  }

  // ----- failing runs -----

  lemma ThreeSteps(reg: Registry, st: Statuses, a: Action, b: Action, c: Action)
    ensures After(reg, st, [a, b, c]) == Next(reg, Next(reg, Next(reg, st, a), b), c)
  {
    assert [a, b, c][1..] == [b, c];
    TwoSteps(reg, Next(reg, st, a), b, c);
  }

  lemma TwoSteps(reg: Registry, st: Statuses, a: Action, b: Action)
    ensures After(reg, st, [a, b]) == Next(reg, Next(reg, st, a), b)
  {
    assert [a, b][1..] == [b] && [b][1..] == [];
    var last := Next(reg, Next(reg, st, a), b);
    assert After(reg, last, []) == last;
    assert After(reg, Next(reg, st, a), [b]) == last;
  }

  const BOTH_ENABLED: Statuses := map["parties" := Enabled, "crm" := Enabled]

  lemma EnablesBoth(reg: Registry)
    requires "parties" in reg && "crm" in reg && reg["parties"].required == [] && reg["crm"].required == ["parties"]
    ensures Next(reg, Next(reg, map[], Enable("parties")), Enable("crm")) == BOTH_ENABLED
  {
    var one := Next(reg, map[], Enable("parties"));
    assert one == map["parties" := Enabled];
    assert DependenciesMet(reg, one, "crm");
  }

  /** A guarded run in which a dependent with an inactive definition loses what it requires. */
  lemma InactiveDefinitionLosesDependency()
    ensures
      var reg: Registry := map["crm" := Definition(["parties"], false), "parties" := Definition([], true)];
      var end := After(reg, map[], [Enable("parties"), Enable("crm"), Disable("parties")]);
      IsActive(end, "crm") && !IsActive(end, "parties")
  {
    var reg: Registry := map["crm" := Definition(["parties"], false), "parties" := Definition([], true)];
    ThreeSteps(reg, map[], Enable("parties"), Enable("crm"), Disable("parties"));
    EnablesBoth(reg);
    assert !HasActiveDependent(reg, BOTH_ENABLED, "parties");
  }

  /** A run in which the direct edit takes a dependency away from an active module. */
  lemma PatchTakesDependency()
    ensures
      var reg: Registry := map["crm" := Definition(["parties"], true), "parties" := Definition([], true)];
      var end := After(reg, map[], [Enable("parties"), Enable("crm"), Patch("parties", Suspended)]);
      IsActive(end, "crm") && !IsActive(end, "parties") && !Closed(reg, end)
  {
    var reg: Registry := map["crm" := Definition(["parties"], true), "parties" := Definition([], true)];
    ThreeSteps(reg, map[], Enable("parties"), Enable("crm"), Patch("parties", Suspended));
    EnablesBoth(reg);
    var end := BOTH_ENABLED["parties" := Suspended];
    assert reg["crm"].required[0] == "parties";
    assert !DependenciesMet(reg, end, "crm");
  }

  lemma {:induction false} NoneKnown(priority: seq<Code>)
    ensures KnownFirst([], priority) == []
  {
    if priority != [] { NoneKnown(priority[1..]); }
  }

  lemma SortOfNone()
    ensures SortModuleCodes([]) == []
  {
    NoneKnown(PRIORITY);
  }

  lemma EmptyPlanProvisions(reg: Registry)
    ensures Next(reg, map[], EnablePlan([], false)) == Provision(reg, map[])
  {
    SortOfNone();
    assert EnableEach(reg, Provision(reg, map[]), [], Enabled) == Ok(Provision(reg, map[]));
  }

  lemma SelfDependencyIsNoModule(reg: Registry, st: Statuses, code: Code)
    requires code in reg && reg[code].required == [code] && IsActive(st, code)
    ensures DependenciesMet(reg, st, code) && !OnlyWellFounded(reg, st)
  {
    DependencyIsReached(reg, code, code);
    assert !WellFoundedModule(reg, code);
  }

  lemma ProvisionOne(reg: Registry, code: Code)
    requires reg == map[code := Definition([code], true)]
    ensures Provision(reg, map[]) == map[code := Disabled]
  {
  }

  lemma ThenPatch(reg: Registry, first: Action, mid: Statuses, code: Code, status: Status)
    requires Next(reg, map[], first) == mid && code in mid
    ensures After(reg, map[], [first, Patch(code, status)]) == mid[code := status]
  {
    TwoSteps(reg, map[], first, Patch(code, status));
  }

  lemma ActivateCycle(reg: Registry, code: Code)
    requires reg == map[code := Definition([code], true)]
    ensures After(reg, map[], [EnablePlan([], false), Patch(code, Enabled)]) == map[code := Enabled]
  {
    EmptyPlanProvisions(reg);
    ProvisionOne(reg, code);
    ThenPatch(reg, EnablePlan([], false), map[code := Disabled], code, Enabled);
  }

  /** A run in which it activates a module that requires itself, and so lies on a cycle. */
  lemma PatchActivatesCycle(code: Code)
    ensures
      var reg: Registry := map[code := Definition([code], true)];
      var end := After(reg, map[], [EnablePlan([], false), Patch(code, Enabled)]);
      IsActive(end, code) && Closed(reg, end) && !OnlyWellFounded(reg, end)
  {
    var reg: Registry := map[code := Definition([code], true)];
    ActivateCycle(reg, code);
    SelfDependencyIsNoModule(reg, map[code := Enabled], code);
  }
}
