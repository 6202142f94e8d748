/** The module registry service of one tenant, with the dependency guard's loops. */
module ModuleService {
  import opened CodeOrder
  import opened Common
  import opened ModuleModel

  lemma {:induction false} DependentsAre(reg: Registry, st: Statuses, code: Code, codes: seq<Code>)
    ensures forall m :: m in DependentsAmong(reg, st, code, codes) <==> m in codes && IsDependent(reg, st, code, m)
  {
    if codes != [] {
      var n := |codes| - 1;
      DependentsAre(reg, st, code, codes[..n]);
      assert codes == codes[..n] + [codes[n]];
    }
  }

  /** What is listed, once sorted. */
  lemma SortedDependents(reg: Registry, st: Statuses, code: Code, listing: seq<Code>)
    requires forall m :: m in listing <==> m in reg
    ensures
      var found := DependentsAmong(reg, st, code, listing);
      var dependents := SortStrings(found);
      && Sorted(dependents) && multiset(dependents) == multiset(found)
      && (forall m :: m in dependents <==> IsDependent(reg, st, code, m))
      && (dependents != [] <==> HasActiveDependent(reg, st, code))
  {
    var found := DependentsAmong(reg, st, code, listing);
    var dependents := SortStrings(found);
    SortSorts(found);
    DependentsAre(reg, st, code, listing);
    assert forall m :: m in dependents <==> IsDependent(reg, st, code, m);
    if dependents != [] { assert dependents[0] in dependents; }
  }

  class Service {
    /** All definitions, and their codes in listing order. */
    const registry: Registry
    const listing: seq<Code>
    var statuses: Statuses

    ghost predicate Valid() {
      forall m :: m in listing <==> m in registry
    }

    constructor (registry: Registry, listing: seq<Code>)
      requires forall m :: m in listing <==> m in registry
      ensures Valid() && this.registry == registry && statuses == map[]
    {
      this.registry, this.listing, this.statuses := registry, listing, map[];
    }

    method CheckRequiredDependencies(code: Code) returns (r: Result<seq<Code>, ModuleError>)
      ensures r == if code in registry then Ok(NotActive(statuses, registry[code].required)) else Err(NotFound)
      ensures r.Ok? ==> (r.value == [] <==> DependenciesMet(registry, statuses, code))
    {
      if code !in registry { return Err(NotFound); }
      var required := registry[code].required;
      var missing: seq<Code> := [];
      for n := 0 to |required|
        invariant missing == NotActive(statuses, required[..n])
        invariant missing == [] <==> forall k :: 0 <= k < n ==> IsActive(statuses, required[k])
      {
        assert required[..n + 1][..n] == required[..n];
        if !IsActive(statuses, required[n]) {
          missing := missing + [required[n]];
        }
      }
      assert required[..|required|] == required;
      r := Ok(missing);
    }

    /** The codes come sorted. */
    method ListActiveDependents(code: Code) returns (dependents: seq<Code>)
      requires Valid()
      ensures Sorted(dependents)
      ensures multiset(dependents) == multiset(DependentsAmong(registry, statuses, code, listing))
      ensures forall m :: m in dependents <==> IsDependent(registry, statuses, code, m)
      ensures dependents != [] <==> HasActiveDependent(registry, statuses, code)
    {
      dependents := [];
      for n := 0 to |listing|
        invariant dependents == DependentsAmong(registry, statuses, code, listing[..n])
      {
        var m := listing[n];
        assert m in listing && m in registry;
        assert listing[..n + 1][..n] == listing[..n];
        if registry[m].isActive && code in registry[m].required && IsActive(statuses, m) {
          dependents := dependents + [m];
        }
      }
      assert listing[..|listing|] == listing;
      dependents := SortStrings(dependents);
      SortedDependents(registry, statuses, code, listing);
    }

    method EnableModule(code: Code) returns (r: Result<Status, ModuleError>)
      requires Valid()
      modifies this
      ensures statuses == Next(registry, old(statuses), Enable(code))
      ensures r.Ok? <==> Attempt(registry, old(statuses), Enable(code)).Ok?
      ensures r.Err? ==> r.error == Attempt(registry, old(statuses), Enable(code)).error
      ensures r.Ok? <==>
        && code in registry
        && (|| (code in old(statuses) && old(statuses)[code] == Enabled)
            || forall d :: d in registry[code].required ==> IsActive(old(statuses), d))
      ensures r == Err(NotFound) <==> code !in registry
      ensures statuses == if r.Ok? then old(statuses)[code := Enabled] else old(statuses)
    {
      if code !in registry { return Err(NotFound); }
      if code in statuses && statuses[code] == Enabled { return Ok(Enabled); }
      var missing := CheckRequiredDependencies(code);
      if missing.value != [] { return Err(DependencyError); }
      statuses := statuses[code := Enabled];
      r := Ok(Enabled);
    }

    method DisableModule(code: Code) returns (r: Result<Status, ModuleError>)
      requires Valid()
      modifies this
      ensures statuses == Next(registry, old(statuses), Disable(code))
      ensures r.Ok? <==> Attempt(registry, old(statuses), Disable(code)).Ok?
      ensures r.Err? ==> r.error == Attempt(registry, old(statuses), Disable(code)).error
      ensures r.Ok? <==>
        && code in old(statuses)
        && (|| old(statuses)[code] == Disabled
            || forall m :: m in registry && registry[m].isActive && IsActive(old(statuses), m) ==>
                 code !in registry[m].required)
      ensures r == Err(NotFound) <==> code !in old(statuses)
      ensures statuses == if r.Ok? then old(statuses)[code := Disabled] else old(statuses)
    {
      if code !in statuses { return Err(NotFound); }
      if statuses[code] == Disabled { return Ok(Disabled); }
      var dependents := ListActiveDependents(code);
      if dependents != [] { return Err(DependencyError); }
      statuses := statuses[code := Disabled];
      r := Ok(Disabled);
    }

    method UpdateTenantModule(code: Code, status: Status) returns (r: Result<Status, ModuleError>)
      modifies this
      ensures statuses == Next(registry, old(statuses), Patch(code, status))
      ensures r == if code in old(statuses) then Ok(status) else Err(NotFound)
      ensures statuses == if code in old(statuses) then old(statuses)[code := status] else old(statuses)
    {
      if code !in statuses { return Err(NotFound); }
      statuses := statuses[code := status];
      r := Ok(status);
    }

    /** Enables the codes in dependency-friendly order; the first failure undoes all of it. */
    method EnableModulesOrdered(codes: seq<Code>, asTrial: bool) returns (r: Result<seq<Code>, ModuleError>)
      requires Valid()
      modifies this
      ensures statuses == Next(registry, old(statuses), EnablePlan(codes, asTrial))
      ensures r.Ok? <==> Attempt(registry, old(statuses), EnablePlan(codes, asTrial)).Ok?
      ensures r.Ok? ==> r.value == SortModuleCodes(codes)
    {
      var saved := statuses;
      statuses := Provision(registry, statuses);
      var ordered := SortModuleCodes(codes);
      var status := if asTrial then Trial else Enabled;
      ghost var goal := EnableEach(registry, statuses, ordered, status);
      for n := 0 to |ordered|
        invariant goal == EnableEach(registry, statuses, ordered[n..], status)
      {
        assert ordered[n..][0] == ordered[n] && ordered[n..][1..] == ordered[n + 1..];
        var missing := CheckRequiredDependencies(ordered[n]);
        if missing.Err? || missing.value != [] {
          statuses := saved;
          return Err(if missing.Err? then missing.error else DependencyError);
        }
        statuses := statuses[ordered[n] := status];
      }
      assert ordered[|ordered|..] == [];
      r := Ok(ordered);
    }
  }
}
