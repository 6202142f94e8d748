/** Tenant modules, their required dependencies, and the guarded steps that switch them on and off. */
module ModuleModel {
  import opened Common

  type Code = string

  datatype Definition = Definition(required: seq<Code>, isActive: bool)

  type Registry = map<Code, Definition>

  datatype Status = Enabled | Disabled | Trial | Suspended

  type Statuses = map<Code, Status>

  datatype ModuleError = NotFound | DependencyError

  datatype Action =
    | Enable(code: Code)
    | Disable(code: Code)
    | EnablePlan(codes: seq<Code>, asTrial: bool)
    | Patch(code: Code, status: Status)

  predicate IsActive(st: Statuses, code: Code) {
    code in st && st[code] in {Enabled, Trial}
  }

  predicate DependenciesMet(reg: Registry, st: Statuses, code: Code) {
    code in reg && forall k :: 0 <= k < |reg[code].required| ==> IsActive(st, reg[code].required[k])
  }

  /** The codes among these that are not active, in order. */
  function NotActive(st: Statuses, codes: seq<Code>): seq<Code> {
    if codes == [] then []
    else NotActive(st, codes[..|codes| - 1]) + if IsActive(st, codes[|codes| - 1]) then [] else [codes[|codes| - 1]]
  }

  predicate IsDependent(reg: Registry, st: Statuses, code: Code, m: Code) {
    m in reg && reg[m].isActive && code in reg[m].required && IsActive(st, m)
  }

  /** The active dependents of the module among these, in order. */
  function DependentsAmong(reg: Registry, st: Statuses, code: Code, codes: seq<Code>): seq<Code> {
    if codes == [] then []
    else
      var n := |codes| - 1;
      DependentsAmong(reg, st, code, codes[..n]) + if IsDependent(reg, st, code, codes[n]) then [codes[n]] else []
  }

  /** Only active definitions are looked at, as in the registry listing. */
  predicate HasActiveDependent(reg: Registry, st: Statuses, code: Code) {
    exists m :: m in reg && reg[m].isActive && code in reg[m].required && IsActive(st, m)
  }

  function EnableStep(reg: Registry, st: Statuses, code: Code): Result<Statuses, ModuleError> {
    if code !in reg then Err(NotFound)
    else if code in st && st[code] == Enabled then Ok(st)
    else if !DependenciesMet(reg, st, code) then Err(DependencyError)
    else Ok(st[code := Enabled])
  }

  function DisableStep(reg: Registry, st: Statuses, code: Code): Result<Statuses, ModuleError> {
    if code !in st then Err(NotFound)
    else if st[code] == Disabled then Ok(st)
    else if HasActiveDependent(reg, st, code) then Err(DependencyError)
    else Ok(st[code := Disabled])
  }

  function PatchStep(st: Statuses, code: Code, status: Status): Result<Statuses, ModuleError> {
    if code !in st then Err(NotFound) else Ok(st[code := status])
  }

  /** Every listed definition gets a disabled row where the tenant has none. */
  function Provision(reg: Registry, st: Statuses): Statuses {
    (map m | m in reg && reg[m].isActive :: Disabled) + st
  }

  /** Known codes in a fixed order of priority, then the others as given. */
  const PRIORITY: seq<Code> := ["parties", "catalog", "crm", "documents", "finance", "accounting", "integrations", "ai"]

  function KnownFirst(codes: seq<Code>, priority: seq<Code>): seq<Code> {
    if priority == [] then []
    else if priority[0] in codes then [priority[0]] + KnownFirst(codes, priority[1..])
    else KnownFirst(codes, priority[1..])
  }

  function AppendMissing(ordered: seq<Code>, codes: seq<Code>): seq<Code>
    decreases |codes|
  {
    if codes == [] then ordered
    else AppendMissing(if codes[0] in ordered then ordered else ordered + [codes[0]], codes[1..])
  }

  function SortModuleCodes(codes: seq<Code>): seq<Code> {
    AppendMissing(KnownFirst(codes, PRIORITY), codes)
  }

  function EnableEach(reg: Registry, st: Statuses, codes: seq<Code>, status: Status): Result<Statuses, ModuleError>
    decreases |codes|
  {
    if codes == [] then Ok(st)
    else if codes[0] !in reg then Err(NotFound)
    else if !DependenciesMet(reg, st, codes[0]) then Err(DependencyError)
    else EnableEach(reg, st[codes[0] := status], codes[1..], status)
  }

  function PlanStep(reg: Registry, st: Statuses, codes: seq<Code>, asTrial: bool): Result<Statuses, ModuleError> {
    EnableEach(reg, Provision(reg, st), SortModuleCodes(codes), if asTrial then Trial else Enabled)
  }

  function Attempt(reg: Registry, st: Statuses, a: Action): Result<Statuses, ModuleError> {
    match a
    case Enable(code) => EnableStep(reg, st, code)
    case Disable(code) => DisableStep(reg, st, code)
    case EnablePlan(codes, asTrial) => PlanStep(reg, st, codes, asTrial)
    case Patch(code, status) => PatchStep(st, code, status)
  }

  /** A step that raises changes nothing. */
  function Next(reg: Registry, st: Statuses, a: Action): Statuses {
    var r := Attempt(reg, st, a);
    if r.Ok? then r.value else st
  }

  function After(reg: Registry, st: Statuses, run: seq<Action>): Statuses
    decreases |run|
  {
    if run == [] then st else After(reg, Next(reg, st, run[0]), run[1..])
  }

  /** The direct status edit is the one step without a dependency check. */
  predicate Guarded(run: seq<Action>) {
    forall k :: 0 <= k < |run| ==> !run[k].Patch?
  }

  // ----- the dependency graph -----

  ghost predicate Path(reg: Registry, p: seq<Code>) {
    forall i :: 0 <= i < |p| - 1 ==> p[i] in reg && p[i + 1] in reg[p[i]].required
  }

  /** b is a dependency of a, directly or through others. */
  ghost predicate Reaches(reg: Registry, a: Code, b: Code) {
    exists p :: Path(reg, p) && 2 <= |p| && p[0] == a && p[|p| - 1] == b
  }

  /** All dependencies are known and none of them lies on a dependency cycle. */
  ghost predicate WellFoundedModule(reg: Registry, m: Code) {
    && m in reg && !Reaches(reg, m, m)
    && forall x :: Reaches(reg, m, x) ==> x in reg && !Reaches(reg, x, x)
  }

  /** Every active module, its definition active or not, has its required modules active. */
  ghost predicate FullyClosed(reg: Registry, st: Statuses) {
    forall m :: IsActive(st, m) && m in reg ==> DependenciesMet(reg, st, m)
  }

  /** Active modules with an active definition have their required modules active. */
  ghost predicate Closed(reg: Registry, st: Statuses) {
    forall m :: IsActive(st, m) && m in reg && reg[m].isActive ==> DependenciesMet(reg, st, m)
  }
}
