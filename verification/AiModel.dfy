/** AI agents, their tasks and action proposals, human decisions on them, and the usage ledger. */
module AiModel {
  import opened Common

  type Id = int

  /** Seconds on the server clock. */
  type Instant = int

  datatype ActionType =
    | SendDocument | CreateInvoice | UpdatePayment | DeleteData | SendMessage | ChangeWorkItemStatus
    | UpdateLegalProfile | Other

  const CRITICAL_ACTION_TYPES: set<ActionType> :=
    {SendDocument, CreateInvoice, UpdatePayment, DeleteData, SendMessage, ChangeWorkItemStatus, UpdateLegalProfile}

  datatype ProposalStatus = Pending | Approved | Rejected | Executed | Expired | Cancelled

  datatype TaskStatus = TaskPending | TaskRunning | TaskCompleted | TaskFailed | TaskCancelled

  datatype Decision = Accept | Refuse

  datatype Agent = Agent(code: string, isActive: bool, requiresApproval: bool)

  datatype Task = Task(agent: Id, taskType: string, status: TaskStatus)

  datatype Proposal = Proposal(
    agent: Id, task: Option<Id>, action: ActionType, isCritical: bool, status: ProposalStatus,
    expiresAt: Option<Instant>, executedAt: Option<Instant>)

  datatype Approval = Approval(proposal: Id, approver: Id, decision: Decision, decidedAt: Instant)

  datatype Event = AgentCreated | TaskCreated | TaskDone | ProposalCreated | ProposalApproved | ProposalRejected
    | ProposalExecuted

  datatype Usage = Usage(event: Event, agent: Id, task: Option<Id>, proposal: Option<Id>, tokens: nat)

  /** The tables of one tenant. */
  datatype Desk = Desk(
    agents: map<Id, Agent>,
    tasks: map<Id, Task>,
    proposals: map<Id, Proposal>,
    approvals: seq<Approval>,
    usage: seq<Usage>)

  datatype Failure = NotFound | Conflict | PermissionDenied | DuplicateKey

  /**
   * A decision reads the clock twice: for the expiry check, and again for its row. A task that runs
   * at once brings the id of the proposal it makes.
   */
  datatype Request =
    | CreateAgent(id: Id, code: string, isActive: bool, requiresApproval: bool)
    | UpdateAgent(id: Id, setActive: Option<bool>, setRequires: Option<bool>)
    | CreateTask(id: Id, agent: Id, taskType: string, run: Option<Id>, now: Instant)
    | CreateProposal(id: Id, agent: Id, task: Option<Id>, action: ActionType, now: Instant)
    | Approve(id: Id, user: Id, checkedAt: Instant, now: Instant)
    | Reject(id: Id, user: Id, checkedAt: Instant, now: Instant)
    | Execute(id: Id, now: Instant)

  const EMPTY_DESK: Desk := Desk(map[], map[], map[], [], [])

  const PROPOSAL_LIFETIME: Instant := 7 * 24 * 60 * 60

  const USAGE_TOKENS: Usage -> int := (u: Usage) => u.tokens

  function IsCritical(action: ActionType): bool {
    action in CRITICAL_ACTION_TYPES
  }

  function MockAction(taskType: string): ActionType {
    if taskType == "document_review" then SendDocument
    else if taskType == "finance_assist" then CreateInvoice
    else ChangeWorkItemStatus
  }

  function NewProposal(agent: Id, task: Option<Id>, action: ActionType, now: Instant): Proposal {
    Proposal(agent, task, action, IsCritical(action), Pending, Some(now + PROPOSAL_LIFETIME), None)
  }

  predicate IsExpired(p: Proposal, now: Instant) {
    p.expiresAt.Some? && p.expiresAt.value < now
  }

  predicate CodeTaken(agents: map<Id, Agent>, code: string) {
    exists id :: id in agents && agents[id].code == code
  }

  function EditedAgent(a: Agent, setActive: Option<bool>, setRequires: Option<bool>): Agent {
    a.(isActive := if setActive.Some? then setActive.value else a.isActive,
       requiresApproval := if setRequires.Some? then setRequires.value else a.requiresApproval)
  }

  // ----- the requests -----

  function AgentAdded(d: Desk, r: Request): Result<Desk, Failure>
    requires r.CreateAgent?
  {
    if CodeTaken(d.agents, r.code) then Err(Conflict)
    else if r.id in d.agents then Err(DuplicateKey)
    else Ok(d.(
      agents := d.agents[r.id := Agent(r.code, r.isActive, r.requiresApproval)],
      usage := d.usage + [Usage(AgentCreated, r.id, None, None, 0)]))
  }

  function TaskAdded(d: Desk, r: Request): Result<Desk, Failure>
    requires r.CreateTask?
  {
    if r.agent !in d.agents then Err(NotFound)
    else if !d.agents[r.agent].isActive then Err(Conflict)
    else if r.id in d.tasks then Err(DuplicateKey)
    else
      var started := d.usage + [Usage(TaskCreated, r.agent, Some(r.id), None, 100)];
      if r.run.None? then
        Ok(d.(tasks := d.tasks[r.id := Task(r.agent, r.taskType, TaskPending)], usage := started))
      else if r.run.value in d.proposals then Err(DuplicateKey)
      else
        Ok(d.(
          tasks := d.tasks[r.id := Task(r.agent, r.taskType, TaskCompleted)],
          proposals := d.proposals[r.run.value := NewProposal(r.agent, Some(r.id), MockAction(r.taskType), r.now)],
          usage := started + [Usage(TaskDone, r.agent, Some(r.id), r.run, 200)]))
  }

  function ProposalAdded(d: Desk, r: Request): Result<Desk, Failure>
    requires r.CreateProposal?
  {
    if r.agent !in d.agents || (r.task.Some? && r.task.value !in d.tasks) then Err(NotFound)
    else if r.id in d.proposals then Err(DuplicateKey)
    else Ok(d.(
      proposals := d.proposals[r.id := NewProposal(r.agent, r.task, r.action, r.now)],
      usage := d.usage + [Usage(ProposalCreated, r.agent, r.task, Some(r.id), 50)]))
  }

  predicate Decidable(d: Desk, id: Id, checkedAt: Instant) {
    id in d.proposals && d.proposals[id].status == Pending && !IsExpired(d.proposals[id], checkedAt)
  }

  function Decided(d: Desk, id: Id, user: Id, decision: Decision, checkedAt: Instant, now: Instant)
    : Result<Desk, Failure>
  {
    if id !in d.proposals then Err(NotFound)
    else if !Decidable(d, id, checkedAt) then Err(Conflict)
    else
      var p := d.proposals[id];
      Ok(d.(
        proposals := d.proposals[id := p.(status := if decision == Accept then Approved else Rejected)],
        approvals := d.approvals + [Approval(id, user, decision, now)],
        usage := d.usage + [Usage(if decision == Accept then ProposalApproved else ProposalRejected,
          p.agent, None, Some(id), 0)]))
  }

  function Performed(d: Desk, id: Id, now: Instant): Result<Desk, Failure> {
    if id !in d.proposals || d.proposals[id].agent !in d.agents then Err(NotFound)
    else
      var p := d.proposals[id];
      if p.status in {Executed, Rejected, Cancelled} then Err(Conflict)
      else if p.isCritical && d.agents[p.agent].requiresApproval && p.status != Approved then Err(PermissionDenied)
      else Ok(d.(
        proposals := d.proposals[id := p.(status := Executed, executedAt := Some(now))],
        usage := d.usage + [Usage(ProposalExecuted, p.agent, None, Some(id), 25)]))
  }

  function Attempt(d: Desk, r: Request): Result<Desk, Failure> {
    match r
    case CreateAgent(_, _, _, _) => AgentAdded(d, r)
    case UpdateAgent(id, setActive, setRequires) =>
      if id !in d.agents then Err(NotFound)
      else Ok(d.(agents := d.agents[id := EditedAgent(d.agents[id], setActive, setRequires)]))
    case CreateTask(_, _, _, _, _) => TaskAdded(d, r)
    case CreateProposal(_, _, _, _, _) => ProposalAdded(d, r)
    case Approve(id, user, checkedAt, now) => Decided(d, id, user, Accept, checkedAt, now)
    case Reject(id, user, checkedAt, now) => Decided(d, id, user, Refuse, checkedAt, now)
    case Execute(id, now) => Performed(d, id, now)
  }

  /** A request that raises is never committed. */
  function Next(d: Desk, r: Request): Desk {
    var a := Attempt(d, r);
    if a.Ok? then a.value else d
  }

  /** The tables after a run of requests. */
  function After(requests: seq<Request>): Desk {
    if requests == [] then EMPTY_DESK
    else
      var n := |requests| - 1;
      Next(After(requests[..n]), requests[n])
  }

  // ----- what every run keeps -----

  /** The decision row a proposal has, in terms of its status. */
  ghost predicate DecisionAgrees(p: Proposal, decision: Decision) {
    match decision
    case Accept => p.status in {Approved, Executed}
    case Refuse => p.status == Rejected
  }

  ghost predicate ProposalSound(d: Desk, id: Id, p: Proposal) {
    && p.agent in d.agents
    && p.isCritical == (p.action != Other)
    && p.expiresAt.Some?
    && p.status !in {Expired, Cancelled}
    && (p.executedAt.Some? <==> p.status == Executed)
    && (p.status in {Approved, Rejected} ==> HasDecision(d.approvals, id))
  }

  ghost predicate HasDecision(rows: seq<Approval>, id: Id) {
    exists k :: 0 <= k < |rows| && rows[k].proposal == id
  }

  ghost predicate Sound(d: Desk) {
    && (forall id :: id in d.proposals ==> ProposalSound(d, id, d.proposals[id]))
    && (forall k :: 0 <= k < |d.approvals| ==>
      && d.approvals[k].proposal in d.proposals
      && DecisionAgrees(d.proposals[d.approvals[k].proposal], d.approvals[k].decision))
    && (forall j, k :: 0 <= j < k < |d.approvals| ==> d.approvals[j].proposal != d.approvals[k].proposal)
  }

  // ----- the human-approval rule -----

  /** Somewhere in the run the proposal was approved while pending and not yet expired. */
  ghost predicate ApprovedInTime(requests: seq<Request>, id: Id) {
    exists k :: 0 <= k < |requests| && ApprovedAt(requests, id, k)
  }

  ghost predicate ApprovedAt(requests: seq<Request>, id: Id, k: nat) {
    && k < |requests| && requests[k].Approve? && requests[k].id == id
    && Decidable(After(requests[..k]), id, requests[k].checkedAt)
  }

  /** Somewhere in the run the proposal was executed, undecided, while its agent needed no approval. */
  ghost predicate Waived(requests: seq<Request>, id: Id) {
    exists k :: 0 <= k < |requests| && WaivedAt(requests, id, k)
  }

  ghost predicate WaivedAt(requests: seq<Request>, id: Id, k: nat) {
    k < |requests| && WaivedNow(After(requests[..k]), requests[k], id)
  }

  ghost predicate WaivedNow(d: Desk, r: Request, id: Id) {
    && r.Execute? && r.id == id
    && id in d.proposals && d.proposals[id].status == Pending && !RequiresNow(d, d.proposals[id].agent)
  }

  /** The agent's approval flag is set from its creation on to the end of the run. */
  ghost predicate AlwaysRequires(requests: seq<Request>, agent: Id) {
    forall k :: 0 <= k <= |requests| ==> RequiresNow(After(requests[..k]), agent)
  }

  ghost predicate RequiresNow(d: Desk, agent: Id) {
    agent in d.agents ==> d.agents[agent].requiresApproval
  }
}
