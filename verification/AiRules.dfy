/** Where proposals come from, and who may propose, stated on the requests of the run. */
module AiRules {
  import opened Common
  import opened Sums
  import opened AiModel
  import opened AiProperties

  // ----- a proposal is what was asked for -----

  /** The action that a task of this type proposes when it is run. */
  ghost predicate ProposedByTask(taskType: string, action: ActionType) {
    && (taskType == "document_review" ==> action == SendDocument)
    && (taskType == "finance_assist" ==> action == ActionType.CreateInvoice)
    && (taskType != "document_review" && taskType != "finance_assist" ==> action == ChangeWorkItemStatus)
  }

  /** The request asks for a proposal of these terms, critical unless its action is none of the listed ones. */
  ghost predicate AsksFor(r: Request, id: Id, p: Proposal) {
    match r
    case CreateProposal(given, agent, task, action, now) =>
      && given == id && p.agent == agent && p.task == task && p.action == action
      && (p.isCritical <==> action != Other) && p.expiresAt == Some(now + 7 * 86400)
    case CreateTask(taskId, agent, taskType, run, now) =>
      && run == Some(id) && p.agent == agent && p.task == Some(taskId) && ProposedByTask(taskType, p.action)
      && p.isCritical && p.expiresAt == Some(now + 7 * 86400)
    case _ => false
  }

  lemma NextAsksFor(d: Desk, r: Request, id: Id)
    requires id !in d.proposals && id in Next(d, r).proposals
    ensures Attempt(d, r).Ok? && AsksFor(r, id, Next(d, r).proposals[id]) && Next(d, r).proposals[id].status == Pending
    ensures Next(d, r).proposals[id].executedAt == None
  {
  }

  /** Request k of the run made the proposal, on these terms. */
  ghost predicate MadeAt(requests: seq<Request>, id: Id, p: Proposal, k: nat) {
    && k < |requests| && AsksFor(requests[k], id, p)
    && id !in After(requests[..k]).proposals && Attempt(After(requests[..k]), requests[k]).Ok?
  }

  /** On every run each proposal was asked for by a request, and has the terms that request gave. */
  lemma {:induction false} EveryProposalWasAskedFor(requests: seq<Request>, id: Id) returns (k: nat)
    requires id in After(requests).proposals
    ensures MadeAt(requests, id, After(requests).proposals[id], k)
  {
    var n := |requests| - 1;
    var before := requests[..n];
    if id in After(before).proposals {
      k := EveryProposalWasAskedFor(before, id);
      TermsStay(After(before), requests[n], id);
      SameTermsAsked(requests[k], id, After(before).proposals[id], After(requests).proposals[id]);
      assert before[..k] == requests[..k];
    } else {
      k := n;
      NextAsksFor(After(before), requests[n], id);
    }
  }

  lemma SameTermsAsked(r: Request, id: Id, p: Proposal, q: Proposal)
    requires AsksFor(r, id, p) && SameTerms(p, q)
    ensures AsksFor(r, id, q)
  {
  }

  /** A proposal is made once: another request for its id fails. */
  lemma MadeOnce(requests: seq<Request>, id: Id, p: Proposal, q: Proposal, j: nat, k: nat)
    requires MadeAt(requests, id, p, j) && MadeAt(requests, id, q, k)
    ensures j == k
  {
    if j < k { MadeStays(requests, id, p, j, k); }
    if k < j { MadeStays(requests, id, q, k, j); }
  }

  lemma MadeStays(requests: seq<Request>, id: Id, p: Proposal, j: nat, k: nat)
    requires MadeAt(requests, id, p, j) && j < k <= |requests|
    ensures id in After(requests[..k]).proposals
  {
    var made := requests[..j + 1];
    assert made[..j] == requests[..j] && made[j] == requests[j];
    assert id in After(made).proposals;
    assert requests[..k][..j + 1] == made;
    TermsNeverChange(requests[..k], j + 1, id);
  }

  /** A request for a proposal that goes through makes it, and its terms are what the request said to the end. */
  lemma AskedIsMade(requests: seq<Request>, k: nat, id: Id)
    requires k < |requests| && Attempt(After(requests[..k]), requests[k]).Ok?
    requires
      || (requests[k].CreateProposal? && requests[k].id == id)
      || (requests[k].CreateTask? && requests[k].run == Some(id))
    ensures id in After(requests).proposals && MadeAt(requests, id, After(requests).proposals[id], k)
  {
    var d, made := After(requests[..k]), requests[..k + 1];
    assert made[..k] == requests[..k] && made[k] == requests[k];
    assert After(made) == Next(d, requests[k]);
    assert id !in d.proposals && id in After(made).proposals;
    NextAsksFor(d, requests[k], id);
    TermsNeverChange(requests, k + 1, id);
    SameTermsAsked(requests[k], id, After(made).proposals[id], After(requests).proposals[id]);
  }

  lemma AskedTerms(r: Request, id: Id, p: Proposal)
    requires AsksFor(r, id, p)
    ensures (r.CreateProposal? || r.CreateTask?) && p.agent == r.agent && p.expiresAt == Some(r.now + 7 * 86400)
    ensures (r.CreateProposal? ==> r.action != Other) ==> p.isCritical
  {
  }

  /**
   * The rule on requests: if the request that made a proposal asked for a listed action, and its agent's
   * flag stays on, then once the proposal is executed it has exactly one decision row, an approval, made
   * by a request that checked within seven days of the asking.
   */
  lemma RequestedActionNeedsApproval(requests: seq<Request>, id: Id, k: nat)
    requires id in After(requests).proposals && MadeAt(requests, id, After(requests).proposals[id], k)
    requires requests[k].CreateProposal? ==> requests[k].action != Other
    requires After(requests).proposals[id].status == Executed && AlwaysRequires(requests, requests[k].agent)
    ensures DecidedOnce(After(requests), id, Accept)
    ensures
      var deadline := requests[k].now + 7 * 86400;
      exists j :: TimelyApproval(requests, id, deadline, j)
  {
    AskedTerms(requests[k], id, After(requests).proposals[id]);
    HumanApprovalRule(requests, id);
  }

  // ----- who may propose -----

  /** A task is taken exactly for a known, active agent under new ids, and at once with its proposal or not at all. */
  lemma TaskAllowedIff(d: Desk, id: Id, agent: Id, taskType: string, run: Option<Id>, now: Instant)
    ensures
      var r := CreateTask(id, agent, taskType, run, now);
      && (Attempt(d, r).Ok? <==>
            && agent in d.agents && d.agents[agent].isActive && id !in d.tasks
            && (run.Some? ==> run.value !in d.proposals))
      && (Attempt(d, r) == Err(NotFound) <==> agent !in d.agents)
      && (Attempt(d, r) == Err(Conflict) <==> agent in d.agents && !d.agents[agent].isActive)
      && (Attempt(d, r).Ok? ==>
            && Next(d, r).tasks ==
                 d.tasks[id := Task(agent, taskType, if run.Some? then TaskCompleted else TaskPending)]
            && (run.None? ==> Next(d, r).proposals == d.proposals))
  {
  }

  /** A proposal is taken for any known agent, active or not, with a known task or none, under a new id. */
  lemma ProposalAllowedIff(d: Desk, id: Id, agent: Id, task: Option<Id>, action: ActionType, now: Instant)
    ensures
      var r := CreateProposal(id, agent, task, action, now);
      && (Attempt(d, r).Ok? <==>
            agent in d.agents && (task.Some? ==> task.value in d.tasks) && id !in d.proposals)
      && (Attempt(d, r) == Err(NotFound) <==> agent !in d.agents || (task.Some? && task.value !in d.tasks))
  {
  }

  // ----- the flags of an agent -----

  /** The last word of the run on an agent's two flags. */
  ghost function LastFlags(requests: seq<Request>, id: Id): Option<(bool, bool)> {
    if requests == [] then None
    else
      var n := |requests| - 1;
      var before := LastFlags(requests[..n], id);
      match requests[n]
      case CreateAgent(given, code, isActive, requiresApproval) =>
        if given == id && before.None? && forall other :: other in After(requests[..n]).agents ==>
             After(requests[..n]).agents[other].code != code
        then Some((isActive, requiresApproval)) else before
      case UpdateAgent(given, setActive, setRequires) =>
        if given == id && before.Some? then
          Some((if setActive == None then before.value.0 else setActive == Some(true),
                if setRequires == None then before.value.1 else setRequires == Some(true)))
        else before
      case _ => before
  }

  /** An agent is active, and needs approvals, exactly as the run last said. */
  lemma {:induction false} AgentFlagsAreLastSet(requests: seq<Request>, id: Id)
    ensures id in After(requests).agents <==> LastFlags(requests, id).Some?
    ensures id in After(requests).agents ==>
      var agent := After(requests).agents[id];
      LastFlags(requests, id) == Some((agent.isActive, agent.requiresApproval))
  {
    if requests != [] {
      var n := |requests| - 1;
      AgentFlagsAreLastSet(requests[..n], id);
      var d, r := After(requests[..n]), requests[n];
      if r.CreateAgent? {
        assert CodeTaken(d.agents, r.code) <==> exists other :: other in d.agents && d.agents[other].code == r.code;
      }
    }
  }

  // ----- usage of one agent -----

  const USAGE_AGENT: Usage -> Id := (u: Usage) => u.agent

  /** What a step should record for one agent: 100 a task, 200 more if it runs, 50 a proposal, 25 an execution. */
  function TokensFor(d: Desk, r: Request, agent: Id): int {
    if Attempt(d, r).Err? then 0
    else if r.CreateTask? && r.agent == agent then if r.run.Some? then 300 else 100
    else if r.CreateProposal? && r.agent == agent then 50
    else if r.Execute? && d.proposals[r.id].agent == agent then 25
    else 0
  }

  function TokensOf(requests: seq<Request>, agent: Id): int {
    if requests == [] then 0
    else
      var n := |requests| - 1;
      TokensOf(requests[..n], agent) + TokensFor(After(requests[..n]), requests[n], agent)
  }

  function UsageSum(d: Desk, agent: Id): int {
    Sum(d.usage, Only(USAGE_AGENT, USAGE_TOKENS, agent))
  }

  /** Each agent's recorded tokens are those of its own tasks, proposals and executions. */
  lemma {:induction false} UsageOfEachAgent(requests: seq<Request>, agent: Id)
    ensures UsageSum(After(requests), agent) == TokensOf(requests, agent)
  {
    if requests != [] {
      var n := |requests| - 1;
      UsageOfEachAgent(requests[..n], agent);
      NextUsage(After(requests[..n]), requests[n], agent);
    }
  }

  lemma OneEvent(usage: seq<Usage>, u: Usage, agent: Id)
    ensures Sum(usage + [u], Only(USAGE_AGENT, USAGE_TOKENS, agent))
         == Sum(usage, Only(USAGE_AGENT, USAGE_TOKENS, agent)) + if u.agent == agent then u.tokens else 0
  {
    SumSnoc(usage, u, Only(USAGE_AGENT, USAGE_TOKENS, agent));
  }

  lemma TaskUsage(d: Desk, r: Request, agent: Id)
    requires r.CreateTask? && Attempt(d, r).Ok?
    ensures UsageSum(Next(d, r), agent) == UsageSum(d, agent) + TokensFor(d, r, agent)
  {
    var started := Usage(TaskCreated, r.agent, Some(r.id), None, 100);
    OneEvent(d.usage, started, agent);
    OneEvent(d.usage + [started], Usage(TaskDone, r.agent, Some(r.id), r.run, 200), agent);
  }

  lemma NextUsage(d: Desk, r: Request, agent: Id)
    ensures UsageSum(Next(d, r), agent) == UsageSum(d, agent) + TokensFor(d, r, agent)
  {
    if Attempt(d, r).Ok? {
      if r.CreateTask? {
        TaskUsage(d, r, agent);
      } else if !r.UpdateAgent? {
        OneEvent(d.usage, Next(d, r).usage[|d.usage|], agent);
      }
    }
  }

  // ----- what the usage rows are about -----

  /** The row tells what happened to what: its agent, its task and its proposal are those of the event. */
  ghost predicate RowIsAbout(d: Desk, u: Usage) {
    && u.agent in d.agents
    && (u.task.Some? ==> u.task.value in d.tasks) && (u.proposal.Some? ==> u.proposal.value in d.proposals)
    && match u.event
       case AgentCreated => u.task == None && u.proposal == None && u.tokens == 0
       case TaskCreated =>
         u.task.Some? && d.tasks[u.task.value].agent == u.agent && u.proposal == None && u.tokens == 100
       case TaskDone =>
         && u.task.Some? && d.tasks[u.task.value].agent == u.agent && u.tokens == 200
         && u.proposal.Some? && d.proposals[u.proposal.value].task == u.task
       case ProposalCreated =>
         && u.proposal.Some? && d.proposals[u.proposal.value].agent == u.agent
         && d.proposals[u.proposal.value].task == u.task && u.tokens == 50
       case ProposalApproved => u.task == None && IsOf(d, u, {Approved, Executed}) && u.tokens == 0
       case ProposalRejected => u.task == None && IsOf(d, u, {Rejected}) && u.tokens == 0
       case ProposalExecuted => u.task == None && IsOf(d, u, {Executed}) && u.tokens == 25
  }

  ghost predicate IsOf(d: Desk, u: Usage, statuses: set<ProposalStatus>)
    requires u.proposal.Some? ==> u.proposal.value in d.proposals
  {
    u.proposal.Some? && d.proposals[u.proposal.value].agent == u.agent
    && d.proposals[u.proposal.value].status in statuses
  }

  ghost predicate RowsAreAbout(d: Desk) {
    forall k :: 0 <= k < |d.usage| ==> RowIsAbout(d, d.usage[k])
  }

  lemma OldRowStays(d: Desk, r: Request, u: Usage)
    requires Sound(d) && RowIsAbout(d, u)
    ensures RowIsAbout(Next(d, r), u)
  {
    if u.proposal.Some? { assert ProposalSound(d, u.proposal.value, d.proposals[u.proposal.value]); }
  }

  lemma NewRowIsAbout(d: Desk, r: Request, k: nat)
    requires Sound(d) && |d.usage| <= k < |Next(d, r).usage|
    ensures RowIsAbout(Next(d, r), Next(d, r).usage[k])
  {
    if r.Approve? || r.Reject? || r.Execute? { assert ProposalSound(d, r.id, d.proposals[r.id]); }
  }

  /** On every run each usage row names the agent, task and proposal that its event was about, at the event's rate. */
  lemma {:induction false} EveryUsageRowIsAboutItsEvent(requests: seq<Request>)
    ensures RowsAreAbout(After(requests))
  {
    if requests != [] {
      var n := |requests| - 1;
      var d, next := After(requests[..n]), After(requests);
      EveryUsageRowIsAboutItsEvent(requests[..n]);
      EveryRunIsSound(requests[..n]);
      forall k | 0 <= k < |next.usage| ensures RowIsAbout(next, next.usage[k]) {
        if k < |d.usage| {
          assert next.usage[k] == d.usage[k];
          OldRowStays(d, requests[n], d.usage[k]);
        } else {
          NewRowIsAbout(d, requests[n], k);
        }
      }
    }
  }
}
