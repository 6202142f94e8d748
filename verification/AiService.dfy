/**
 * The AI service over its tables. A method that fails leaves the tables as they were: its route
 * commits only after the call returns, and an uncommitted session is rolled back.
 */
module AiService {
  import opened Common
  import opened AiModel
  import opened AiProperties

  class Service {
    var agents: map<Id, Agent>
    var tasks: map<Id, Task>
    var proposals: map<Id, Proposal>
    var approvals: seq<Approval>
    var usage: seq<Usage>

    ghost function View(): Desk
      reads this
    {
      Desk(agents, tasks, proposals, approvals, usage)
    }

    constructor ()
      ensures View() == After([])
    {
      agents, tasks, proposals, approvals, usage := map[], map[], map[], [], [];
    }

    method RecordUsage(event: Event, agent: Id, task: Option<Id>, proposal: Option<Id>, tokens: nat)
      modifies this`usage
      ensures usage == old(usage) + [Usage(event, agent, task, proposal, tokens)]
    {
      usage := usage + [Usage(event, agent, task, proposal, tokens)];
    }

    method CreateAgent(id: Id, code: string, isActive: bool, requiresApproval: bool) returns (r: Result<Agent, Failure>)
      modifies this
      ensures View() == Next(old(View()), Request.CreateAgent(id, code, isActive, requiresApproval))
      ensures r.Err? <==> id in old(agents) || CodeTaken(old(agents), code)
      ensures r.Ok? ==> id in agents && r.value == agents[id]
    {
      if CodeTaken(agents, code) { return Err(Conflict); }
      if id in agents { return Err(DuplicateKey); }
      agents := agents[id := Agent(code, isActive, requiresApproval)];
      RecordUsage(AgentCreated, id, None, None, 0);
      r := Ok(agents[id]);
    }

    method UpdateAgent(id: Id, setActive: Option<bool>, setRequires: Option<bool>) returns (r: Result<Agent, Failure>)
      modifies this
      ensures View() == Next(old(View()), Request.UpdateAgent(id, setActive, setRequires))
      ensures r.Err? <==> id !in old(agents)
      ensures r.Ok? ==> id in agents && r.value == agents[id]
    {
      if id !in agents { return Err(NotFound); }
      var agent := agents[id];
      if setActive.Some? { agent := agent.(isActive := setActive.value); }
      if setRequires.Some? { agent := agent.(requiresApproval := setRequires.value); }
      agents := agents[id := agent];
      r := Ok(agent);
    }

    method CreateTask(id: Id, agent: Id, taskType: string, run: Option<Id>, now: Instant)
      returns (r: Result<Task, Failure>)
      modifies this
      ensures
        var request := Request.CreateTask(id, agent, taskType, run, now);
        && View() == Next(old(View()), request)
        && (r.Ok? <==> Attempt(old(View()), request).Ok?)
        && (r.Err? ==> r.error == Attempt(old(View()), request).error)
      ensures r.Ok? ==> id in tasks && r.value == tasks[id]
    {
      if agent !in agents { return Err(NotFound); }
      if !agents[agent].isActive { return Err(Conflict); }
      if id in tasks { return Err(DuplicateKey); }
      var savedTasks, savedUsage := tasks, usage;
      tasks := tasks[id := Task(agent, taskType, TaskPending)];
      RecordUsage(TaskCreated, agent, Some(id), None, 100);
      if run.Some? {
        var failure := RunMockTask(id, run.value, now);
        if failure.Some? {
          tasks, usage := savedTasks, savedUsage;
          return Err(failure.value);
        }
      }
      r := Ok(tasks[id]);
    }

    /** Runs the task at once: its only effect is a proposal. */
    method RunMockTask(task: Id, proposal: Id, now: Instant) returns (failure: Option<Failure>)
      requires task in tasks
      modifies this`tasks, this`proposals, this`usage
      ensures failure == if proposal in old(proposals) then Some(DuplicateKey) else None
      ensures failure.Some? ==> proposals == old(proposals)
      ensures failure.None? ==>
        var t := old(tasks)[task];
        && tasks == old(tasks)[task := t.(status := TaskCompleted)]
        && proposals == old(proposals)[proposal := NewProposal(t.agent, Some(task), MockAction(t.taskType), now)]
        && usage == old(usage) + [Usage(TaskDone, t.agent, Some(task), Some(proposal), 200)]
    {
      var t := tasks[task];
      tasks := tasks[task := t.(status := TaskRunning)];
      var action := ChangeWorkItemStatus;
      if t.taskType == "document_review" {
        action := SendDocument;
      } else if t.taskType == "finance_assist" {
        action := ActionType.CreateInvoice;
      }
      if proposal in proposals { return Some(DuplicateKey); }
      proposals := proposals[proposal := NewProposal(t.agent, Some(task), action, now)];
      tasks := tasks[task := tasks[task].(status := TaskCompleted)];
      RecordUsage(TaskDone, t.agent, Some(task), Some(proposal), 200);
      failure := None;
    }

    method CreateProposal(id: Id, agent: Id, task: Option<Id>, action: ActionType, now: Instant)
      returns (r: Result<Proposal, Failure>)
      modifies this
      ensures
        var request := Request.CreateProposal(id, agent, task, action, now);
        && View() == Next(old(View()), request)
        && (r.Ok? <==> Attempt(old(View()), request).Ok?)
        && (r.Err? ==> r.error == Attempt(old(View()), request).error)
      ensures r.Ok? ==> id in proposals && r.value == proposals[id]
    {
      if agent !in agents { return Err(NotFound); }
      if task.Some? && task.value !in tasks { return Err(NotFound); }
      if id in proposals { return Err(DuplicateKey); }
      proposals := proposals[id := NewProposal(agent, task, action, now)];
      RecordUsage(ProposalCreated, agent, task, Some(id), 50);
      r := Ok(proposals[id]);
    }

    /** Marks a late proposal as expired before failing; the caller's failure takes the mark back. */
    method EnsurePending(id: Id, checkedAt: Instant) returns (failure: Option<Failure>)
      requires id in proposals
      modifies this`proposals
      ensures failure == if Decidable(old(View()), id, checkedAt) then None else Some(Conflict)
      ensures proposals ==
        if old(proposals)[id].status == Pending && IsExpired(old(proposals)[id], checkedAt)
        then old(proposals)[id := old(proposals)[id].(status := Expired)] else old(proposals)
    {
      if proposals[id].status != Pending { return Some(Conflict); }
      if IsExpired(proposals[id], checkedAt) {
        proposals := proposals[id := proposals[id].(status := Expired)];
        return Some(Conflict);
      }
      failure := None;
    }

    method ApproveProposal(id: Id, user: Id, checkedAt: Instant, now: Instant) returns (r: Result<Proposal, Failure>)
      modifies this
      ensures View() == Next(old(View()), Approve(id, user, checkedAt, now))
      ensures r.Ok? <==> Decidable(old(View()), id, checkedAt)
      ensures r == Err(NotFound) <==> id !in old(proposals)
      ensures r.Ok? ==> id in proposals && r.value == proposals[id] && r.value.status == Approved
      ensures approvals == old(approvals) + if r.Ok? then [Approval(id, user, Accept, now)] else []
    {
      if id !in proposals { return Err(NotFound); }
      var saved := proposals;
      var failure := EnsurePending(id, checkedAt);
      if failure.Some? {
        proposals := saved;
        return Err(failure.value);
      }
      approvals := approvals + [Approval(id, user, Accept, now)];
      proposals := proposals[id := proposals[id].(status := Approved)];
      RecordUsage(ProposalApproved, proposals[id].agent, None, Some(id), 0);
      r := Ok(proposals[id]);
    }

    method RejectProposal(id: Id, user: Id, checkedAt: Instant, now: Instant) returns (r: Result<Proposal, Failure>)
      modifies this
      ensures View() == Next(old(View()), Reject(id, user, checkedAt, now))
      ensures r.Ok? <==> Decidable(old(View()), id, checkedAt)
      ensures r == Err(NotFound) <==> id !in old(proposals)
      ensures r.Ok? ==> id in proposals && r.value == proposals[id] && r.value.status == Rejected
      ensures approvals == old(approvals) + if r.Ok? then [Approval(id, user, Refuse, now)] else []
    {
      if id !in proposals { return Err(NotFound); }
      var saved := proposals;
      var failure := EnsurePending(id, checkedAt);
      if failure.Some? {
        proposals := saved;
        return Err(failure.value);
      }
      approvals := approvals + [Approval(id, user, Refuse, now)];
      proposals := proposals[id := proposals[id].(status := Rejected)];
      RecordUsage(ProposalRejected, proposals[id].agent, None, Some(id), 0);
      r := Ok(proposals[id]);
    }

    method ExecuteProposal(id: Id, now: Instant) returns (r: Result<Proposal, Failure>)
      requires Sound(View())
      modifies this
      ensures View() == Next(old(View()), Execute(id, now)) && Sound(View())
      ensures r.Ok? <==> Attempt(old(View()), Execute(id, now)).Ok?
      ensures r.Err? ==> r.error == Attempt(old(View()), Execute(id, now)).error
      ensures r.Ok? ==>
        && id in proposals && r.value == proposals[id]
        && r.value.status == Executed && r.value.executedAt == Some(now)
    {
      NextKeepsSound(View(), Execute(id, now));
      if id !in proposals { return Err(NotFound); }
      var proposal := proposals[id];
      if proposal.agent !in agents { return Err(NotFound); }
      var agent := agents[proposal.agent];
      if proposal.status == Executed { return Err(Conflict); }
      if proposal.status == Rejected { return Err(Conflict); }
      if proposal.status == Cancelled { return Err(Conflict); }
      if proposal.isCritical && agent.requiresApproval {
        if proposal.status != Approved { return Err(PermissionDenied); }
      }
      proposals := proposals[id := proposal.(status := Executed, executedAt := Some(now))];
      RecordUsage(ProposalExecuted, proposal.agent, None, Some(id), 25);
      r := Ok(proposals[id]);
    }
  }
}
