/** What every run of requests keeps true of AI proposals, and what the usage ledger adds up to. */
module AiProperties {
  import opened Common
  import opened Sums
  import opened AiModel

  // ----- one step -----

  lemma DecidingKeepsSound(d: Desk, id: Id, user: Id, decision: Decision, checkedAt: Instant, now: Instant)
    requires Sound(d) && Decidable(d, id, checkedAt)
    ensures Sound(Decided(d, id, user, decision, checkedAt, now).value)
  {
    var next := Decided(d, id, user, decision, checkedAt, now).value;
    var n := |d.approvals|;
    assert forall k :: 0 <= k < n ==> next.approvals[k] == d.approvals[k];
    assert next.approvals[n].proposal == id;
    forall other | other in next.proposals ensures ProposalSound(next, other, next.proposals[other]) {
      assert ProposalSound(d, other, d.proposals[other]);
      if other != id && HasDecision(d.approvals, other) {
        var k :| 0 <= k < n && d.approvals[k].proposal == other;
        assert next.approvals[k].proposal == other;
      }
    }
  }

  lemma NextKeepsSound(d: Desk, r: Request)
    requires Sound(d)
    ensures Sound(Next(d, r))
  {
    var next := Next(d, r);
    if (r.Approve? || r.Reject?) && Decidable(d, r.id, r.checkedAt) {
      DecidingKeepsSound(d, r.id, r.user, if r.Approve? then Accept else Refuse, r.checkedAt, r.now);
    } else {
      assert next.approvals == d.approvals;
      forall id | id in next.proposals ensures ProposalSound(next, id, next.proposals[id]) {
        if id in d.proposals { assert ProposalSound(d, id, d.proposals[id]); }
      }
    }
  }

  /** Every reachable desk is sound. */
  lemma {:induction false} EveryRunIsSound(requests: seq<Request>)
    ensures Sound(After(requests))
  {
    if requests != [] {
      var n := |requests| - 1;
      EveryRunIsSound(requests[..n]);
      NextKeepsSound(After(requests[..n]), requests[n]);
    }
  }

  /** Row k, and no other, is the decision on the proposal. */
  ghost predicate OnlyRow(rows: seq<Approval>, id: Id, decision: Decision, k: nat) {
    && k < |rows| && rows[k].proposal == id && rows[k].decision == decision
    && forall j :: 0 <= j < |rows| && rows[j].proposal == id ==> j == k
  }

  ghost predicate DecidedOnce(d: Desk, id: Id, decision: Decision) {
    exists k :: OnlyRow(d.approvals, id, decision, k)
  }

  /** The decision rows tell the status: none, one approval or one rejection, and nothing else. */
  lemma DecisionsMatchStatus(requests: seq<Request>, id: Id)
    requires id in After(requests).proposals
    ensures
      var d := After(requests);
      match d.proposals[id].status
      case Pending => !HasDecision(d.approvals, id)
      case Approved => DecidedOnce(d, id, Accept)
      case Rejected => DecidedOnce(d, id, Refuse)
      case Executed => !HasDecision(d.approvals, id) || DecidedOnce(d, id, Accept)
      case Expired => false
      case Cancelled => false
  {
    EveryRunIsSound(requests);
    var d := After(requests);
    assert ProposalSound(d, id, d.proposals[id]);
    if HasDecision(d.approvals, id) {
      var k :| 0 <= k < |d.approvals| && d.approvals[k].proposal == id;
      assert OnlyRow(d.approvals, id, d.approvals[k].decision, k);
    }
  }

  // ----- what never changes -----

  ghost predicate SameTerms(p: Proposal, q: Proposal) {
    p.agent == q.agent && p.task == q.task && p.action == q.action && p.isCritical == q.isCritical
    && p.expiresAt == q.expiresAt
  }

  lemma TermsStay(d: Desk, r: Request, id: Id)
    ensures id in d.proposals ==>
      id in Next(d, r).proposals && SameTerms(d.proposals[id], Next(d, r).proposals[id])
  {
  }

  /** Who proposed what, and until when, is fixed at creation. */
  lemma {:induction false} TermsNeverChange(requests: seq<Request>, n: nat, id: Id)
    requires n <= |requests| && id in After(requests[..n]).proposals
    ensures id in After(requests).proposals
    ensures SameTerms(After(requests[..n]).proposals[id], After(requests).proposals[id])
  {
    if n == |requests| {
      assert requests[..n] == requests;
    } else {
      var last := |requests| - 1;
      assert requests[..last][..n] == requests[..n];
      TermsNeverChange(requests[..last], n, id);
      TermsStay(After(requests[..last]), requests[last], id);
    }
  }

  predicate Final(p: Proposal) {
    p.status in {Rejected, Executed}
  }

  ghost predicate Untouched(d: Desk, next: Desk, id: Id) {
    && id in d.proposals && id in next.proposals && next.proposals[id] == d.proposals[id]
    && |d.approvals| <= |next.approvals|
    && (forall k :: 0 <= k < |d.approvals| ==> next.approvals[k] == d.approvals[k])
    && (forall k :: |d.approvals| <= k < |next.approvals| ==> next.approvals[k].proposal != id)
  }

  lemma FinalStays(d: Desk, r: Request, id: Id)
    requires id in d.proposals && Final(d.proposals[id])
    ensures Untouched(d, Next(d, r), id)
  {
  }

  lemma UntouchedTwice(a: Desk, b: Desk, c: Desk, id: Id)
    requires Untouched(a, b, id) && Untouched(b, c, id)
    ensures Untouched(a, c, id)
  {
  }

  /** A rejected or executed proposal and its decisions never change again. */
  lemma {:induction false} FinalForever(requests: seq<Request>, n: nat, id: Id)
    requires n <= |requests|
    requires id in After(requests[..n]).proposals && Final(After(requests[..n]).proposals[id])
    ensures Untouched(After(requests[..n]), After(requests), id)
  {
    if n == |requests| {
      assert requests[..n] == requests;
    } else {
      var last := |requests| - 1;
      var before := requests[..last];
      assert before[..n] == requests[..n];
      FinalForever(before, n, id);
      FinalStays(After(before), requests[last], id);
      UntouchedTwice(After(requests[..n]), After(before), After(requests), id);
    }
  }

  // ----- the human-approval rule -----

  ghost predicate Signed(d: Desk, id: Id) {
    exists k :: 0 <= k < |d.approvals| && d.approvals[k].proposal == id && d.approvals[k].decision == Accept
  }

  /** The history predicates look at the shorter run and at the last request. */
  lemma HistoryGrows(requests: seq<Request>, id: Id)
    requires requests != []
    ensures
      var n := |requests| - 1;
      && (ApprovedInTime(requests, id) <==> ApprovedInTime(requests[..n], id) || ApprovedAt(requests, id, n))
      && (Waived(requests, id) <==> Waived(requests[..n], id) || WaivedAt(requests, id, n))
  {
    var n := |requests| - 1;
    var before := requests[..n];
    forall k | 0 <= k < n
      ensures ApprovedAt(requests, id, k) == ApprovedAt(before, id, k)
      ensures WaivedAt(requests, id, k) == WaivedAt(before, id, k)
    {
      assert before[..k] == requests[..k];
    }
  }

  lemma NextSigns(d: Desk, r: Request, id: Id)
    ensures Signed(Next(d, r), id) <==>
      Signed(d, id) || (r.Approve? && r.id == id && Decidable(d, id, r.checkedAt))
  {
    var next := Next(d, r);
    if Signed(d, id) {
      var k :| 0 <= k < |d.approvals| && d.approvals[k].proposal == id && d.approvals[k].decision == Accept;
      assert next.approvals[k] == d.approvals[k];
    }
    if r.Approve? && Decidable(d, r.id, r.checkedAt) {
      assert next.approvals[|d.approvals|] == Approval(r.id, r.user, Accept, r.now);
    }
  }

  /** An approval row exists exactly when the proposal was approved in time during the run. */
  lemma {:induction false} SignedIffApprovedInTime(requests: seq<Request>, id: Id)
    ensures Signed(After(requests), id) <==> ApprovedInTime(requests, id)
  {
    if requests != [] {
      var n := |requests| - 1;
      SignedIffApprovedInTime(requests[..n], id);
      HistoryGrows(requests, id);
      NextSigns(After(requests[..n]), requests[n], id);
    }
  }

  ghost predicate ExecutedUnsigned(d: Desk, id: Id) {
    id in d.proposals && d.proposals[id].status == Executed && !Signed(d, id)
  }

  lemma WaivedStep(d: Desk, r: Request, id: Id)
    requires Sound(d) && (id in d.proposals ==> d.proposals[id].isCritical)
    ensures ExecutedUnsigned(Next(d, r), id) <==> ExecutedUnsigned(d, id) || WaivedNow(d, r, id)
  {
    NextSigns(d, r, id);
    if id in d.proposals {
      assert ProposalSound(d, id, d.proposals[id]);
      if Final(d.proposals[id]) {
        FinalStays(d, r, id);
      } else if d.proposals[id].status == Approved {
        var k :| 0 <= k < |d.approvals| && d.approvals[k].proposal == id;
        assert Signed(d, id);
      }
    }
  }

  /**
   * A critical proposal that was executed was either approved in time, and then has its one
   * approval row, or was executed undecided while its agent's flag was off; never both.
   */
  lemma {:induction false} ExecutedMeansApprovedOrWaived(requests: seq<Request>, id: Id)
    requires id in After(requests).proposals
    requires After(requests).proposals[id].isCritical && After(requests).proposals[id].status == Executed
    ensures ApprovedInTime(requests, id) <==> DecidedOnce(After(requests), id, Accept)
    ensures Waived(requests, id) <==> !ApprovedInTime(requests, id)
  {
    DecisionsMatchStatus(requests, id);
    SignedIffApprovedInTime(requests, id);
    WaivedIffUnsigned(requests, id);
  }

  lemma {:induction false} WaivedIffUnsigned(requests: seq<Request>, id: Id)
    requires id in After(requests).proposals ==> After(requests).proposals[id].isCritical
    ensures Waived(requests, id) <==> ExecutedUnsigned(After(requests), id)
  {
    if requests != [] {
      var n := |requests| - 1;
      TermsStay(After(requests[..n]), requests[n], id);
      WaivedIffUnsigned(requests[..n], id);
      HistoryGrows(requests, id);
      EveryRunIsSound(requests[..n]);
      WaivedStep(After(requests[..n]), requests[n], id);
    }
  }

  /** A request of the run approved the proposal, and checked it no later than its deadline. */
  ghost predicate TimelyApproval(requests: seq<Request>, id: Id, deadline: Instant, k: nat) {
    k < |requests| && requests[k].Approve? && requests[k].id == id && requests[k].checkedAt <= deadline
  }

  lemma WaivedNeedsFlagOff(requests: seq<Request>, id: Id)
    requires id in After(requests).proposals && Waived(requests, id)
    ensures !AlwaysRequires(requests, After(requests).proposals[id].agent)
  {
    var k :| 0 <= k < |requests| && WaivedAt(requests, id, k);
    TermsNeverChange(requests, k, id);
    assert !RequiresNow(After(requests[..k]), After(requests).proposals[id].agent);
  }

  /**
   * While an agent's flag stays on, each of its executed critical proposals has exactly one decision
   * row, an approval, made by a request whose expiry check ran no later than the deadline.
   */
  lemma HumanApprovalRule(requests: seq<Request>, id: Id)
    requires id in After(requests).proposals
    requires
      var p := After(requests).proposals[id];
      p.isCritical && p.status == Executed && AlwaysRequires(requests, p.agent)
    ensures DecidedOnce(After(requests), id, Accept)
    ensures
      var deadline := After(requests).proposals[id].expiresAt;
      deadline.Some? && exists k :: TimelyApproval(requests, id, deadline.value, k)
  {
    ExecutedMeansApprovedOrWaived(requests, id);
    if Waived(requests, id) { WaivedNeedsFlagOff(requests, id); }
    var k :| 0 <= k < |requests| && ApprovedAt(requests, id, k);
    EveryRunIsSound(requests[..k]);
    TermsNeverChange(requests, k, id);
    assert ProposalSound(After(requests[..k]), id, After(requests[..k]).proposals[id]);
    assert TimelyApproval(requests, id, After(requests).proposals[id].expiresAt.value, k);
  }

  // ----- when a request succeeds -----

  /** A decision goes through exactly on a known, pending proposal checked by its deadline. */
  lemma DecisionAllowedIff(requests: seq<Request>, r: Request)
    requires r.Approve? || r.Reject?
    ensures
      var d := After(requests);
      Attempt(d, r).Ok? <==>
        && r.id in d.proposals
        && var p := d.proposals[r.id];
          p.status == Pending && p.expiresAt.Some? && r.checkedAt <= p.expiresAt.value
  {
    EveryRunIsSound(requests);
    var d := After(requests);
    if r.id in d.proposals { assert ProposalSound(d, r.id, d.proposals[r.id]); }
  }

  /**
   * Execution goes through exactly on an approved proposal, or on a pending one that is not critical
   * or whose agent needs no approval. Neither the deadline nor the agent's activity is asked.
   */
  lemma ExecutionAllowedIff(requests: seq<Request>, id: Id, now: Instant)
    ensures
      var d := After(requests);
      Attempt(d, Execute(id, now)).Ok? <==>
        && id in d.proposals
        && var p := d.proposals[id];
          || p.status == Approved
          || (p.status == Pending && (p.action == Other || !RequiresNow(d, p.agent)))
    ensures
      var d := After(requests);
      Attempt(d, Execute(id, now)) == Err(PermissionDenied) <==>
        && id in d.proposals
        && var p := d.proposals[id];
          p.status == Pending && p.action != Other && RequiresNow(d, p.agent)
  {
    EveryRunIsSound(requests);
    var d := After(requests);
    if id in d.proposals { assert ProposalSound(d, id, d.proposals[id]); }
  }

  // ----- usage -----

  function CompletedTasks(d: Desk): set<Id> {
    set id | id in d.tasks && d.tasks[id].status == TaskCompleted
  }

  function ExecutedProposals(d: Desk): set<Id> {
    set id | id in d.proposals && d.proposals[id].status == Executed
  }

  function TokensDue(d: Desk): int {
    100 * |d.tasks| + 150 * |CompletedTasks(d)| + 50 * |d.proposals| + 25 * |ExecutedProposals(d)|
  }

  lemma WaitingTaskCounts(d: Desk, r: Request)
    requires r.CreateTask? && r.run.None? && Attempt(d, r).Ok?
    ensures
      var next := Next(d, r);
      Sum(next.usage, USAGE_TOKENS) - Sum(d.usage, USAGE_TOKENS) == TokensDue(next) - TokensDue(d)
  {
    var next := Next(d, r);
    SumSnoc(d.usage, Usage(TaskCreated, r.agent, Some(r.id), None, 100), USAGE_TOKENS);
    assert ExecutedProposals(next) == ExecutedProposals(d);
    assert CompletedTasks(next) == CompletedTasks(d);
  }

  lemma RunTaskCounts(d: Desk, r: Request)
    requires r.CreateTask? && r.run.Some? && Attempt(d, r).Ok?
    ensures
      var next := Next(d, r);
      Sum(next.usage, USAGE_TOKENS) - Sum(d.usage, USAGE_TOKENS) == TokensDue(next) - TokensDue(d)
  {
    var next := Next(d, r);
    var added := Usage(TaskCreated, r.agent, Some(r.id), None, 100);
    SumSnoc(d.usage, added, USAGE_TOKENS);
    SumSnoc(d.usage + [added], Usage(TaskDone, r.agent, Some(r.id), r.run, 200), USAGE_TOKENS);
    assert ExecutedProposals(next) == ExecutedProposals(d);
    assert CompletedTasks(next) == CompletedTasks(d) + {r.id};
  }

  lemma ExecutionCounts(d: Desk, r: Request)
    requires r.Execute? && Attempt(d, r).Ok?
    ensures
      var next := Next(d, r);
      Sum(next.usage, USAGE_TOKENS) - Sum(d.usage, USAGE_TOKENS) == TokensDue(next) - TokensDue(d)
  {
    var next := Next(d, r);
    SumSnoc(d.usage, Usage(ProposalExecuted, d.proposals[r.id].agent, None, Some(r.id), 25), USAGE_TOKENS);
    assert ExecutedProposals(next) == ExecutedProposals(d) + {r.id};
  }

  lemma OtherRequestCounts(d: Desk, r: Request)
    requires !r.CreateTask? && !r.Execute? && Attempt(d, r).Ok?
    ensures
      var next := Next(d, r);
      Sum(next.usage, USAGE_TOKENS) - Sum(d.usage, USAGE_TOKENS) == TokensDue(next) - TokensDue(d)
  {
    var next := Next(d, r);
    if !r.UpdateAgent? { SumSnoc(d.usage, next.usage[|d.usage|], USAGE_TOKENS); }
    assert next.tasks == d.tasks;
    assert ExecutedProposals(next) == ExecutedProposals(d);
  }

  lemma NextCounts(d: Desk, r: Request)
    ensures
      var next := Next(d, r);
      Sum(next.usage, USAGE_TOKENS) - Sum(d.usage, USAGE_TOKENS) == TokensDue(next) - TokensDue(d)
  {
    if Attempt(d, r).Ok? {
      match r {
        case CreateTask(_, _, _, run, _) =>
          if run.None? { WaitingTaskCounts(d, r); } else { RunTaskCounts(d, r); }
        case Execute(_, _) => ExecutionCounts(d, r);
        case _ => OtherRequestCounts(d, r);
      }
    }
  }

  /** The token total is 100 a task, 150 more once it ran, 50 a proposal and 25 an execution. */
  lemma {:induction false} UsageAddsUp(requests: seq<Request>)
    ensures Sum(After(requests).usage, USAGE_TOKENS) == TokensDue(After(requests))
  {
    if requests != [] {
      var n := |requests| - 1;
      UsageAddsUp(requests[..n]);
      NextCounts(After(requests[..n]), requests[n]);
    }
  }
}
