/** Runs that show what a deadline and an inactive agent do not stop. */
module AiRuns {
  import opened Common
  import opened AiModel

  lemma OneMore(requests: seq<Request>, r: Request)
    ensures After(requests + [r]) == Next(After(requests), r)
  {
    var all := requests + [r];
    assert all[..|requests|] == requests;
  }

  /** An agent that needs approvals proposes, at time 0, to send a document. */
  function Proposed(): seq<Request> {
    [CreateAgent(1, "clerk", true, true), CreateProposal(2, 1, None, SendDocument, 0)]
  }

  const CLERK: Agent := Agent("clerk", true, true)

  lemma AfterProposed()
    ensures After(Proposed()).agents == map[1 := CLERK]
    ensures After(Proposed()).proposals == map[2 := NewProposal(1, None, SendDocument, 0)]
  {
    var agent := CreateAgent(1, "clerk", true, true);
    assert After([]) == EMPTY_DESK;
    OneMore([], agent);
    assert [] + [agent] == [agent];
    OneMore([agent], CreateProposal(2, 1, None, SendDocument, 0));
    assert [agent] + [Proposed()[1]] == Proposed();
  }

  /** An approval a second after the deadline fails, and the proposal stays pending. */
  lemma LateApprovalLeavesPending(user: Id, now: Instant)
    ensures
      var late := Approve(2, user, PROPOSAL_LIFETIME + 1, now);
      var end := After(Proposed() + [late]);
      && Attempt(After(Proposed()), late) == Err(Conflict)
      && end.proposals[2].status == Pending && end.approvals == After(Proposed()).approvals
  {
    AfterProposed();
    OneMore(Proposed(), Approve(2, user, PROPOSAL_LIFETIME + 1, now));
  }

  /** Approved in time, the agent then switched off. */
  function SwitchedOff(user: Id): seq<Request> {
    Proposed() + [Approve(2, user, 1, 1)] + [UpdateAgent(1, Some(false), None)]
  }

  lemma AfterSwitchedOff(user: Id)
    ensures After(SwitchedOff(user)).agents == map[1 := CLERK.(isActive := false)]
    ensures After(SwitchedOff(user)).proposals == map[2 := NewProposal(1, None, SendDocument, 0).(status := Approved)]
  {
    AfterProposed();
    OneMore(Proposed(), Approve(2, user, 1, 1));
    OneMore(Proposed() + [Approve(2, user, 1, 1)], UpdateAgent(1, Some(false), None));
  }

  /** The proposal of an agent that is switched off is executed after its deadline. */
  lemma LateExecutionOfInactiveAgent(user: Id)
    ensures
      var before := After(SwitchedOff(user));
      var end := After(SwitchedOff(user) + [Execute(2, PROPOSAL_LIFETIME + 1)]);
      && 1 in before.agents && !before.agents[1].isActive
      && 2 in before.proposals && IsExpired(before.proposals[2], PROPOSAL_LIFETIME + 1)
      && 2 in end.proposals && end.proposals[2].status == Executed
  {
    AfterSwitchedOff(user);
    OneMore(SwitchedOff(user), Execute(2, PROPOSAL_LIFETIME + 1));
  }
}
