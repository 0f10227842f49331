/** The in-memory queue itself: proposal objects updated in place. */
module ReviewQueueObjects {
  import opened TextSpace
  import opened ReviewQueue
  import opened Options

  class MutationProposal {
    const action: Action
    const target: string
    const candidate: Option<string>
    const reasonCode: string
    const retentionDays: int
    var status: Status
    var reviewer: Option<string>
    var rejectionReason: Option<string>
    var appliedAtom: Option<Id>

    constructor (action: Action, target: string, candidate: Option<string>, reasonCode: string, retentionDays: int)
      ensures State() == Fresh(action, target, candidate, reasonCode, retentionDays)
    {
      this.action, this.target, this.candidate := action, target, candidate;
      this.reasonCode, this.retentionDays := reasonCode, retentionDays;
      status, reviewer, rejectionReason, appliedAtom := Pending, None, None, None;
    }

    function State(): Proposal
      reads this
    {
      Proposal(action, target, candidate, reasonCode, retentionDays, status, reviewer, rejectionReason, appliedAtom)
    }

    /** The first decision; the status is set before the actor is validated. */
    method Decide(decision: Decision, actor: string, reason: string) returns (outcome: Outcome)
      requires decision == Approve || decision == Reject
      modifies this
      ensures (State(), outcome) == ReviewQueue.Decide(old(State()), decision, actor, reason)
    {
      outcome := Returned;
      if status == Pending {
        status := if decision == Approve then Approved else Rejected;
        if Strip(actor) == "" {
          return Raised(ValueError);
        }
        reviewer := Some(Strip(actor));
        if decision == Reject {
          rejectionReason := Some(reason);
        }
      }
    }
  }

  class MutationReviewQueue {
    var proposals: map<Id, MutationProposal>
    ghost var mutations: seq<Mutation>

    /** No two ids share a proposal object. */
    ghost predicate Valid()
      reads this
    {
      forall i, j :: i in proposals && j in proposals && i != j ==> proposals[i] != proposals[j]
    }

    ghost function Model(): Queue
      reads this, proposals.Values
    {
      Queue(map id | id in proposals :: proposals[id].State(), mutations)
    }

    constructor ()
      ensures Valid() && Model() == EMPTY_QUEUE
    {
      proposals, mutations := map[], [];
    }

    /** Proposals are stored under a fresh id, unless they are malformed. */
    method Propose(id: Id, action: Action, target: string, candidate: Option<string>, reasonCode: string, retentionDays: int)
      returns (outcome: Outcome)
      requires Valid() && id !in proposals
      modifies this
      ensures Valid()
      ensures Result(Model(), outcome) ==
        ReviewQueue.Propose(old(Model()), id, Fresh(action, target, candidate, reasonCode, retentionDays))
    {
      hide Strip;
      var proposal := new MutationProposal(action, target, candidate, reasonCode, retentionDays);
      if action != Create && Strip(target) == "" {
        return Raised(ValueError);
      }
      if Strip(reasonCode) == "" {
        return Raised(ValueError);
      }
      if retentionDays < 0 {
        return Raised(ValueError);
      }
      if action != Delete && candidate.None? {
        return Raised(ValueError);
      }
      ghost var before := Model();
      proposals := proposals[id := proposal];
      outcome := Returned;
      assert Model().proposals == before.proposals[id := proposal.State()];
    }

    /** Applies an approved proposal; `answer` is what the store returns, if it is asked. */
    method ApplyInMemory(id: Id, answer: Option<Id>) returns (outcome: Outcome)
      requires Valid() && id in proposals
      modifies this`mutations, proposals[id]
      ensures Valid()
      ensures Result(Model(), outcome) == ApplyApproved(old(Model()), id, answer)
    {
      var proposal := proposals[id];
      ghost var before := Model();
      if proposal.status == Applied {
        return Returned;
      }
      if proposal.status != Approved {
        return Raised(PermissionError);
      }
      if answer.None? {
        return Raised(StoreError);
      }
      if proposal.action == Create {
        mutations := mutations + [Mutation(id, AddCandidate(proposal.candidate))];
      } else if proposal.action == Edit {
        mutations := mutations + [Mutation(id, SupersedeAtom(proposal.target, proposal.candidate))];
      } else {
        mutations := mutations + [Mutation(id, TombstoneAtom(proposal.target, proposal.retentionDays))];
      }
      proposal.status := Applied;
      proposal.appliedAtom := answer;
      outcome := Returned;
      assert Model().proposals == before.proposals[id := proposal.State()];
    }

    method Resolve(id: Id, decision: Decision, actor: string, apply: bool, reason: string, answer: Option<Id>)
      returns (outcome: Outcome)
      requires Valid()
      modifies this`mutations, proposals.Values
      ensures Valid()
      ensures Result(Model(), outcome) == ReviewQueue.Resolve(old(Model()), id, decision, actor, apply, reason, answer)
    {
      hide Strip, ReviewQueue.Decide, ApplyApproved;
      if decision.OtherDecision? {
        return Raised(ValueError);
      }
      if apply && decision != Approve {
        return Raised(ValueError);
      }
      if id !in proposals {
        return Raised(KeyError);
      }
      var proposal := proposals[id];
      var current := DecisionOf(proposal.status);
      if current.Some? && current.value != decision {
        return Raised(DecisionConflict);
      }
      ghost var before := Model();
      outcome := proposal.Decide(decision, actor, reason);
      assert Model().proposals == before.proposals[id := proposal.State()];
      if outcome == Returned && apply {
        outcome := ApplyInMemory(id, answer);
      }
    }

    method Apply(id: Id, actor: string, answer: Option<Id>) returns (outcome: Outcome)
      requires Valid()
      modifies this`mutations, proposals.Values
      ensures Valid()
      ensures Result(Model(), outcome) == ReviewQueue.Apply(old(Model()), id, actor, answer)
    {
      hide Strip, ReviewQueue.Resolve;
      if id !in proposals {
        return Raised(KeyError);
      }
      var proposal := proposals[id];
      if proposal.status != Approved && proposal.status != Applied {
        return Raised(PermissionError);
      }
      var effective := EffectiveActor(actor, proposal.reviewer);
      if Strip(effective) == "" {
        return Raised(ValueError);
      }
      outcome := Resolve(id, Approve, effective, true, "", answer);
    }

    /** `approve` and `reject`. */
    method ResolveNamed(id: Id, decision: Decision, actor: string, reviewer: string, reason: string) returns (outcome: Outcome)
      requires Valid() && (decision == Approve || decision == Reject)
      modifies this`mutations, proposals.Values
      ensures Valid()
      ensures Result(Model(), outcome) == ReviewQueue.ResolveNamed(old(Model()), id, decision, actor, reviewer, reason)
    {
      hide Strip, ReviewQueue.Resolve;
      var value := Strip(if actor != "" then actor else reviewer);
      if value == "" {
        return Raised(ValueError);
      }
      outcome := Resolve(id, decision, value, false, reason, None);
    }
  }
}
