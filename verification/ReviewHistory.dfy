/** What becomes of a proposal, read off the calls alone: which call decides it, which
    one applies it, and what each leaves behind. */
module ReviewHistory {
  import opened ReviewQueue
  import opened TextSpace
  import opened Options

  // ----- One proposal's story -----

  /** The name under which `approve` and `reject` are called. */
  function NameOf(actor: string, reviewer: string): string {
    if actor == "" then reviewer else actor
  }

  /** The call decides the proposal, if it is still pending. */
  predicate Decides(c: Call, id: Id) {
    match c
    case CallResolve(i, decision, _, apply, _, _) => i == id && (decision == Approve || (decision == Reject && !apply))
    case CallNamed(i, _, actor, reviewer, _) => i == id && !IsBlank(NameOf(actor, reviewer))
    case _ => false
  }

  /** How a deciding call leaves the proposal: whom it names, and the reason of a
      rejection.  A blank name is refused after the status has been set. */
  function DecidedBy(p: Proposal, c: Call): Proposal
    requires Decides(c, c.id)
  {
    match c
    case CallResolve(_, decision, actor, _, reason, _) =>
      var status := if decision == Approve then Approved else Rejected;
      if IsBlank(actor) then p.(status := status)
      else if decision == Approve then p.(status := status, reviewer := Some(Strip(actor)))
      else p.(status := status, reviewer := Some(Strip(actor)), rejectionReason := Some(reason))
    case CallNamed(_, true, actor, reviewer, _) =>
      p.(status := Approved, reviewer := Some(Strip(NameOf(actor, reviewer))))
    case CallNamed(_, false, actor, reviewer, reason) =>
      p.(status := Rejected, reviewer := Some(Strip(NameOf(actor, reviewer))), rejectionReason := Some(reason))
  }

  /** The call has the store change something for an approved proposal, and the store
      answers; a later applier may be anyone but a blank name. */
  predicate Stores(c: Call, id: Id, reviewer: Option<string>) {
    match c
    case CallResolve(i, decision, _, apply, _, answer) => i == id && decision == Approve && apply && answer.Some?
    case CallApply(i, actor, answer) =>
      i == id && answer.Some?
      && (actor != "" ==> !IsBlank(actor))
      && (actor == "" && reviewer.Some? && reviewer.value != "" ==> !IsBlank(reviewer.value))
    case _ => false
  }

  function AnswerOf(c: Call): Option<Id> {
    match c
    case CallResolve(_, _, _, _, _, answer) => answer
    case CallApply(_, _, answer) => answer
    case _ => None
  }

  /** One call further.  A call that both decides and applies needs a name for it. */
  function NextOf(p: Proposal, id: Id, c: Call): Proposal {
    if p.status == Pending && Decides(c, id) then
      var decided := DecidedBy(p, c);
      if Stores(c, id, None) && !IsBlank(c.actor) then decided.(status := Applied, appliedAtom := AnswerOf(c)) else decided
    else if p.status == Approved && Stores(c, id, p.reviewer) then p.(status := Applied, appliedAtom := AnswerOf(c))
    else p
  }

  function FateOf(p: Proposal, id: Id, calls: seq<Call>): Proposal
    decreases |calls|
  {
    if calls == [] then p else FateOf(NextOf(p, id, calls[0]), id, calls[1..])
  }

  lemma ResolveFate(q: Queue, id: Id, c: Call)
    requires id in q.proposals && c.CallResolve?
    ensures id in Resolve(q, c.id, c.decision, c.actor, c.apply, c.reason, c.answer).queue.proposals
    ensures Resolve(q, c.id, c.decision, c.actor, c.apply, c.reason, c.answer).queue.proposals[id]
         == NextOf(q.proposals[id], id, c)
  {
    BlankIsStrippedAway(c.actor);
    hide Strip, IsBlank;
  }

  lemma NamedFate(q: Queue, id: Id, c: Call)
    requires id in q.proposals && c.CallNamed?
    ensures id in Do(q, c).queue.proposals && Do(q, c).queue.proposals[id] == NextOf(q.proposals[id], id, c)
  {
    var name := NameOf(c.actor, c.reviewer);
    var resolve := CallResolve(c.id, if c.approve then Approve else Reject, Strip(name), false, c.reason, None);
    BlankIsStrippedAway(name);
    BlankIsStrippedAway(Strip(name));
    StripTwice(name);
    ResolveFate(q, id, resolve);
    hide Strip, IsBlank, Resolve;
  }

  lemma ApplyFate(q: Queue, id: Id, c: Call)
    requires id in q.proposals && c.CallApply?
    ensures id in Do(q, c).queue.proposals && Do(q, c).queue.proposals[id] == NextOf(q.proposals[id], id, c)
  {
    if c.id in q.proposals {
      var effective := EffectiveActor(c.actor, q.proposals[c.id].reviewer);
      BlankIsStrippedAway(effective);
      LegacyIsNoBlank();
      ResolveFate(q, id, CallResolve(c.id, Approve, effective, true, "", c.answer));
    }
    hide Strip, IsBlank, Resolve;
  }

  lemma LegacyIsNoBlank()
    ensures !IsBlank("legacy-apply")
  {
    assert !IsSpace("legacy-apply"[0]);
  }

  lemma CallFate(q: Queue, id: Id, c: Call)
    requires id in q.proposals && IsCallable(q, c)
    ensures id in Do(q, c).queue.proposals && Do(q, c).queue.proposals[id] == NextOf(q.proposals[id], id, c)
  {
    match c
    case CallPropose(_, _) => hide Strip;
    case CallResolve(_, _, _, _, _, _) => ResolveFate(q, id, c);
    case CallNamed(_, _, _, _, _) => NamedFate(q, id, c);
    case CallApply(_, _, _) => ApplyFate(q, id, c);
  }

  /** After any run each proposal is what its own calls make of it: pending until the
      first that decides it, with that call's decision, reviewer and reason; then, if
      approved, unapplied until the first that the store answers, with that answer. */
  lemma {:induction false} RunsAreFate(q: Queue, id: Id, calls: seq<Call>)
    requires id in q.proposals && Runs(q, calls)
    ensures id in After(q, calls).proposals && After(q, calls).proposals[id] == FateOf(q.proposals[id], id, calls)
    decreases |calls|
  {
    hide Do, NextOf, IsCallable;
    if calls != [] {
      CallFate(q, id, calls[0]);
      RunsAreFate(Do(q, calls[0]).queue, id, calls[1..]);
    }
  }

  // ----- What the store is asked to do -----

  /** A creation adds the candidate, an edit replaces the target by it, and a deletion
      buries the target for as long as was proposed. */
  predicate IsAsProposed(m: Mutation, p: Proposal) {
    && (p.action == Create <==> m.change.AddCandidate?)
    && (p.action == Edit <==> m.change.SupersedeAtom?)
    && (p.action == Delete <==> m.change.TombstoneAtom?)
    && (p.action != Delete ==> m.change.candidate == p.candidate)
    && (p.action != Create ==> m.change.target == p.target)
    && (p.action == Delete ==> m.change.retentionDays == p.retentionDays)
  }

  ghost predicate AllAsProposed(q: Queue) {
    forall i :: 0 <= i < |q.mutations| ==>
      q.mutations[i].id in q.proposals && IsAsProposed(q.mutations[i], q.proposals[q.mutations[i].id])
  }

  /** Only the calls on a proposal add to the changes, at the end, and as proposed. */
  lemma CallStores(q: Queue, c: Call)
    requires IsCallable(q, c)
    ensures var q' := Do(q, c).queue;
      || q'.mutations == q.mutations
      || (c.id in q.proposals && exists m :: q'.mutations == q.mutations + [m] && m.id == c.id
                                               && IsAsProposed(m, q.proposals[c.id]))
  {
    hide Strip;
    if c.id in q.proposals {
      assert IsAsProposed(Mutation(c.id, ChangeFor(q.proposals[c.id])), q.proposals[c.id]);
    }
  }

  lemma CallIsAsProposed(q: Queue, c: Call)
    requires Accounted(q) && AllAsProposed(q) && IsCallable(q, c)
    ensures AllAsProposed(Do(q, c).queue)
  {
    CallIsSafe(q, c);
    CallStores(q, c);
    hide Do, Accounted;
    var q' := Do(q, c).queue;
    forall i | 0 <= i < |q'.mutations|
      ensures q'.mutations[i].id in q'.proposals && IsAsProposed(q'.mutations[i], q'.proposals[q'.mutations[i].id])
    {
      var id := q'.mutations[i].id;
      assert i < |q.mutations| ==> q'.mutations[i] == q.mutations[i];
      assert id in q.proposals && IsAsProposed(q'.mutations[i], q.proposals[id]);
      assert Continues(q.proposals[id], q'.proposals[id]);
    }
  }

  lemma {:induction false} RunsStoreAsProposed(q: Queue, calls: seq<Call>)
    requires Accounted(q) && AllAsProposed(q) && Runs(q, calls)
    ensures AllAsProposed(After(q, calls))
    decreases |calls|
  {
    hide Do, Accounted, AllAsProposed, IsCallable;
    if calls != [] {
      CallIsSafe(q, calls[0]);
      CallIsAsProposed(q, calls[0]);
      RunsStoreAsProposed(Do(q, calls[0]).queue, calls[1..]);
    }
  }

  /** Over every run from the empty queue the store is changed for the applied
      proposals and no others, once each, and just as they propose. */
  lemma StoreChangesAreTheApplied(calls: seq<Call>, id: Id)
    requires Runs(EMPTY_QUEUE, calls)
    ensures var q := After(EMPTY_QUEUE, calls);
      && AllAsProposed(q) && Count(q.mutations, id) <= 1
      && (Count(q.mutations, id) == 1 <==> id in q.proposals && q.proposals[id].status == Applied)
  {
    EveryProposalMutatesAtMostOnce(calls, id);
    RunsStoreAsProposed(EMPTY_QUEUE, calls);
    hide Runs, After, Count;
  }

  // ----- When a call is refused -----

  /** A proposal is refused exactly for a blank reason, a negative retention, a missing
      target of an edit or deletion, or a missing candidate of a creation or edit. */
  lemma ProposeIsRefusedIff(q: Queue, id: Id, p: Proposal)
    ensures var r := Propose(q, id, p);
      && (r.outcome == Raised(ValueError) <==>
            IsBlank(p.reasonCode) || p.retentionDays < 0 || (p.action != Create && IsBlank(p.target))
            || (p.action != Delete && p.candidate == None))
      && (r.outcome == Returned || r == Result(q, Raised(ValueError)))
      && (r.outcome == Returned ==> r.queue == Queue(q.proposals[id := p], q.mutations))
  {
    BlankIsStrippedAway(p.reasonCode);
    BlankIsStrippedAway(p.target);
    hide Strip, IsBlank;
  }

  /** Resolving raises exactly: on a decision it does not know or a rejection to be
      applied, an unknown proposal, an opposite decision, a blank name on a pending
      proposal, and a failing store; and never for want of an approval. */
  lemma ResolveRaisesIff(q: Queue, id: Id, decision: Decision, actor: string, apply: bool, reason: string, answer: Option<Id>)
    ensures var r := Resolve(q, id, decision, actor, apply, reason, answer);
      var isBad := decision.OtherDecision? || (apply && decision != Approve);
      var status := if id in q.proposals then q.proposals[id].status else Pending;
      var isOpposed := !isBad && id in q.proposals
        && ((status == Rejected && decision == Approve) || ((status == Approved || status == Applied) && decision == Reject));
      var isNameless := !isBad && id in q.proposals && status == Pending && IsBlank(actor);
      && (r.outcome == Raised(KeyError) <==> !isBad && id !in q.proposals)
      && (r.outcome == Raised(DecisionConflict) <==> isOpposed)
      && (r.outcome == Raised(ValueError) <==> isBad || isNameless)
      && (r.outcome == Raised(StoreError) <==>
            !isBad && id in q.proposals && apply && answer == None && !isNameless && (status == Pending || status == Approved))
      && r.outcome != Raised(PermissionError)
  {
    BlankIsStrippedAway(actor);
    hide Strip, IsBlank;
  }

  /** Applying raises exactly: on an unknown proposal, one that is not approved, a blank
      name, and a failing store. */
  lemma ApplyRaisesIff(q: Queue, id: Id, actor: string, answer: Option<Id>)
    ensures var r := Apply(q, id, actor, answer);
      var isReady := id in q.proposals && (q.proposals[id].status == Approved || q.proposals[id].status == Applied);
      var isNameless := isReady
        && (if actor != "" then IsBlank(actor)
            else q.proposals[id].reviewer.Some? && q.proposals[id].reviewer.value != "" && IsBlank(q.proposals[id].reviewer.value));
      && (r.outcome == Raised(KeyError) <==> id !in q.proposals)
      && (r.outcome == Raised(PermissionError) <==> id in q.proposals && !isReady)
      && (r.outcome == Raised(ValueError) <==> isNameless)
      && (r.outcome == Raised(StoreError) <==> isReady && !isNameless && q.proposals[id].status == Approved && answer == None)
      && r.outcome != Raised(DecisionConflict)
  {
    if id in q.proposals {
      var effective := EffectiveActor(actor, q.proposals[id].reviewer);
      BlankIsStrippedAway(effective);
      LegacyIsNoBlank();
      ResolveRaisesIff(q, id, Approve, effective, true, "", answer);
    }
    hide Strip, IsBlank, Resolve;
  }

  /** Approving and rejecting raise exactly: on a blank name, an unknown proposal, and an
      opposite decision. */
  lemma NamedRaisesIff(q: Queue, id: Id, approve: bool, actor: string, reviewer: string, reason: string)
    ensures var r := ResolveNamed(q, id, if approve then Approve else Reject, actor, reviewer, reason);
      var isNamed := !IsBlank(NameOf(actor, reviewer));
      && (r.outcome == Raised(ValueError) <==> !isNamed)
      && (r.outcome == Raised(KeyError) <==> isNamed && id !in q.proposals)
      && (r.outcome == Raised(DecisionConflict) <==>
            isNamed && id in q.proposals
            && (if approve then q.proposals[id].status == Rejected
                else q.proposals[id].status == Approved || q.proposals[id].status == Applied))
      && r.outcome != Raised(PermissionError) && r.outcome != Raised(StoreError)
  {
    var name := NameOf(actor, reviewer);
    BlankIsStrippedAway(name);
    BlankIsStrippedAway(Strip(name));
    StripTwice(name);
    ResolveRaisesIff(q, id, if approve then Approve else Reject, Strip(name), false, reason, None);
    hide Strip, IsBlank, Resolve;
  }
}
