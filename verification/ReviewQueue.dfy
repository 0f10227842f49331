/** The mutation review queue: the life of a proposal, and the in-memory queue
    whose store may fail. */
module ReviewQueue {
  import opened TextSpace
  import opened Options

  /** Proposals and atoms are known by opaque ids. */
  type Id = nat

  datatype Action = Create | Edit | Delete

  datatype Status = Pending | Approved | Rejected | Applied

  datatype Decision = Approve | Reject | OtherDecision(text: string)

  datatype Proposal = Proposal(
    action: Action, target: string, candidate: Option<string>, reasonCode: string, retentionDays: int,
    status: Status, reviewer: Option<string>, rejectionReason: Option<string>, appliedAtom: Option<Id>)

  datatype Error = ValueError | KeyError | DecisionConflict | PermissionError | StoreError

  datatype Outcome = Returned | Raised(error: Error)

  /** What the store is asked to do for a proposal. */
  datatype Change =
    | AddCandidate(candidate: Option<string>)
    | SupersedeAtom(target: string, candidate: Option<string>)
    | TombstoneAtom(target: string, retentionDays: int)

  datatype Mutation = Mutation(id: Id, change: Change)

  /** The queue's proposals, and the changes made to the store for them, in order. */
  datatype Queue = Queue(proposals: map<Id, Proposal>, mutations: seq<Mutation>)

  datatype Result = Result(queue: Queue, outcome: Outcome)

  // ----- One call, as a function -----

  /** A proposal as first submitted, with everything about its review unset. */
  function Fresh(action: Action, target: string, candidate: Option<string>, reasonCode: string, retentionDays: int): Proposal {
    Proposal(action, target, candidate, reasonCode, retentionDays, Pending, None, None, None)
  }

  predicate IsAcceptable(p: Proposal) {
    && (p.action != Create ==> Strip(p.target) != "")
    && Strip(p.reasonCode) != ""
    && p.retentionDays >= 0
    && (p.action != Delete ==> p.candidate.Some?)
  }

  function Propose(q: Queue, id: Id, p: Proposal): Result {
    if !IsAcceptable(p) then Result(q, Raised(ValueError)) else Result(q.(proposals := q.proposals[id := p]), Returned)
  }

  /** The decision a status records, if any. */
  function DecisionOf(s: Status): Option<Decision> {
    match s
    case Pending => None
    case Approved => Some(Approve)
    case Applied => Some(Approve)
    case Rejected => Some(Reject)
  }

  /** Records a first decision.  The status is set before the actor is looked at:
      a blank actor raises and leaves the decision standing without a reviewer. */
  function Decide(p: Proposal, decision: Decision, actor: string, reason: string): (Proposal, Outcome)
    requires decision == Approve || decision == Reject
  {
    if p.status != Pending then (p, Returned)
    else
      var decided := p.(status := if decision == Approve then Approved else Rejected);
      if Strip(actor) == "" then (decided, Raised(ValueError))
      else (decided.(reviewer := Some(Strip(actor)),
                     rejectionReason := if decision == Reject then Some(reason) else p.rejectionReason), Returned)
  }

  function ChangeFor(p: Proposal): Change {
    match p.action
    case Create => AddCandidate(p.candidate)
    case Edit => SupersedeAtom(p.target, p.candidate)
    case Delete => TombstoneAtom(p.target, p.retentionDays)
  }

  /** Applies an approved proposal; `answer` is the atom the store returns, None
      where the store fails. */
  function ApplyApproved(q: Queue, id: Id, answer: Option<Id>): Result
    requires id in q.proposals
  {
    var p := q.proposals[id];
    if p.status == Applied then Result(q, Returned)
    else if p.status != Approved then Result(q, Raised(PermissionError))
    else if answer.None? then Result(q, Raised(StoreError))
    else Result(Queue(q.proposals[id := p.(status := Applied, appliedAtom := answer)],
                      q.mutations + [Mutation(id, ChangeFor(p))]), Returned)
  }

  function Resolve(q: Queue, id: Id, decision: Decision, actor: string, apply: bool, reason: string, answer: Option<Id>): Result {
    if decision.OtherDecision? then Result(q, Raised(ValueError))
    else if apply && decision != Approve then Result(q, Raised(ValueError))
    else if id !in q.proposals then Result(q, Raised(KeyError))
    else
      var p := q.proposals[id];
      if DecisionOf(p.status).Some? && DecisionOf(p.status).value != decision then Result(q, Raised(DecisionConflict))
      else
        var (decided, outcome) := Decide(p, decision, actor, reason);
        var q' := q.(proposals := q.proposals[id := decided]);
        if outcome.Raised? || !apply then Result(q', outcome) else ApplyApproved(q', id, answer)
  }

  /** The explicit actor, else the recorded reviewer, else a fixed name. */
  function EffectiveActor(actor: string, reviewer: Option<string>): string {
    if actor != "" then actor
    else if reviewer.Some? && reviewer.value != "" then reviewer.value
    else "legacy-apply"
  }

  function Apply(q: Queue, id: Id, actor: string, answer: Option<Id>): Result {
    if id !in q.proposals then Result(q, Raised(KeyError))
    else
      var p := q.proposals[id];
      if p.status != Approved && p.status != Applied then Result(q, Raised(PermissionError))
      else
        var effective := EffectiveActor(actor, p.reviewer);
        if Strip(effective) == "" then Result(q, Raised(ValueError))
        else Resolve(q, id, Approve, effective, true, "", answer)
  }

  /** `approve` and `reject` look at the actor first. */
  function ResolveNamed(q: Queue, id: Id, decision: Decision, actor: string, reviewer: string, reason: string): Result
    requires decision == Approve || decision == Reject
  {
    var value := Strip(if actor != "" then actor else reviewer);
    if value == "" then Result(q, Raised(ValueError)) else Resolve(q, id, decision, value, false, reason, None)
  }

  // ----- Runs -----

  datatype Call =
    | CallPropose(id: Id, p: Proposal)
    | CallResolve(id: Id, decision: Decision, actor: string, apply: bool, reason: string, answer: Option<Id>)
    | CallNamed(id: Id, approve: bool, actor: string, reviewer: string, reason: string)
    | CallApply(id: Id, actor: string, answer: Option<Id>)

  /** New proposals arrive fresh and under an unused id. */
  predicate IsCallable(q: Queue, c: Call) {
    c.CallPropose? ==>
      c.id !in q.proposals
      && c.p == Fresh(c.p.action, c.p.target, c.p.candidate, c.p.reasonCode, c.p.retentionDays)
  }

  function Do(q: Queue, c: Call): Result {
    match c
    case CallPropose(id, p) => Propose(q, id, p)
    case CallResolve(id, decision, actor, apply, reason, answer) => Resolve(q, id, decision, actor, apply, reason, answer)
    case CallNamed(id, approve, actor, reviewer, reason) =>
      ResolveNamed(q, id, if approve then Approve else Reject, actor, reviewer, reason)
    case CallApply(id, actor, answer) => Apply(q, id, actor, answer)
  }

  predicate Runs(q: Queue, calls: seq<Call>)
    decreases |calls|
  {
    calls == [] || (IsCallable(q, calls[0]) && Runs(Do(q, calls[0]).queue, calls[1..]))
  }

  function After(q: Queue, calls: seq<Call>): Queue
    requires Runs(q, calls)
    decreases |calls|
  {
    if calls == [] then q else After(Do(q, calls[0]).queue, calls[1..])
  }

  const EMPTY_QUEUE := Queue(map[], [])

  function IdsOf(mutations: seq<Mutation>): (ids: seq<Id>)
    ensures |ids| == |mutations| && forall i :: 0 <= i < |mutations| ==> ids[i] == mutations[i].id
  {
    seq(|mutations|, i requires 0 <= i < |mutations| => mutations[i].id)
  }

  function Count(mutations: seq<Mutation>, id: Id): nat {
    multiset(IdsOf(mutations))[id]
  }

  /** The store was changed once for each applied proposal and never otherwise. */
  ghost predicate Accounted(q: Queue) {
    forall id :: Count(q.mutations, id) == if id in q.proposals && q.proposals[id].status == Applied then 1 else 0
  }

  predicate MayBecome(s: Status, t: Status) {
    s == t || s == Pending || (s == Approved && t == Applied)
  }

  /** Nothing about a proposal's decision is ever revised: the status moves only
      forwards, a recorded decision and its reviewer stay, and so do its contents. */
  predicate Continues(p: Proposal, p': Proposal) {
    && MayBecome(p.status, p'.status)
    && (p.status != Pending ==>
          DecisionOf(p'.status) == DecisionOf(p.status)
          && p'.reviewer == p.reviewer && p'.rejectionReason == p.rejectionReason)
    && (p.status == Applied ==> p' == p)
    && p'.(status := p.status, reviewer := p.reviewer, rejectionReason := p.rejectionReason, appliedAtom := p.appliedAtom) == p
  }

  ghost predicate AllContinue(q: Queue, q': Queue) {
    forall id :: id in q.proposals ==> id in q'.proposals && Continues(q.proposals[id], q'.proposals[id])
  }

  lemma AppendCounts(mutations: seq<Mutation>, m: Mutation)
    ensures forall id :: Count(mutations + [m], id) == Count(mutations, id) + if id == m.id then 1 else 0
  {
    assert IdsOf(mutations + [m]) == IdsOf(mutations) + [m.id];
  }

  /** Replacing one proposal by a continuation that is applied no more than before. */
  lemma ReplaceIsSafe(q: Queue, id: Id, p': Proposal)
    requires Accounted(q) && id in q.proposals && Continues(q.proposals[id], p')
    requires p'.status == Applied <==> q.proposals[id].status == Applied
    ensures var q' := q.(proposals := q.proposals[id := p']); Accounted(q') && AllContinue(q, q')
  {
    hide Strip, Count;
  }

  lemma DecideContinues(p: Proposal, decision: Decision, actor: string, reason: string)
    requires decision == Approve || decision == Reject
    ensures var p' := Decide(p, decision, actor, reason).0;
      Continues(p, p') && (p'.status == Applied <==> p.status == Applied)
  {
    hide Strip;
  }

  lemma ApplyApprovedIsSafe(q: Queue, id: Id, answer: Option<Id>)
    requires Accounted(q) && id in q.proposals
    ensures var q' := ApplyApproved(q, id, answer).queue; Accounted(q') && AllContinue(q, q')
  {
    AppendCounts(q.mutations, Mutation(id, ChangeFor(q.proposals[id])));
    hide Count;
  }

  lemma AllContinueTransitively(q: Queue, q': Queue, q'': Queue)
    requires AllContinue(q, q') && AllContinue(q', q'')
    ensures AllContinue(q, q'')
  {
    hide Continues;
    forall id | id in q.proposals ensures Continues(q.proposals[id], q''.proposals[id]) {
      ContinuesTransitively(q.proposals[id], q'.proposals[id], q''.proposals[id]);
    }
  }

  lemma ContinuesTransitively(p: Proposal, p': Proposal, p'': Proposal)
    requires Continues(p, p') && Continues(p', p'')
    ensures Continues(p, p'')
  {
  }

  lemma ContinuesToItself(q: Queue)
    ensures AllContinue(q, q)
  {
  }

  lemma ResolveIsSafe(q: Queue, id: Id, decision: Decision, actor: string, apply: bool, reason: string, answer: Option<Id>)
    requires Accounted(q)
    ensures var q' := Resolve(q, id, decision, actor, apply, reason, answer).queue;
      Accounted(q') && AllContinue(q, q')
  {
    ContinuesToItself(q);
    if id in q.proposals && !decision.OtherDecision? {
      var p' := Decide(q.proposals[id], decision, actor, reason).0;
      var mid := q.(proposals := q.proposals[id := p']);
      DecideContinues(q.proposals[id], decision, actor, reason);
      ReplaceIsSafe(q, id, p');
      ApplyApprovedIsSafe(mid, id, answer);
      AllContinueTransitively(q, mid, ApplyApproved(mid, id, answer).queue);
      hide Decide, ApplyApproved, Accounted, AllContinue;
    }
  }

  lemma ProposeIsSafe(q: Queue, id: Id, p: Proposal)
    requires Accounted(q) && id !in q.proposals && p.status == Pending
    ensures Accounted(Propose(q, id, p).queue) && AllContinue(q, Propose(q, id, p).queue)
  {
    hide Strip;
    assert Count(q.mutations, id) == 0;
  }

  /** Every call keeps the accounting and every proposal's history. */
  lemma CallIsSafe(q: Queue, c: Call)
    requires Accounted(q) && IsCallable(q, c)
    ensures Accounted(Do(q, c).queue) && AllContinue(q, Do(q, c).queue)
  {
    hide Strip, Resolve, Continues;
    ContinuesToItself(q);
    match c
    case CallPropose(id, p) => ProposeIsSafe(q, id, p);
    case CallResolve(id, decision, actor, apply, reason, answer) => ResolveIsSafe(q, id, decision, actor, apply, reason, answer);
    case CallNamed(id, approve, actor, reviewer, reason) =>
      ResolveIsSafe(q, id, if approve then Approve else Reject, Strip(if actor != "" then actor else reviewer), false, reason, None);
    case CallApply(id, actor, answer) =>
      if id in q.proposals {
        ResolveIsSafe(q, id, Approve, EffectiveActor(actor, q.proposals[id].reviewer), true, "", answer);
      }
  }

  /** Over every run: each proposal moves only forwards, keeps its first decision
      and reviewer, and the store is changed exactly once for each proposal that
      ends up applied and not at all for any other. */
  lemma {:induction false} RunsAreSafe(q: Queue, calls: seq<Call>)
    requires Accounted(q) && Runs(q, calls)
    ensures Accounted(After(q, calls)) && AllContinue(q, After(q, calls))
    decreases |calls|
  {
    hide Do, Continues;
    if calls == [] {
      ContinuesToItself(q);
    } else {
      var mid := Do(q, calls[0]).queue;
      CallIsSafe(q, calls[0]);
      RunsAreSafe(mid, calls[1..]);
      AllContinueTransitively(q, mid, After(q, calls));
    }
  }

  lemma EveryProposalMutatesAtMostOnce(calls: seq<Call>, id: Id)
    requires Runs(EMPTY_QUEUE, calls)
    ensures var q := After(EMPTY_QUEUE, calls);
      && Count(q.mutations, id) <= 1
      && (Count(q.mutations, id) == 1 <==> id in q.proposals && q.proposals[id].status == Applied)
  {
    RunsAreSafe(EMPTY_QUEUE, calls);
  }

  /** A decision opposite to the recorded one is refused and changes nothing, and
      that is the only way to a conflict. */
  lemma OppositeDecisionsConflict(q: Queue, id: Id, decision: Decision, actor: string, apply: bool, reason: string, answer: Option<Id>)
    requires id in q.proposals
    ensures var r := Resolve(q, id, decision, actor, apply, reason, answer);
      && (r.outcome == Raised(DecisionConflict) <==>
            !decision.OtherDecision? && (apply ==> decision == Approve)
            && DecisionOf(q.proposals[id].status).Some? && DecisionOf(q.proposals[id].status).value != decision)
      && (r.outcome == Raised(DecisionConflict) ==> r.queue == q)
  {
    hide Strip;
  }

  /** The first decision on a proposal and its reviewer stand after any further
      calls, and a rejected proposal is never applied. */
  lemma FirstDecisionStands(q: Queue, id: Id, decision: Decision, actor: string, apply: bool, reason: string,
                            answer: Option<Id>, calls: seq<Call>)
    requires Accounted(q) && id in q.proposals && q.proposals[id].status == Pending
    requires decision == Approve || (decision == Reject && !apply)
    requires Strip(actor) != ""
    requires Runs(Resolve(q, id, decision, actor, apply, reason, answer).queue, calls)
    ensures var end := After(Resolve(q, id, decision, actor, apply, reason, answer).queue, calls);
      && id in end.proposals
      && DecisionOf(end.proposals[id].status) == Some(decision)
      && end.proposals[id].reviewer == Some(Strip(actor))
      && (decision == Reject ==> Count(end.mutations, id) == 0)
  {
    var r := Resolve(q, id, decision, actor, apply, reason, answer).queue;
    ResolveIsSafe(q, id, decision, actor, apply, reason, answer);
    RunsAreSafe(r, calls);
    assert DecisionOf(r.proposals[id].status) == Some(decision) && r.proposals[id].reviewer == Some(Strip(actor));
    hide Resolve, Runs, After, Strip, Count;
  }

  /** A failing store leaves an approved proposal approved, so that applying can be
      retried, and a retry on an applied one changes nothing more. */
  lemma ApplyCanBeRetried(q: Queue, id: Id, actor: string, atom: Id)
    requires id in q.proposals && (q.proposals[id].status == Approved || q.proposals[id].status == Applied)
    requires Strip(EffectiveActor(actor, q.proposals[id].reviewer)) != ""
    ensures Apply(q, id, actor, None).queue == q
    ensures var applied := Apply(q, id, actor, Some(atom)).queue;
      && Apply(q, id, actor, Some(atom)).outcome == Returned
      && applied.proposals[id].status == Applied
      && (forall again :: Apply(applied, id, actor, again) == Result(applied, Returned))
  {
    hide Strip;
    assert q.proposals[id := q.proposals[id]] == q.proposals;
    var applied := Apply(q, id, actor, Some(atom)).queue;
    assert applied.proposals[id := applied.proposals[id]] == applied.proposals;
  }

  // ----- Who decided -----

  /** Every decided proposal names its reviewer, and no pending one does. */
  ghost predicate ReviewersKnown(q: Queue) {
    forall id :: id in q.proposals ==> (q.proposals[id].reviewer.Some? <==> q.proposals[id].status != Pending)
  }

  /** A direct resolve that decides a pending proposal under a blank name. */
  predicate IsBlankDecision(q: Queue, c: Call) {
    && c.CallResolve? && !c.decision.OtherDecision? && (c.apply ==> c.decision == Approve)
    && c.id in q.proposals && q.proposals[c.id].status == Pending && Strip(c.actor) == ""
  }

  /** A direct resolve with a blank actor is the one call after which a decision
      stands without a reviewer. */
  lemma DecisionsAreAttributedIff(q: Queue, c: Call)
    requires ReviewersKnown(q) && IsCallable(q, c)
    ensures ReviewersKnown(Do(q, c).queue) <==> !IsBlankDecision(q, c)
  {
    hide Strip, Resolve, ReviewersKnown, IsBlankDecision, EffectiveActor;
    match c
    case CallPropose(id, p) =>
      ProposalIsAttributed(q, c);
    case CallResolve(id, decision, actor, apply, reason, answer) =>
      ResolveIsAttributedIff(q, c);
    case CallNamed(id, approve, actor, reviewer, reason) =>
      var name := if actor != "" then actor else reviewer;
      StripTwice(name);
      var resolve := CallResolve(id, if approve then Approve else Reject, Strip(name), false, reason, None);
      ResolveIsAttributedIff(q, resolve);
      NamedIsNotBlank(q, c, resolve);
    case CallApply(id, actor, answer) =>
      if id in q.proposals {
        var resolve := CallResolve(id, Approve, EffectiveActor(actor, q.proposals[id].reviewer), true, "", answer);
        ResolveIsAttributedIff(q, resolve);
        NamedIsNotBlank(q, c, resolve);
      } else {
        NamedIsNotBlank(q, c, c);
      }
  }

  lemma NamedIsNotBlank(q: Queue, c: Call, resolve: Call)
    ensures !c.CallResolve? ==> !IsBlankDecision(q, c)
    ensures resolve.CallResolve? && Strip(resolve.actor) != "" ==> !IsBlankDecision(q, resolve)
  {
    hide Strip;
  }

  lemma ProposalIsAttributed(q: Queue, c: Call)
    requires ReviewersKnown(q) && IsCallable(q, c) && c.CallPropose?
    ensures ReviewersKnown(Do(q, c).queue) && !IsBlankDecision(q, c)
  {
    hide Strip;
  }

  lemma ResolveIsAttributedIff(q: Queue, c: Call)
    requires ReviewersKnown(q) && c.CallResolve?
    ensures ReviewersKnown(Resolve(q, c.id, c.decision, c.actor, c.apply, c.reason, c.answer).queue)
      <==> !IsBlankDecision(q, c)
  {
    hide Strip;
    if c.id in q.proposals {
      assert c.id in Resolve(q, c.id, c.decision, c.actor, c.apply, c.reason, c.answer).queue.proposals;
      assert q.proposals[c.id].reviewer.Some? <==> q.proposals[c.id].status != Pending;
    }
  }

  predicate HasBlankDecision(q: Queue, calls: seq<Call>)
    decreases |calls|
  {
    calls != [] && (IsBlankDecision(q, calls[0]) || HasBlankDecision(Do(q, calls[0]).queue, calls[1..]))
  }

  predicate IsUnattributed(q: Queue, id: Id) {
    id in q.proposals && q.proposals[id].status != Pending && q.proposals[id].reviewer.None?
  }

  lemma BlankDecisionIsUnattributed(q: Queue, c: Call)
    requires ReviewersKnown(q) && IsBlankDecision(q, c)
    ensures IsUnattributed(Do(q, c).queue, c.id)
  {
    hide Strip;
    assert q.proposals[c.id].reviewer.None?;
  }

  /** Nobody is ever named afterwards. */
  lemma UnattributedStays(q: Queue, calls: seq<Call>, id: Id)
    requires Accounted(q) && Runs(q, calls) && IsUnattributed(q, id)
    ensures IsUnattributed(After(q, calls), id)
  {
    RunsAreSafe(q, calls);
    hide After, Runs, Accounted;
    assert Continues(q.proposals[id], After(q, calls).proposals[id]);
  }

  /** Over every run: the decisions are all attributed at its end if and only if no
      call in it was a direct resolve of a pending proposal under a blank name. */
  lemma {:induction false} RunsAreAttributedIff(q: Queue, calls: seq<Call>)
    requires Accounted(q) && ReviewersKnown(q) && Runs(q, calls)
    ensures ReviewersKnown(After(q, calls)) <==> !HasBlankDecision(q, calls)
    decreases |calls|
  {
    hide Do, IsBlankDecision, Accounted, IsCallable;
    if calls != [] {
      var c, mid := calls[0], Do(q, calls[0]).queue;
      CallIsSafe(q, c);
      DecisionsAreAttributedIff(q, c);
      if IsBlankDecision(q, c) {
        BlankDecisionIsUnattributed(q, c);
        UnattributedStays(mid, calls[1..], c.id);
      } else {
        RunsAreAttributedIff(mid, calls[1..]);
      }
    }
  }

  /** For instance a deletion approved by nobody. */
  lemma BlankActorDecides()
    ensures var q := Queue(map[0 := Fresh(Delete, "atom", None, "reason", 0)], []);
      var r := Resolve(q, 0, Approve, " ", false, "", None);
      && ReviewersKnown(q) && !ReviewersKnown(r.queue)
      && r.outcome == Raised(ValueError)
      && r.queue.proposals[0].status == Approved && r.queue.proposals[0].reviewer == None
  {
    assert Strip(" ") == "" by { BlankIsStripped(); }
    hide Strip;
    var q := Queue(map[0 := Fresh(Delete, "atom", None, "reason", 0)], []);
    DecisionsAreAttributedIff(q, CallResolve(0, Approve, " ", false, "", None));
  }

  lemma BlankIsStripped()
    ensures Strip(" ") == ""
  {
    assert " "[1..] == "";
  }

  lemma TrimmedIsTrimmed(s: string)
    ensures TrimEnd(TrimEnd(s)) == TrimEnd(s)
    ensures Trim(s) == s ==> Trim(TrimEnd(s)) == TrimEnd(s)
  {
    if s != [] && IsSpace(s[|s| - 1]) {
      TrimmedIsTrimmed(s[..|s| - 1]);
      if Trim(s) == s && |s| > 1 {
        assert s[..|s| - 1][0] == s[0];
      }
    }
  }

  lemma StripTwice(s: string)
    ensures Strip(Strip(s)) == Strip(s)
  {
    assert Trim(Trim(s)) == Trim(s);
    TrimmedIsTrimmed(Trim(s));
  }
}
