/** What each counter of an import counts: so many messages of the kind it stands for. */
module ImportCounts {
  import opened Tally
  import opened ImportAccounting
  import opened ImportOrchestrator
  import opened Options

  // ----- Why a turn gives no candidate -----

  predicate IsSpoken(t: Turn) {
    t.role == User || t.role == Assistant
  }

  predicate IsProse(t: Turn) {
    t.text != "" && t.text[0] != '{' && t.text[0] != '['
  }

  /** The reasons exclude each other, so that it does not matter which is looked at
      first.  Ten hundredths for each signal on top of forty-four, ninety-five at most. */
  predicate IsWhy(t: Turn, limits: Limits, r: Reason) {
    match r
    case UnsupportedRole => !IsSpoken(t)
    case EmptyText => IsSpoken(t) && t.text == ""
    case StructuredPayload => IsSpoken(t) && t.text != "" && !IsProse(t)
    case TooShort => IsSpoken(t) && IsProse(t) && t.tokens < limits.minTokens
    case LowConfidence =>
      && IsSpoken(t) && IsProse(t) && t.tokens >= limits.minTokens
      && (limits.minConfidence > 95 || limits.minConfidence > 44 + 10 * t.signals)
    case _ => false
  }

  lemma SkippedIff(t: Turn, limits: Limits, r: Reason)
    ensures SkipReason(t, limits) == Some(r) <==> IsWhy(t, limits, r)
  {
  }

  // ----- What becomes of a message -----

  datatype Fate = Skipped(reason: Reason) | IgnoredByA | StoredByB | ProposedByB | RejectedByB

  function FateOf(m: Message, limits: Limits, known: bool): Fate {
    match m
    case NoTurn(None) => Skipped(Unknown)
    case NoTurn(Some(r)) => Skipped(r)
    case ATurn(t, _, ignored, _, action, _, _, _) =>
      match SkipReason(t, limits)
      case Some(r) => Skipped(r)
      case None =>
        if ignored then IgnoredByA
        else match action
          case Add => StoredByB
          case Update => StoredByB
          case Ignore => RejectedByB
          case _ => if known then ProposedByB else RejectedByB
  }

  predicate IsCandidate(m: Message, limits: Limits) {
    m.ATurn? && SkipReason(m.turn, limits).None?
  }

  /** The `j`-th message stores an atom under the signature. */
  predicate StoresAt(messages: seq<Message>, j: int, limits: Limits, signature: nat) {
    0 <= j < |messages| && IsCandidate(messages[j], limits) && FateOf(messages[j], limits, false) == StoredByB
    && messages[j].signature == signature
  }

  /** An atom is known under the signature when the `k`-th message comes. */
  ghost predicate IsKnown(index: map<nat, nat>, messages: seq<Message>, k: nat, limits: Limits, signature: nat) {
    signature in index || exists j :: 0 <= j < k && StoresAt(messages, j, limits, signature)
  }

  /** The atom last stored under the signature before the `k`-th message, or else the
      one there from the start. */
  ghost predicate IsAtomOf(index: map<nat, nat>, messages: seq<Message>, k: nat, limits: Limits, signature: nat, atom: nat) {
    || (signature in index && atom == index[signature]
        && forall j :: 0 <= j < k ==> !StoresAt(messages, j, limits, signature))
    || exists j :: IsLastStored(messages, j, k, limits, signature, atom)
  }

  ghost predicate IsLastStored(messages: seq<Message>, j: int, k: nat, limits: Limits, signature: nat, atom: nat) {
    && 0 <= j < k && StoresAt(messages, j, limits, signature) && messages[j].atom == atom
    && forall i :: j < i < k ==> !StoresAt(messages, i, limits, signature)
  }

  ghost function FateAt(index: map<nat, nat>, messages: seq<Message>, k: nat, limits: Limits): Fate
    requires k < |messages|
  {
    FateOf(messages[k], limits, messages[k].ATurn? && IsKnown(index, messages, k, limits, messages[k].signature))
  }

  // ----- Counting -----

  /** How many of the first `k` numbers have the property. */
  ghost function Number(k: nat, f: nat -> bool): nat {
    if k == 0 then 0 else Number(k - 1, f) + if f(k - 1) then 1 else 0
  }

  function Of(c: Counts, r: Reason): nat {
    if r in c then c[r] else 0
  }

  lemma IncCounts(c: Counts, reason: Reason, r: Reason)
    ensures Of(Inc(c, reason), r) == Of(c, r) + if r == reason then 1 else 0
  {
  }

  ghost predicate TurnsCounted(l: Ledger, messages: seq<Message>, k: nat, limits: Limits) {
    && l.messagesSeen == k
    && l.turnsEmitted == Number(k, j => 0 <= j < |messages| && messages[j].ATurn?)
    && l.candidates == Number(k, j => 0 <= j < |messages| && IsCandidate(messages[j], limits))
  }

  ghost predicate FatesCounted(l: Ledger, index: map<nat, nat>, messages: seq<Message>, k: nat, limits: Limits) {
    && l.books.persisted == Number(k, j => 0 <= j < |messages| && FateAt(index, messages, j, limits) == StoredByB)
    && l.books.proposals == Number(k, j => 0 <= j < |messages| && FateAt(index, messages, j, limits) == ProposedByB)
  }

  /** Skips by reason, and rejections by the reason of the gate that rejected. */
  ghost predicate BooksCounted(l: Ledger, index: map<nat, nat>, messages: seq<Message>, k: nat, limits: Limits, r: Reason) {
    && Of(l.books.skipped, r) == Number(k, j => 0 <= j < |messages| && FateAt(index, messages, j, limits) == Skipped(r))
    && Of(l.books.rejected, r) == Number(k, j => 0 <= j < |messages| && IsRejectedFor(index, messages, j, limits, r))
  }

  ghost predicate IsRejectedFor(index: map<nat, nat>, messages: seq<Message>, j: nat, limits: Limits, r: Reason)
    requires j < |messages|
  {
    var m, fate := messages[j], FateAt(index, messages, j, limits);
    m.ATurn? && ((fate == IgnoredByA && m.reasonA == r) || (fate == RejectedByB && m.reasonB == r))
  }

  /** The gates' verdicts by reason: the first judges every candidate, the second those
      the first lets through. */
  ghost predicate GatesCounted(l: Ledger, messages: seq<Message>, k: nat, limits: Limits, r: Reason) {
    && Of(l.stageA, r) == Number(k, j => 0 <= j < |messages| && IsCandidate(messages[j], limits) && messages[j].reasonA == r)
    && Of(l.stageB, r) == Number(k, j => 0 <= j < |messages| && IsCandidate(messages[j], limits)
                                         && !messages[j].ignoredByA && messages[j].reasonB == r)
  }

  ghost predicate IsIndexed(l: Ledger, index: map<nat, nat>, messages: seq<Message>, k: nat, limits: Limits) {
    && (forall s :: s in l.atomIndex <==> IsKnown(index, messages, k, limits, s))
    && (forall s :: s in l.atomIndex ==> IsAtomOf(index, messages, k, limits, s, l.atomIndex[s]))
  }

  ghost predicate IsCounted(l: Ledger, index: map<nat, nat>, messages: seq<Message>, k: nat, limits: Limits) {
    && TurnsCounted(l, messages, k, limits)
    && FatesCounted(l, index, messages, k, limits)
    && (forall r :: BooksCounted(l, index, messages, k, limits, r))
    && (forall r :: GatesCounted(l, messages, k, limits, r))
    && IsIndexed(l, index, messages, k, limits)
  }

  // ----- One message further -----

  /** A message that goes through, as one update of the ledger. */
  function Booked(l: Ledger, m: Message, fate: Fate): Ledger {
    var seen := l.(messagesSeen := l.messagesSeen + 1, turnsEmitted := l.turnsEmitted + if m.ATurn? then 1 else 0);
    if fate.Skipped? then seen.(books := l.books.(skipped := Inc(l.books.skipped, fate.reason)))
    else if m.NoTurn? then seen
    else
      var judged := seen.(candidates := l.candidates + 1, stageA := Inc(l.stageA, m.reasonA));
      if fate.IgnoredByA? then judged.(books := l.books.(rejected := Inc(l.books.rejected, m.reasonA)))
      else BookedTwice(judged.(stageB := Inc(l.stageB, m.reasonB)), m, fate)
  }

  function BookedTwice(l: Ledger, m: Message, fate: Fate): Ledger
    requires m.ATurn?
  {
    if fate.StoredByB? then
      l.(books := l.books.(persisted := l.books.persisted + 1), atomIndex := l.atomIndex[m.signature := m.atom])
    else if fate.ProposedByB? then l.(books := l.books.(proposals := l.books.proposals + 1))
    else l.(books := l.books.(rejected := Inc(l.books.rejected, m.reasonB)))
  }

  lemma CollectOne(l: Ledger, r: Reason)
    requires l.pending == map[]
    ensures CollectSkips(l, r) == l.(books := l.books.(skipped := Inc(l.books.skipped, r)))
  {
    assert Live(Inc(map[], r)) == {r};
    IncAllStep(l.books.skipped, {}, r);
    assert IncAll(l.books.skipped, {}) == l.books.skipped;
    assert {} + {r} == {r};
  }

  lemma ProcessBooks(l: Ledger, m: Message, limits: Limits)
    requires l.pending == map[] && Process(l, m, limits).1
    ensures Process(l, m, limits).0 == Booked(l, m, FateOf(m, limits, m.ATurn? && m.signature in l.atomIndex))
  {
    hide SkipReason, Inc, CollectSkips, Gate, Booked;
    if m.NoTurn? {
      NoTurnIsBooked(l, m);
    } else {
      var emitted := l.(messagesSeen := l.messagesSeen + 1, turnsEmitted := l.turnsEmitted + 1);
      var why := SkipReason(m.turn, limits);
      if why.Some? {
        CollectOne(emitted, why.value);
        SkipIsBooked(l, m, why.value);
      } else {
        GateIsBooked(l, emitted, m, limits);
      }
    }
  }

  lemma NoTurnIsBooked(l: Ledger, m: Message)
    requires m.NoTurn?
    ensures var r := if m.reason.Some? then m.reason.value else Unknown;
      Booked(l, m, Skipped(r))
        == l.(messagesSeen := l.messagesSeen + 1, books := l.books.(skipped := Inc(l.books.skipped, r)))
  {
    hide Inc;
  }

  lemma SkipIsBooked(l: Ledger, m: Message, r: Reason)
    requires m.ATurn?
    ensures Booked(l, m, Skipped(r))
         == l.(messagesSeen := l.messagesSeen + 1, turnsEmitted := l.turnsEmitted + 1,
               books := l.books.(skipped := Inc(l.books.skipped, r)))
  {
    hide Inc;
  }

  lemma GateIsBooked(l: Ledger, emitted: Ledger, m: Message, limits: Limits)
    requires m.ATurn? && SkipReason(m.turn, limits).None? && Gate(emitted, m).1
    requires emitted == l.(messagesSeen := l.messagesSeen + 1, turnsEmitted := l.turnsEmitted + 1)
    ensures Gate(emitted, m).0 == Booked(l, m, FateOf(m, limits, m.signature in l.atomIndex))
  {
    hide SkipReason, Inc, SecondGate, BookedTwice;
    if !m.ignoredByA {
      SecondGateIsBooked(emitted.(candidates := emitted.candidates + 1, stageA := Inc(emitted.stageA, m.reasonA)), m, limits);
    }
  }

  lemma SecondGateIsBooked(l: Ledger, m: Message, limits: Limits)
    requires m.ATurn? && SkipReason(m.turn, limits).None? && !m.ignoredByA && SecondGate(l, m).1
    ensures SecondGate(l, m).0
         == BookedTwice(l.(stageB := Inc(l.stageB, m.reasonB)), m, FateOf(m, limits, m.signature in l.atomIndex))
  {
    hide SkipReason, Inc;
  }

  lemma TurnsStep(l: Ledger, messages: seq<Message>, k: nat, limits: Limits, known: bool)
    requires k < |messages| && TurnsCounted(l, messages, k, limits)
    ensures TurnsCounted(Booked(l, messages[k], FateOf(messages[k], limits, known)), messages, k + 1, limits)
  {
    hide Booked, FateOf, IsCandidate;
    BookedTurns(l, messages[k], FateOf(messages[k], limits, known));
    FateKinds(messages[k], limits, known);
  }

  lemma BookedTurns(l: Ledger, m: Message, fate: Fate)
    ensures var b := Booked(l, m, fate);
      && b.messagesSeen == l.messagesSeen + 1
      && b.turnsEmitted == l.turnsEmitted + (if m.ATurn? then 1 else 0)
      && b.candidates == l.candidates + if m.ATurn? && !fate.Skipped? then 1 else 0
  {
    hide Inc;
  }

  lemma FatesStep(l: Ledger, index: map<nat, nat>, messages: seq<Message>, k: nat, limits: Limits)
    requires k < |messages| && FatesCounted(l, index, messages, k, limits)
    ensures FatesCounted(Booked(l, messages[k], FateAt(index, messages, k, limits)), index, messages, k + 1, limits)
  {
    hide SkipReason, Inc, IsKnown;
  }

  lemma BooksStep(l: Ledger, index: map<nat, nat>, messages: seq<Message>, k: nat, limits: Limits, r: Reason)
    requires k < |messages| && BooksCounted(l, index, messages, k, limits, r)
    ensures BooksCounted(Booked(l, messages[k], FateAt(index, messages, k, limits)), index, messages, k + 1, limits, r)
  {
    hide Booked, FateOf, IsKnown, Of;
    var m, fate := messages[k], FateAt(index, messages, k, limits);
    BookedBooks(l, m, fate, r);
  }

  /** What one fate adds to the books under a reason. */
  lemma BookedBooks(l: Ledger, m: Message, fate: Fate, r: Reason)
    ensures var b := Booked(l, m, fate).books;
      && Of(b.skipped, r) == Of(l.books.skipped, r) + (if fate == Skipped(r) then 1 else 0)
      && Of(b.rejected, r) == Of(l.books.rejected, r)
           + if m.ATurn? && ((fate == IgnoredByA && m.reasonA == r) || (fate == RejectedByB && m.reasonB == r)) then 1 else 0
  {
    hide Inc, Of;
    if fate.Skipped? {
      IncCounts(l.books.skipped, fate.reason, r);
    } else if m.ATurn? {
      IncCounts(l.books.rejected, m.reasonA, r);
      IncCounts(l.books.rejected, m.reasonB, r);
    }
  }

  lemma GatesStep(l: Ledger, index: map<nat, nat>, messages: seq<Message>, k: nat, limits: Limits, r: Reason)
    requires k < |messages| && GatesCounted(l, messages, k, limits, r)
    ensures GatesCounted(Booked(l, messages[k], FateAt(index, messages, k, limits)), messages, k + 1, limits, r)
  {
    hide Booked, FateOf, IsKnown, Of, IsCandidate;
    BookedGates(l, messages[k], FateAt(index, messages, k, limits), r);
    FateKinds(messages[k], limits, messages[k].ATurn? && IsKnown(index, messages, k, limits, messages[k].signature));
  }

  lemma FateKinds(m: Message, limits: Limits, known: bool)
    ensures FateOf(m, limits, known).Skipped? <==> !IsCandidate(m, limits)
    ensures FateOf(m, limits, known).IgnoredByA? <==> IsCandidate(m, limits) && m.ignoredByA
    ensures IsCandidate(m, limits) ==> m.ATurn?
  {
    hide SkipReason;
  }

  /** What one fate adds to the gates' verdicts under a reason. */
  lemma BookedGates(l: Ledger, m: Message, fate: Fate, r: Reason)
    ensures var l' := Booked(l, m, fate);
      var isJudged := m.ATurn? && !fate.Skipped?;
      && Of(l'.stageA, r) == Of(l.stageA, r) + (if isJudged && m.reasonA == r then 1 else 0)
      && Of(l'.stageB, r) == Of(l.stageB, r) + if isJudged && !fate.IgnoredByA? && m.reasonB == r then 1 else 0
  {
    hide Inc, Of;
    if m.ATurn? {
      IncCounts(l.stageA, m.reasonA, r);
      IncCounts(l.stageB, m.reasonB, r);
    }
  }

  lemma IndexStep(l: Ledger, index: map<nat, nat>, messages: seq<Message>, k: nat, limits: Limits)
    requires k < |messages| && IsIndexed(l, index, messages, k, limits)
    ensures IsIndexed(Booked(l, messages[k], FateAt(index, messages, k, limits)), index, messages, k + 1, limits)
  {
    hide Booked, FateAt, SkipReason, FateOf, StoresAt, IsKnown, IsAtomOf;
    var l' := Booked(l, messages[k], FateAt(index, messages, k, limits));
    StoredNow(l, index, messages, k, limits);
    forall s ensures s in l'.atomIndex <==> IsKnown(index, messages, k + 1, limits, s) {
      KnownStep(index, messages, k, limits, s);
    }
    forall s | s in l'.atomIndex ensures IsAtomOf(index, messages, k + 1, limits, s, l'.atomIndex[s]) {
      if StoresAt(messages, k, limits, s) {
        AtomIsNew(index, messages, k, limits, s);
      } else {
        AtomStays(index, messages, k, limits, s, l.atomIndex[s]);
      }
    }
  }

  lemma StoredNow(l: Ledger, index: map<nat, nat>, messages: seq<Message>, k: nat, limits: Limits)
    requires k < |messages|
    ensures var l' := Booked(l, messages[k], FateAt(index, messages, k, limits));
      forall s ::
        && (StoresAt(messages, k, limits, s) ==> s in l'.atomIndex && l'.atomIndex[s] == messages[k].atom)
        && (!StoresAt(messages, k, limits, s) ==>
              (s in l'.atomIndex <==> s in l.atomIndex) && (s in l.atomIndex ==> l'.atomIndex[s] == l.atomIndex[s]))
  {
    hide SkipReason, Inc, IsKnown;
  }

  lemma KnownStep(index: map<nat, nat>, messages: seq<Message>, k: nat, limits: Limits, s: nat)
    ensures IsKnown(index, messages, k + 1, limits, s) <==>
      IsKnown(index, messages, k, limits, s) || StoresAt(messages, k, limits, s)
  {
    hide StoresAt;
  }

  lemma AtomIsNew(index: map<nat, nat>, messages: seq<Message>, k: nat, limits: Limits, s: nat)
    requires StoresAt(messages, k, limits, s)
    ensures IsAtomOf(index, messages, k + 1, limits, s, messages[k].atom)
  {
    hide SkipReason, FateOf;
    assert IsLastStored(messages, k, k + 1, limits, s, messages[k].atom);
  }

  lemma AtomStays(index: map<nat, nat>, messages: seq<Message>, k: nat, limits: Limits, s: nat, atom: nat)
    requires IsAtomOf(index, messages, k, limits, s, atom) && !StoresAt(messages, k, limits, s)
    ensures IsAtomOf(index, messages, k + 1, limits, s, atom)
  {
    hide StoresAt;
    if !(IsFromStart(index, messages, k, limits, s, atom)) {
      var j :| IsLastStored(messages, j, k, limits, s, atom);
      assert IsLastStored(messages, j, k + 1, limits, s, atom);
    }
  }

  ghost predicate IsFromStart(index: map<nat, nat>, messages: seq<Message>, k: nat, limits: Limits, s: nat, atom: nat) {
    s in index && atom == index[s] && forall j :: 0 <= j < k ==> !StoresAt(messages, j, limits, s)
  }

  lemma CountedStep(l: Ledger, index: map<nat, nat>, messages: seq<Message>, k: nat, limits: Limits)
    requires k < |messages| && IsCounted(l, index, messages, k, limits)
    ensures IsCounted(Booked(l, messages[k], FateAt(index, messages, k, limits)), index, messages, k + 1, limits)
  {
    hide Booked, FateAt, TurnsCounted, FatesCounted, BooksCounted, GatesCounted, IsIndexed;
    var l' := Booked(l, messages[k], FateAt(index, messages, k, limits));
    FateIsOf(index, messages, k, limits);
    TurnsStep(l, messages, k, limits, messages[k].ATurn? && IsKnown(index, messages, k, limits, messages[k].signature));
    FatesStep(l, index, messages, k, limits);
    IndexStep(l, index, messages, k, limits);
    var next := k + 1;
    forall r ensures BooksCounted(l', index, messages, next, limits, r) && GatesCounted(l', messages, next, limits, r) {
      BooksStep(l, index, messages, k, limits, r);
      GatesStep(l, index, messages, k, limits, r);
    }
  }

  lemma FateIsOf(index: map<nat, nat>, messages: seq<Message>, k: nat, limits: Limits)
    requires k < |messages|
    ensures FateAt(index, messages, k, limits)
         == FateOf(messages[k], limits, messages[k].ATurn? && IsKnown(index, messages, k, limits, messages[k].signature))
  {
  }

  lemma {:induction false} PrefixCounted(index: map<nat, nat>, messages: seq<Message>, k: nat, limits: Limits)
    requires k <= |messages| && ProcessAll(Start(index, map[]), messages[..k], limits).1
    ensures var end := ProcessAll(Start(index, map[]), messages[..k], limits).0;
      IsCounted(end, index, messages, k, limits) && end.pending == map[]
    decreases k
  {
    hide Process, IsCounted, FateAt;
    var l := Start(index, map[]);
    if k == 0 {
      NothingCounted(index, messages, limits);
    } else {
      var m, front := messages[k - 1], messages[..k - 1];
      assert messages[..k] == front + [m];
      LastProcessed(l, front, m, limits);
      PrefixCounted(index, messages, k - 1, limits);
      var before := ProcessAll(l, front, limits).0;
      IndexedMeansKnown(before, index, messages, k - 1, limits);
      FateIsOf(index, messages, k - 1, limits);
      ProcessBooks(before, m, limits);
      CountedStep(before, index, messages, k - 1, limits);
      BookedKeepsPending(before, m, FateAt(index, messages, k - 1, limits));
    }
  }

  lemma IndexedMeansKnown(l: Ledger, index: map<nat, nat>, messages: seq<Message>, k: nat, limits: Limits)
    requires IsCounted(l, index, messages, k, limits)
    ensures forall s :: s in l.atomIndex <==> IsKnown(index, messages, k, limits, s)
  {
    hide IsKnown;
  }

  lemma BookedKeepsPending(l: Ledger, m: Message, fate: Fate)
    ensures Booked(l, m, fate).pending == l.pending
  {
  }

  lemma NothingCounted(index: map<nat, nat>, messages: seq<Message>, limits: Limits)
    ensures IsCounted(Start(index, map[]), index, messages, 0, limits)
  {
    hide StoresAt, FateAt;
  }

  lemma {:induction false} LastProcessed(l: Ledger, front: seq<Message>, m: Message, limits: Limits)
    requires ProcessAll(l, front + [m], limits).1
    ensures ProcessAll(l, front, limits).1
    ensures ProcessAll(l, front + [m], limits) == Process(ProcessAll(l, front, limits).0, m, limits)
    decreases |front|
  {
    hide Process;
    if front == [] {
      assert front + [m] == [m] && [m][1..] == [];
    } else {
      assert (front + [m])[0] == front[0] && (front + [m])[1..] == front[1..] + [m];
      LastProcessed(Process(l, front[0], limits).0, front[1..], m, limits);
    }
  }

  /** An import with a fresh extractor that runs through: messages, turns and candidates
      are counted; what is persisted, proposed, skipped and rejected is the number of
      messages that come to it, by reason; each gate's reasons are those of the
      candidates it judged; and the index holds, for every signature stored, the atom
      stored last. */
  lemma WholeImportCounts(index: map<nat, nat>, conversations: seq<Conversation>, limits: Limits)
    requires ProcessConversations(Start(index, map[]), conversations, limits).1
    ensures var end := ProcessConversations(Start(index, map[]), conversations, limits).0;
      var messages := MessagesOf(conversations);
      IsCounted(end, index, messages, |messages|, limits)
  {
    hide IsCounted, ProcessConversations, ProcessAll, Start;
    ImportIsOneConversation(Start(index, map[]), conversations, limits);
    var messages := MessagesOf(conversations);
    assert messages[..|messages|] == messages;
    PrefixCounted(index, messages, |messages|, limits);
  }

  // ----- When an import runs through -----

  /** Something raises on the way of the message to its fate. */
  predicate Fails(m: Message, limits: Limits, known: bool) {
    m.ATurn?
    && (m.fault == AtRecord
        || match FateOf(m, limits, known)
           case Skipped(_) => false
           case IgnoredByA => m.fault == AtStageA
           case StoredByB => m.fault in {AtStageA, AtStageB, AtStore}
           case ProposedByB => m.fault in {AtStageA, AtStageB, AtPropose}
           case RejectedByB => m.fault in {AtStageA, AtStageB})
  }

  lemma ProcessFailsIff(l: Ledger, m: Message, limits: Limits)
    ensures !Process(l, m, limits).1 <==> Fails(m, limits, m.ATurn? && m.signature in l.atomIndex)
  {
    hide SkipReason, Inc, CollectSkips;
  }

  ghost predicate FailsAt(index: map<nat, nat>, messages: seq<Message>, k: nat, limits: Limits)
    requires k < |messages|
  {
    Fails(messages[k], limits, messages[k].ATurn? && IsKnown(index, messages, k, limits, messages[k].signature))
  }

  /** The first `k` messages go through if and only if none of them fails. */
  lemma {:induction false} PrefixGoesThroughIff(index: map<nat, nat>, messages: seq<Message>, k: nat, limits: Limits)
    requires k <= |messages|
    ensures ProcessAll(Start(index, map[]), messages[..k], limits).1
      <==> forall j: nat :: j < k ==> !FailsAt(index, messages, j, limits)
    decreases k
  {
    hide Process, FailsAt;
    var l := Start(index, map[]);
    if k > 0 {
      var m, front := messages[k - 1], messages[..k - 1];
      assert messages[..k] == front + [m];
      PrefixGoesThroughIff(index, messages, k - 1, limits);
      OneMoreIff(l, front, m, limits);
      if ProcessAll(l, front, limits).1 {
        LastFailsIff(index, messages, k, limits);
      }
    }
  }

  lemma {:induction false} OneMoreIff(l: Ledger, front: seq<Message>, m: Message, limits: Limits)
    ensures ProcessAll(l, front + [m], limits).1
      <==> ProcessAll(l, front, limits).1 && Process(ProcessAll(l, front, limits).0, m, limits).1
    decreases |front|
  {
    hide Process;
    if front == [] {
      assert front + [m] == [m] && [m][1..] == [];
    } else {
      assert (front + [m])[0] == front[0] && (front + [m])[1..] == front[1..] + [m];
      OneMoreIff(Process(l, front[0], limits).0, front[1..], m, limits);
    }
  }

  lemma LastFailsIff(index: map<nat, nat>, messages: seq<Message>, k: nat, limits: Limits)
    requires 0 < k <= |messages| && ProcessAll(Start(index, map[]), messages[..k - 1], limits).1
    ensures !Process(ProcessAll(Start(index, map[]), messages[..k - 1], limits).0, messages[k - 1], limits).1
      <==> FailsAt(index, messages, k - 1, limits)
  {
    hide Process, Fails, IsCounted, IsKnown, ProcessAll;
    var before := ProcessAll(Start(index, map[]), messages[..k - 1], limits).0;
    PrefixCounted(index, messages, k - 1, limits);
    IndexedMeansKnown(before, index, messages, k - 1, limits);
    ProcessFailsIff(before, messages[k - 1], limits);
  }

  /** An import with a fresh extractor runs through if and only if all its conversations
      are safe and none of its messages fails. */
  lemma WholeImportRunsThroughIff(index: map<nat, nat>, conversations: seq<Conversation>, limits: Limits)
    ensures var messages := MessagesOf(conversations);
      ProcessConversations(Start(index, map[]), conversations, limits).1
      <==> (forall i :: 0 <= i < |conversations| ==> conversations[i].isSafe)
           && forall j: nat :: j < |messages| ==> !FailsAt(index, messages, j, limits)
  {
    hide FailsAt, ProcessAll, ProcessConversations, Start;
    var messages := MessagesOf(conversations);
    RunsThroughIff(Start(index, map[]), conversations, limits);
    assert messages[..|messages|] == messages;
    PrefixGoesThroughIff(index, messages, |messages|, limits);
  }

  lemma {:induction false} RunsThroughIff(l: Ledger, conversations: seq<Conversation>, limits: Limits)
    ensures ProcessConversations(l, conversations, limits).1
      <==> (forall i :: 0 <= i < |conversations| ==> conversations[i].isSafe)
           && ProcessAll(l, MessagesOf(conversations), limits).1
    decreases |conversations|
  {
    hide ProcessAll;
    if conversations == [] {
      NoMessages(l, limits);
    } else {
      var first, rest := conversations[0], conversations[1..];
      assert forall i :: 0 < i < |conversations| ==> conversations[i] == rest[i - 1];
      assert forall i :: 0 <= i < |rest| ==> rest[i] == conversations[i + 1];
      if ProcessAll(l, first.messages, limits).1 {
        MessagesInTwoParts(l, first.messages, MessagesOf(rest), limits);
        RunsThroughIff(ProcessAll(l, first.messages, limits).0, rest, limits);
      } else {
        FailedFrontFails(l, first.messages, MessagesOf(rest), limits);
      }
    }
  }

  lemma {:induction false} FailedFrontFails(l: Ledger, a: seq<Message>, b: seq<Message>, limits: Limits)
    requires !ProcessAll(l, a, limits).1
    ensures !ProcessAll(l, a + b, limits).1
    decreases |a|
  {
    hide Process;
    assert (a + b)[0] == a[0] && (a + b)[1..] == a[1..] + b;
    if Process(l, a[0], limits).1 {
      FailedFrontFails(Process(l, a[0], limits).0, a[1..], b, limits);
    }
  }

  // ----- A used extractor -----

  /** The reason was counted by the extractor before the import and is not the first
      skipped turn's own. */
  predicate IsLeftOver(pending: Counts, first: Option<Reason>, r: Reason) {
    first.Some? && first.value != r && Of(pending, r) > 0
  }

  /** The same ledger but for the skips and what the extractor holds. */
  function Off(l: Ledger, skipped: Counts, pending: Counts): Ledger {
    l.(books := l.books.(skipped := skipped), pending := pending)
  }

  /** The skips are off by what was left over, once the first turn has been skipped. */
  ghost predicate AreOff(skipped: Counts, others: Counts, pending: Counts, first: Option<Reason>) {
    forall r :: Of(skipped, r) == Of(others, r) + if IsLeftOver(pending, first, r) then 1 else 0
  }

  lemma GateOff(l: Ledger, skipped: Counts, pending: Counts, m: Message)
    requires m.ATurn?
    ensures Gate(Off(l, skipped, pending), m) == (Off(Gate(l, m).0, skipped, pending), Gate(l, m).1)
  {
    hide Inc, SecondGate;
    if m.fault != AtStageA && !m.ignoredByA {
      var judged := l.(candidates := l.candidates + 1, stageA := Inc(l.stageA, m.reasonA));
      SecondGateOff(judged, skipped, pending, m);
      assert Off(judged, skipped, pending)
          == Off(l, skipped, pending).(candidates := l.candidates + 1, stageA := Inc(l.stageA, m.reasonA));
    }
  }

  lemma SecondGateOff(l: Ledger, skipped: Counts, pending: Counts, m: Message)
    requires m.ATurn?
    ensures SecondGate(Off(l, skipped, pending), m) == (Off(SecondGate(l, m).0, skipped, pending), SecondGate(l, m).1)
  {
    hide Inc;
  }

  lemma CollectLeftOver(l: Ledger, reason: Reason, r: Reason)
    ensures Of(CollectSkips(l, reason).books.skipped, r)
         == Of(l.books.skipped, r) + if r == reason || Of(l.pending, r) > 0 then 1 else 0
  {
  }

  lemma SkipOff(l: Ledger, skipped: Counts, pending: Counts, reason: Reason)
    requires l.pending == map[] && AreOff(skipped, l.books.skipped, pending, None)
    ensures var u := CollectSkips(Off(l, skipped, pending), reason);
      var c := CollectSkips(l, reason);
      u == Off(c, u.books.skipped, map[]) && c.pending == map[]
      && AreOff(u.books.skipped, c.books.skipped, pending, Some(reason))
  {
    hide CollectSkips;
    var u, c := CollectSkips(Off(l, skipped, pending), reason), CollectSkips(l, reason);
    CollectKeeps(Off(l, skipped, pending), reason);
    CollectKeeps(l, reason);
    forall r ensures Of(u.books.skipped, r) == Of(c.books.skipped, r) + if IsLeftOver(pending, Some(reason), r) then 1 else 0 {
      CollectLeftOver(Off(l, skipped, pending), reason, r);
      CollectLeftOver(l, reason, r);
    }
  }

  lemma IncOff(skipped: Counts, others: Counts, pending: Counts, first: Option<Reason>, reason: Reason)
    requires AreOff(skipped, others, pending, first)
    ensures AreOff(Inc(skipped, reason), Inc(others, reason), pending, first)
  {
    hide Inc, Of, IsLeftOver;
    forall r ensures Of(Inc(skipped, reason), r) == Of(Inc(others, reason), r) + if IsLeftOver(pending, first, r) then 1 else 0 {
      IncCounts(skipped, reason, r);
      IncCounts(others, reason, r);
    }
  }

  /** One message, with something left over or, once that has been counted, without. */
  lemma ProcessOff(l: Ledger, skipped: Counts, pending: Counts, first: Option<Reason>, m: Message, limits: Limits)
    requires l.pending == map[] && AreOff(skipped, l.books.skipped, pending, first)
    ensures var (u, ok) := Process(Off(l, skipped, if first.None? then pending else map[]), m, limits);
      var (c, ok') := Process(l, m, limits);
      var next := if first.Some? then first else SkipOf(m, limits);
      ok == ok' && (ok ==>
        && c.pending == map[] && u == Off(c, u.books.skipped, if next.None? then pending else map[])
        && AreOff(u.books.skipped, c.books.skipped, pending, next))
  {
    hide SkipReason, Inc, CollectSkips, Gate, AreOff;
    var held := if first.None? then pending else map[];
    if m.NoTurn? {
      IncOff(skipped, l.books.skipped, pending, first, if m.reason.Some? then m.reason.value else Unknown);
    } else {
      var emitted := l.(messagesSeen := l.messagesSeen + 1, turnsEmitted := l.turnsEmitted + 1);
      assert Off(emitted, skipped, held)
          == Off(l, skipped, held).(messagesSeen := l.messagesSeen + 1, turnsEmitted := l.turnsEmitted + 1);
      var why := SkipReason(m.turn, limits);
      if why.None? {
        GateOff(emitted, skipped, held, m);
        GateKeepsSkips(emitted, m);
      } else if first.None? {
        SkipOff(emitted, skipped, pending, why.value);
      } else {
        CollectOne(emitted, why.value);
        CollectOne(Off(emitted, skipped, map[]), why.value);
        IncOff(skipped, l.books.skipped, pending, first, why.value);
      }
    }
  }

  lemma GateKeepsSkips(l: Ledger, m: Message)
    requires m.ATurn?
    ensures var c := Gate(l, m).0; c.pending == l.pending && c.books.skipped == l.books.skipped
  {
    hide Inc;
  }

  lemma {:induction false} ProcessAllOff(l: Ledger, skipped: Counts, pending: Counts, first: Option<Reason>,
                                         messages: seq<Message>, limits: Limits)
    requires l.pending == map[] && AreOff(skipped, l.books.skipped, pending, first)
    ensures var (u, ok) := ProcessAll(Off(l, skipped, if first.None? then pending else map[]), messages, limits);
      var (c, ok') := ProcessAll(l, messages, limits);
      var next := if first.Some? then first else FirstSkip(messages, limits);
      ok == ok' && (ok ==>
        && u == Off(c, u.books.skipped, if next.None? then pending else map[])
        && AreOff(u.books.skipped, c.books.skipped, pending, next))
    decreases |messages|
  {
    hide Process, AreOff, SkipOf;
    if messages != [] {
      ProcessOff(l, skipped, pending, first, messages[0], limits);
      var (u, ok) := Process(Off(l, skipped, if first.None? then pending else map[]), messages[0], limits);
      var (c, ok') := Process(l, messages[0], limits);
      if ok {
        ProcessAllOff(c, u.books.skipped, pending, if first.Some? then first else SkipOf(messages[0], limits),
          messages[1..], limits);
      }
    }
  }

  /** With a used extractor an import goes as with a fresh one, message for message, but
      for the skips: those are one more for each reason left over, other than the first
      skipped turn's own, if any turn is skipped at all. */
  lemma UsedExtractorCounts(index: map<nat, nat>, pending: Counts, messages: seq<Message>, limits: Limits)
    ensures var (used, ok) := ProcessAll(Start(index, pending), messages, limits);
      var (clean, ok') := ProcessAll(Start(index, map[]), messages, limits);
      ok == ok' && (ok ==>
        && used == Off(clean, used.books.skipped, used.pending)
        && forall r :: Of(used.books.skipped, r) == Of(clean.books.skipped, r)
             + if IsLeftOver(pending, FirstSkip(messages, limits), r) then 1 else 0)
  {
    hide ProcessAll, FirstSkip;
    assert Start(index, pending) == Off(Start(index, map[]), map[], pending);
    ProcessAllOff(Start(index, map[]), map[], pending, None, messages, limits);
  }
}
