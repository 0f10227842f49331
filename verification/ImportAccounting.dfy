/** The counters of an import run: every message seen is accounted for once. */
module ImportAccounting {
  import opened Tally
  import opened Options

  datatype Role = User | Assistant | OtherRole(name: string)

  /** A normalized turn as the extractor sees it: the text, how many word tokens
      it has, and how many kinds of signal were found among them. */
  datatype Turn = Turn(role: Role, text: string, tokens: nat, signals: nat)

  /** Confidence in hundredths. */
  function Confidence(signals: nat): nat {
    if 44 + 10 * signals > 95 then 95 else 44 + 10 * signals
  }

  datatype Limits = Limits(minTokens: nat, minConfidence: int)

  /** Why the extractor makes no candidate of a turn, if so. */
  function SkipReason(t: Turn, limits: Limits): Option<Reason> {
    if t.role != User && t.role != Assistant then Some(UnsupportedRole)
    else if t.text == "" then Some(EmptyText)
    else if t.text[0] == '{' || t.text[0] == '[' then Some(StructuredPayload)
    else if t.tokens < limits.minTokens then Some(TooShort)
    else if Confidence(t.signals) < limits.minConfidence then Some(LowConfidence)
    else None
  }

  datatype Action = Add | Update | ProposeEdit | ProposeDelete | Ignore

  /** Where the handling of a message may be cut short by an exception. */
  datatype Fault = NoFault | AtRecord | AtStageA | AtStageB | AtStore | AtPropose

  /** What a message brings: a reason why it was no turn, or a turn together with
      what the gates and the store answer for its candidate. */
  datatype Message =
    | NoTurn(reason: Option<Reason>)
    | ATurn(turn: Turn, signature: nat, ignoredByA: bool, reasonA: Reason, action: Action, reasonB: Reason, atom: nat, fault: Fault)

  /** Where a message can end up. */
  datatype Books = Books(persisted: nat, proposals: nat, skipped: Counts, rejected: Counts)

  /** The counters, the extractor's own reasons not yet collected, and the index
      from candidate signatures to stored atoms. */
  datatype Ledger = Ledger(
    messagesSeen: nat, turnsEmitted: nat, candidates: nat, books: Books,
    stageA: Counts, stageB: Counts, pending: Counts, atomIndex: map<nat, nat>)

  /** The reasons the extractor has counted since they were last collected. */
  function Live(pending: Counts): set<Reason> {
    set r | r in pending && pending[r] > 0
  }

  /** A turn without a candidate: each pending reason is counted once, whatever
      its count, and the extractor's reasons are cleared. */
  function CollectSkips(l: Ledger, reason: Reason): Ledger {
    l.(books := l.books.(skipped := IncAll(l.books.skipped, Live(Inc(l.pending, reason)))), pending := map[])
  }

  predicate IsStored(a: Action) { a == Add || a == Update }

  predicate IsProposed(a: Action) { a == ProposeEdit || a == ProposeDelete }

  /** What the second gate's answer books a candidate as; a proposal needs a known
      atom, and a failing store or queue books nothing. */
  function Book(b: Books, m: Message, known: bool): Option<Books>
    requires m.ATurn?
  {
    if IsStored(m.action) then
      if m.fault == AtStore then None else Some(b.(persisted := b.persisted + 1))
    else if IsProposed(m.action) && known then
      if m.fault == AtPropose then None else Some(b.(proposals := b.proposals + 1))
    else Some(b.(rejected := Inc(b.rejected, m.reasonB)))
  }

  /** A candidate the first gate has let through; false where an exception cuts
      it short. */
  function SecondGate(l: Ledger, m: Message): (Ledger, bool)
    requires m.ATurn?
  {
    if m.fault == AtStageB then (l, false)
    else
      var booked := Book(l.books, m, m.signature in l.atomIndex);
      var books := if booked.Some? then booked.value else l.books;
      var index := if booked.Some? && IsStored(m.action) then l.atomIndex[m.signature := m.atom] else l.atomIndex;
      (l.(stageB := Inc(l.stageB, m.reasonB), books := books, atomIndex := index), booked.Some?)
  }

  /** A candidate through both gates. */
  function Gate(l: Ledger, m: Message): (Ledger, bool)
    requires m.ATurn?
  {
    var extracted := l.(candidates := l.candidates + 1);
    if m.fault == AtStageA then (extracted, false)
    else
      var judged := extracted.(stageA := Inc(l.stageA, m.reasonA));
      if m.ignoredByA then (judged.(books := l.books.(rejected := Inc(l.books.rejected, m.reasonA))), true)
      else SecondGate(judged, m)
  }

  function Process(l: Ledger, m: Message, limits: Limits): (Ledger, bool) {
    var seen := l.(messagesSeen := l.messagesSeen + 1);
    if m.NoTurn? then
      (seen.(books := l.books.(skipped := Inc(l.books.skipped, if m.reason.Some? then m.reason.value else Unknown))), true)
    else
      var emitted := seen.(turnsEmitted := seen.turnsEmitted + 1);
      if m.fault == AtRecord then (emitted, false)
      else
        var reason := SkipReason(m.turn, limits);
        if reason.Some? then (CollectSkips(emitted, reason.value), true) else Gate(emitted, m)
  }

  /** Messages up to the first exception; true if there was none. */
  function ProcessAll(l: Ledger, messages: seq<Message>, limits: Limits): (Ledger, bool)
    decreases |messages|
  {
    if messages == [] then (l, true)
    else
      var (next, ok) := Process(l, messages[0], limits);
      if ok then ProcessAll(next, messages[1..], limits) else (next, false)
  }

  function Start(atomIndex: map<nat, nat>, pending: Counts): Ledger {
    Ledger(0, 0, 0, Books(0, 0, map[], map[]), map[], map[], pending, atomIndex)
  }

  // ----- Conservation -----

  ghost function AccountedFor(l: Ledger): nat {
    Total(l.books.skipped) + l.books.persisted + l.books.proposals + Total(l.books.rejected)
  }

  /** Every message seen is skipped, persisted, proposed or rejected, once; and the
      first gate has judged every candidate. */
  ghost predicate Balanced(l: Ledger) {
    l.messagesSeen == AccountedFor(l) && Total(l.stageA) == l.candidates
  }

  lemma SecondGateBalances(l: Ledger, m: Message)
    requires m.ATurn?
    ensures var (next, ok) := SecondGate(l, m);
      && next.pending == l.pending && next.messagesSeen == l.messagesSeen
      && next.stageA == l.stageA && next.candidates == l.candidates
      && AccountedFor(next) == AccountedFor(l) + if ok then 1 else 0
  {
    hide Inc, Total, Book;
    if Book(l.books, m, m.signature in l.atomIndex).Some? {
      BookBooksOne(l.books, m, m.signature in l.atomIndex);
    }
  }

  lemma BookBooksOne(b: Books, m: Message, known: bool)
    requires m.ATurn? && Book(b, m, known).Some?
    ensures var c := Book(b, m, known).value;
      Total(c.skipped) + c.persisted + c.proposals + Total(c.rejected)
        == Total(b.skipped) + b.persisted + b.proposals + Total(b.rejected) + 1
  {
    hide Inc, Total;
    IncAddsOne(b.rejected, m.reasonB);
  }

  /** The first gate judges a candidate once unless it fails, and the two gates book
      it once unless an exception cuts it short. */
  lemma GateBalances(l: Ledger, m: Message)
    requires m.ATurn?
    ensures var (next, ok) := Gate(l, m);
      && next.pending == l.pending && next.messagesSeen == l.messagesSeen
      && AccountedFor(next) == AccountedFor(l) + (if ok then 1 else 0)
      && next.candidates == l.candidates + 1
      && Total(next.stageA) == Total(l.stageA) + (if m.fault == AtStageA then 0 else 1)
      && (m.fault == AtStageA ==> !ok)
  {
    hide Inc, Total, SecondGate;
    IncAddsOne(l.stageA, m.reasonA);
    IncAddsOne(l.books.rejected, m.reasonA);
    SecondGateBalances(l.(candidates := l.candidates + 1, stageA := Inc(l.stageA, m.reasonA)), m);
  }

  /** How many messages too many are booked when a turn is skipped while the
      extractor still holds reasons from before. */
  function Excess(pending: Counts, reason: Reason): nat {
    |Live(pending) - {reason}|
  }

  lemma CollectingBooks(l: Ledger, reason: Reason)
    ensures Total(CollectSkips(l, reason).books.skipped) == Total(l.books.skipped) + 1 + Excess(l.pending, reason)
  {
    var live := Live(Inc(l.pending, reason));
    IncAllAddsSize(l.books.skipped, live);
    assert live == (Live(l.pending) - {reason}) + {reason};
  }

  /** The reason for which the extractor skips a message's turn, if so. */
  function SkipOf(m: Message, limits: Limits): Option<Reason> {
    if m.ATurn? then SkipReason(m.turn, limits) else None
  }

  /** How many messages too many a skip books, if there is one. */
  function ExcessAt(pending: Counts, skip: Option<Reason>): nat {
    if skip.Some? then Excess(pending, skip.value) else 0
  }

  /** From `l` to `l'` the books grow by the messages seen and `extra` more, and every
      new candidate is judged by the first gate. */
  ghost predicate Grows(l: Ledger, l': Ledger, extra: nat) {
    && AccountedFor(l') + l.messagesSeen == AccountedFor(l) + l'.messagesSeen + extra
    && Total(l'.stageA) + l.candidates == Total(l.stageA) + l'.candidates
  }

  /** One message, whatever the extractor and the books held before: the books grow
      by one and the excess, and only where the extractor skips. */
  lemma MessageBooks(l: Ledger, m: Message, limits: Limits)
    requires Process(l, m, limits).1
    ensures var next := Process(l, m, limits).0;
      && Grows(l, next, ExcessAt(l.pending, SkipOf(m, limits)))
      && next.messagesSeen == l.messagesSeen + 1
      && next.pending == if SkipOf(m, limits).Some? then map[] else l.pending
  {
    hide SkipReason, Gate, Total, CollectSkips, Inc, Excess, Grows;
    if m.NoTurn? {
      var reason := if m.reason.Some? then m.reason.value else Unknown;
      NoTurnBooks(l, reason);
    } else {
      var emitted := l.(messagesSeen := l.messagesSeen + 1, turnsEmitted := l.turnsEmitted + 1);
      var reason := SkipReason(m.turn, limits);
      if reason.Some? {
        SkipBooks(l, emitted, reason.value);
      } else {
        GateBooks(l, emitted, m);
      }
    }
  }

  lemma NoTurnBooks(l: Ledger, reason: Reason)
    ensures Grows(l, l.(messagesSeen := l.messagesSeen + 1, books := l.books.(skipped := Inc(l.books.skipped, reason))), 0)
  {
    hide Inc, Total;
    IncAddsOne(l.books.skipped, reason);
  }

  lemma SkipBooks(l: Ledger, emitted: Ledger, reason: Reason)
    requires emitted == l.(messagesSeen := l.messagesSeen + 1, turnsEmitted := l.turnsEmitted + 1)
    ensures var c := CollectSkips(emitted, reason);
      Grows(l, c, Excess(l.pending, reason)) && c.messagesSeen == l.messagesSeen + 1 && c.pending == map[]
  {
    hide Total, CollectSkips, Excess;
    CollectingBooks(emitted, reason);
    CollectKeeps(emitted, reason);
  }

  lemma GateBooks(l: Ledger, emitted: Ledger, m: Message)
    requires emitted == l.(messagesSeen := l.messagesSeen + 1, turnsEmitted := l.turnsEmitted + 1)
    requires m.ATurn? && Gate(emitted, m).1
    ensures var next := Gate(emitted, m).0;
      Grows(l, next, 0) && next.messagesSeen == l.messagesSeen + 1 && next.pending == l.pending
  {
    hide Total, Gate;
    GateBalances(emitted, m);
  }

  lemma CollectKeeps(l: Ledger, reason: Reason)
    ensures var c := CollectSkips(l, reason); c == l.(books := l.books.(skipped := c.books.skipped), pending := map[])
  {
  }

  lemma NoExcessIff(pending: Counts, skip: Option<Reason>)
    ensures ExcessAt(pending, skip) == 0 <==> (skip.Some? ==> Live(pending) <= {skip.value})
  {
    if skip.Some? {
      assert Excess(pending, skip.value) == 0 <==> Live(pending) - {skip.value} == {};
    }
  }

  lemma BalancedByGrowth(l: Ledger, l': Ledger, extra: nat)
    requires Balanced(l) && Grows(l, l', extra)
    ensures Balanced(l') <==> extra == 0
  {
  }

  /** The law holds at a message boundary exactly when no other reason was left
      over in the extractor at a skip. */
  lemma BalancedIff(l: Ledger, m: Message, limits: Limits)
    requires Balanced(l) && Process(l, m, limits).1
    ensures Balanced(Process(l, m, limits).0)
      <==> (m.ATurn? && SkipReason(m.turn, limits).Some? ==> Live(l.pending) <= {SkipReason(m.turn, limits).value})
  {
    hide SkipReason, Process, Total, Excess, Balanced, Grows, Live;
    MessageBooks(l, m, limits);
    var skip := SkipOf(m, limits);
    BalancedByGrowth(l, Process(l, m, limits).0, ExcessAt(l.pending, skip));
    NoExcessIff(l.pending, skip);
  }

  // ----- Whole imports with a used extractor -----

  /** The first skip clears the extractor, so that it is the only one to overbook. */
  function FirstSkip(messages: seq<Message>, limits: Limits): Option<Reason> {
    if messages == [] then None
    else if SkipOf(messages[0], limits).Some? then SkipOf(messages[0], limits)
    else FirstSkip(messages[1..], limits)
  }

  lemma GrowsTwice(l: Ledger, l': Ledger, l'': Ledger, a: nat, b: nat)
    requires Grows(l, l', a) && Grows(l', l'', b)
    ensures Grows(l, l'', a + b)
  {
    hide Total;
  }

  lemma NothingLeftOver(skip: Option<Reason>)
    ensures ExcessAt(map[], skip) == 0
  {
    assert Live(map[]) == {};
    if skip.Some? {
      assert Live(map[]) - {skip.value} == {};
    }
  }

  /** Any number of messages, whatever the extractor and the books held before. */
  lemma {:induction false} ImportBooks(l: Ledger, messages: seq<Message>, limits: Limits)
    requires ProcessAll(l, messages, limits).1
    ensures var end := ProcessAll(l, messages, limits).0;
      && Grows(l, end, ExcessAt(l.pending, FirstSkip(messages, limits)))
      && end.messagesSeen == l.messagesSeen + |messages|
      && end.pending == if FirstSkip(messages, limits).Some? then map[] else l.pending
    decreases |messages|
  {
    hide Process, SkipOf, ExcessAt, Grows;
    if messages == [] {
      NothingGrows(l);
      return;
    }
    var m := messages[0];
    var next := Process(l, m, limits).0;
    MessageBooks(l, m, limits);
    ImportBooks(next, messages[1..], limits);
    var end := ProcessAll(next, messages[1..], limits).0;
    var here, later := ExcessAt(l.pending, SkipOf(m, limits)), ExcessAt(next.pending, FirstSkip(messages[1..], limits));
    GrowsTwice(l, next, end, here, later);
    if SkipOf(m, limits).Some? {
      NothingLeftOver(FirstSkip(messages[1..], limits));
    } else {
      NoSkipNoExcess(l.pending);
    }
  }

  lemma NothingGrows(l: Ledger)
    ensures Grows(l, l, ExcessAt(l.pending, None))
  {
  }

  lemma NoSkipNoExcess(pending: Counts)
    ensures ExcessAt(pending, None) == 0
  {
  }

  /** An import whose extractor has been used before balances exactly when no turn
      is skipped, or the reason of the first skipped turn covers all that was left
      over. */
  lemma ImportBalancedIff(l: Ledger, messages: seq<Message>, limits: Limits)
    requires Balanced(l) && ProcessAll(l, messages, limits).1
    ensures Balanced(ProcessAll(l, messages, limits).0)
      <==> (FirstSkip(messages, limits).None? || Live(l.pending) <= {FirstSkip(messages, limits).value})
  {
    hide ProcessAll, FirstSkip, Grows, Balanced, ExcessAt, Live;
    var skip := FirstSkip(messages, limits);
    ImportBooks(l, messages, limits);
    BalancedByGrowth(l, ProcessAll(l, messages, limits).0, ExcessAt(l.pending, skip));
    NoExcessIff(l.pending, skip);
  }

  // ----- Whole imports with a fresh extractor -----

  /** With a fresh extractor every message boundary of an import balances, and if
      an exception ends it, at most the message in hand is unaccounted for and at
      most its candidate unjudged. */
  lemma {:induction false} ImportsBalance(l: Ledger, messages: seq<Message>, limits: Limits)
    requires Balanced(l) && l.pending == map[]
    ensures var (end, ok) := ProcessAll(l, messages, limits);
      && (ok ==> Balanced(end) && end.pending == map[] && end.messagesSeen == l.messagesSeen + |messages|)
      && (!ok ==> end.messagesSeen == AccountedFor(end) + 1 && Total(end.stageA) <= end.candidates <= Total(end.stageA) + 1)
    decreases |messages|
  {
    hide Process, SkipReason, Total;
    if messages != [] {
      var m := messages[0];
      var (next, ok) := Process(l, m, limits);
      ProcessCountsMessage(l, m, limits);
      if ok {
        MessageBooks(l, m, limits);
        NothingLeftOver(SkipOf(m, limits));
        BalancedByGrowth(l, next, 0);
        ImportsBalance(next, messages[1..], limits);
      } else {
        CutShort(l, m, limits);
      }
    }
  }

  lemma ProcessCountsMessage(l: Ledger, m: Message, limits: Limits)
    ensures Process(l, m, limits).0.messagesSeen == l.messagesSeen + 1
  {
  }

  lemma CutShort(l: Ledger, m: Message, limits: Limits)
    requires Balanced(l) && !Process(l, m, limits).1
    ensures var end := Process(l, m, limits).0;
      end.messagesSeen == AccountedFor(end) + 1 && Total(end.stageA) <= end.candidates <= Total(end.stageA) + 1
  {
    hide SkipReason, Gate, Total;
    GateBalances(l.(messagesSeen := l.messagesSeen + 1, turnsEmitted := l.turnsEmitted + 1), m);
  }

  /** Every boundary: the law for each prefix of the messages. */
  lemma EveryBoundaryBalances(atomIndex: map<nat, nat>, messages: seq<Message>, limits: Limits, k: nat)
    requires k <= |messages|
    ensures var (end, ok) := ProcessAll(Start(atomIndex, map[]), messages[..k], limits);
      ok ==> Balanced(end) && end.messagesSeen == k
  {
    StartBalances(atomIndex, map[]);
    hide ProcessAll, AccountedFor;
    ImportsBalance(Start(atomIndex, map[]), messages[..k], limits);
  }

  lemma SkippedByRole(l: Ledger, m: Message, limits: Limits)
    requires m.ATurn? && m.fault == NoFault && m.turn.role.OtherRole?
    ensures Process(l, m, limits).1 && SkipReason(m.turn, limits) == Some(UnsupportedRole)
  {
    hide CollectSkips, Gate;
  }

  lemma OneLeftOver()
    ensures Excess(map[TooShort := 1], UnsupportedRole) == 1
  {
    var live := Live(map[TooShort := 1]);
    assert live == {TooShort};
    assert live - {UnsupportedRole} == {TooShort};
  }

  /** A used extractor breaks the law: with one reason left over, the first
      message skipped for another reason is booked twice. */
  lemma UsedExtractorOverbooks(m: Message, limits: Limits)
    requires m.ATurn? && m.fault == NoFault && m.turn.role.OtherRole?
    ensures var l := Start(map[], map[TooShort := 1]);
      && Process(l, m, limits).1
      && Process(l, m, limits).0.messagesSeen == 1
      && AccountedFor(Process(l, m, limits).0) == 2
  {
    StartBalances(map[], map[TooShort := 1]);
    OneLeftOver();
    hide Process, Balanced, AccountedFor, Excess;
    FirstSkipOverbooks(Start(map[], map[TooShort := 1]), m, limits);
  }

  lemma FirstSkipOverbooks(l: Ledger, m: Message, limits: Limits)
    requires Balanced(l) && l.messagesSeen == 0 && Excess(l.pending, UnsupportedRole) == 1
    requires m.ATurn? && m.fault == NoFault && m.turn.role.OtherRole?
    ensures var (next, ok) := Process(l, m, limits); ok && next.messagesSeen == 1 && AccountedFor(next) == 2
  {
    hide Process, Grows, Balanced, AccountedFor, SkipReason, Excess;
    SkippedByRole(l, m, limits);
    MessageBooks(l, m, limits);
    FirstMessage(l, Process(l, m, limits).0, 1);
  }

  lemma FirstMessage(l: Ledger, l': Ledger, extra: nat)
    requires Balanced(l) && Grows(l, l', extra) && l.messagesSeen == 0 && l'.messagesSeen == 1
    ensures AccountedFor(l') == 1 + extra
  {
    hide Total;
  }

  lemma StartBalances(atomIndex: map<nat, nat>, pending: Counts)
    ensures Balanced(Start(atomIndex, pending))
  {
  }
}
