/** The import loop and the extractor it drives, counters updated in place. */
module ImportOrchestrator {
  import opened Tally
  import opened ImportAccounting
  import opened Options

  /** A conversation of the export; an unsafe one ends the import before any of
      its messages is looked at. */
  datatype Conversation = Conversation(isSafe: bool, messages: seq<Message>)

  function ProcessConversations(l: Ledger, conversations: seq<Conversation>, limits: Limits): (Ledger, bool)
    decreases |conversations|
  {
    if conversations == [] then (l, true)
    else if !conversations[0].isSafe then (l, false)
    else
      var (next, ok) := ProcessAll(l, conversations[0].messages, limits);
      if ok then ProcessConversations(next, conversations[1..], limits) else (next, false)
  }

  /** A whole import with a fresh extractor: it balances when it runs through, and
      when it is cut short at most the message in hand is unaccounted for. */
  lemma {:induction false} WholeImportsBalance(l: Ledger, conversations: seq<Conversation>, limits: Limits)
    requires Balanced(l) && l.pending == map[]
    ensures var (end, ok) := ProcessConversations(l, conversations, limits);
      && (ok ==> Balanced(end) && end.pending == map[])
      && AccountedFor(end) <= end.messagesSeen <= AccountedFor(end) + 1
      && Total(end.stageA) <= end.candidates <= Total(end.stageA) + 1
    decreases |conversations|
  {
    hide ProcessAll, AccountedFor, Total;
    if conversations != [] && conversations[0].isSafe {
      ImportsBalance(l, conversations[0].messages, limits);
      var (next, ok) := ProcessAll(l, conversations[0].messages, limits);
      if ok {
        WholeImportsBalance(next, conversations[1..], limits);
      }
    }
  }

  /** The messages of all conversations, in order. */
  function MessagesOf(conversations: seq<Conversation>): seq<Message> {
    if conversations == [] then [] else conversations[0].messages + MessagesOf(conversations[1..])
  }

  lemma {:induction false} MessagesInTwoParts(l: Ledger, a: seq<Message>, b: seq<Message>, limits: Limits)
    requires ProcessAll(l, a, limits).1
    ensures ProcessAll(l, a + b, limits) == ProcessAll(ProcessAll(l, a, limits).0, b, limits)
    decreases |a|
  {
    hide Process;
    if a == [] {
      assert a + b == b;
    } else {
      assert (a + b)[0] == a[0] && (a + b)[1..] == a[1..] + b;
      MessagesInTwoParts(Process(l, a[0], limits).0, a[1..], b, limits);
    }
  }

  /** An import that runs through sees its messages as if they were one conversation. */
  lemma {:induction false} ImportIsOneConversation(l: Ledger, conversations: seq<Conversation>, limits: Limits)
    requires ProcessConversations(l, conversations, limits).1
    ensures ProcessAll(l, MessagesOf(conversations), limits) == ProcessConversations(l, conversations, limits)
    decreases |conversations|
  {
    hide ProcessAll;
    if conversations == [] {
      NoMessages(l, limits);
    } else {
      var next := ProcessAll(l, conversations[0].messages, limits).0;
      MessagesInTwoParts(l, conversations[0].messages, MessagesOf(conversations[1..]), limits);
      ImportIsOneConversation(next, conversations[1..], limits);
    }
  }

  lemma NoMessages(l: Ledger, limits: Limits)
    ensures ProcessAll(l, [], limits) == (l, true)
  {
  }

  /** A whole import, whatever the extractor was used for before: it balances exactly
      when none of its turns is skipped, or the reason of the first that is covers all
      that was left over. */
  lemma WholeImportBalancedIff(l: Ledger, conversations: seq<Conversation>, limits: Limits)
    requires Balanced(l) && ProcessConversations(l, conversations, limits).1
    ensures var skip := FirstSkip(MessagesOf(conversations), limits);
      Balanced(ProcessConversations(l, conversations, limits).0) <==> skip.None? || Live(l.pending) <= {skip.value}
  {
    hide *;
    ImportIsOneConversation(l, conversations, limits);
    ImportBalancedIff(l, MessagesOf(conversations), limits);
  }

  class Extractor {
    const limits: Limits
    var turnsSeen: nat
    var turnsSkipped: nat
    var candidatesEmitted: nat
    var skipReasons: Counts

    constructor (limits: Limits)
      ensures this.limits == limits && skipReasons == map[] && turnsSeen == turnsSkipped == candidatesEmitted == 0
    {
      this.limits := limits;
      turnsSeen, turnsSkipped, candidatesEmitted, skipReasons := 0, 0, 0, map[];
    }

    method Skip(reason: Reason)
      modifies `turnsSkipped, `skipReasons
      ensures turnsSkipped == old(turnsSkipped) + 1 && skipReasons == Inc(old(skipReasons), reason)
    {
      turnsSkipped := turnsSkipped + 1;
      skipReasons := Inc(skipReasons, reason);
    }

    /** One candidate, or one more reason why not. */
    method ExtractTurn(t: Turn) returns (emitted: bool)
      modifies this
      ensures turnsSeen == old(turnsSeen) + 1
      ensures emitted <==> SkipReason(t, limits).None?
      ensures emitted ==> skipReasons == old(skipReasons) && turnsSkipped == old(turnsSkipped)
                          && candidatesEmitted == old(candidatesEmitted) + 1
      ensures !emitted ==> skipReasons == Inc(old(skipReasons), SkipReason(t, limits).value)
                           && turnsSkipped == old(turnsSkipped) + 1 && candidatesEmitted == old(candidatesEmitted)
    {
      hide Inc;
      turnsSeen := turnsSeen + 1;
      emitted := false;
      if t.role != User && t.role != Assistant {
        Skip(UnsupportedRole);
        return;
      }
      if t.text == "" {
        Skip(EmptyText);
        return;
      }
      if t.text[0] == '{' || t.text[0] == '[' {
        Skip(StructuredPayload);
        return;
      }
      if t.tokens < limits.minTokens {
        Skip(TooShort);
        return;
      }
      if Confidence(t.signals) < limits.minConfidence {
        Skip(LowConfidence);
        return;
      }
      candidatesEmitted := candidatesEmitted + 1;
      emitted := true;
    }

    /** Hands over the reasons counted since the last time, each once. */
    method CollectReasons(skipped: Counts) returns (counts: Counts)
      modifies `skipReasons
      ensures counts == IncAll(skipped, Live(old(skipReasons))) && skipReasons == map[]
    {
      counts := skipped;
      var todo := skipReasons.Keys;
      ghost var done: set<Reason> := {};
      assert IncAll(skipped, {}) == skipped;
      while todo != {}
        invariant todo <= skipReasons.Keys && skipReasons == old(skipReasons)
        invariant done == Live(skipReasons) - todo
        invariant counts == IncAll(skipped, done)
        decreases todo
      {
        var reason :| reason in todo;
        todo := todo - {reason};
        if skipReasons[reason] > 0 {
          IncAllStep(skipped, done, reason);
          counts := Inc(counts, reason);
          done := done + {reason};
        }
      }
      assert done == Live(skipReasons);
      skipReasons := map[];
    }
  }

  class ImportCounters {
    var messagesSeen: nat
    var turnsEmitted: nat
    var candidates: nat
    var persisted: nat
    var proposals: nat
    var skipped: Counts
    var stageA: Counts
    var stageB: Counts
    var rejected: Counts

    constructor ()
      ensures State(map[], map[]) == Start(map[], map[])
    {
      messagesSeen, turnsEmitted, candidates, persisted, proposals := 0, 0, 0, 0, 0;
      skipped, stageA, stageB, rejected := map[], map[], map[], map[];
    }

    ghost function State(pending: Counts, atomIndex: map<nat, nat>): Ledger
      reads this
    {
      Ledger(messagesSeen, turnsEmitted, candidates, Books(persisted, proposals, skipped, rejected), stageA, stageB, pending, atomIndex)
    }
  }

  /** One candidate through the two gates; false where something raises. */
  method PassGates(counters: ImportCounters, m: Message, index: map<nat, nat>, ghost pending: Counts)
    returns (atomIndex: map<nat, nat>, ok: bool)
    requires m.ATurn?
    modifies counters
    ensures (counters.State(pending, atomIndex), ok) == Gate(old(counters.State(pending, index)), m)
  {
    hide Inc;
    atomIndex, ok := index, false;
    counters.candidates := counters.candidates + 1;
    if m.fault == AtStageA {
      return;
    }
    counters.stageA := Inc(counters.stageA, m.reasonA);
    if m.ignoredByA {
      counters.rejected := Inc(counters.rejected, m.reasonA);
      return atomIndex, true;
    }
    hide SecondGate;
    atomIndex, ok := PassSecondGate(counters, m, index, pending);
  }

  method PassSecondGate(counters: ImportCounters, m: Message, index: map<nat, nat>, ghost pending: Counts)
    returns (atomIndex: map<nat, nat>, ok: bool)
    requires m.ATurn?
    modifies counters
    ensures (counters.State(pending, atomIndex), ok) == SecondGate(old(counters.State(pending, index)), m)
  {
    hide Inc;
    atomIndex, ok := index, false;
    if m.fault == AtStageB {
      return;
    }
    counters.stageB := Inc(counters.stageB, m.reasonB);
    if m.action == Add || m.action == Update {
      if m.fault == AtStore {
        return;
      }
      counters.persisted := counters.persisted + 1;
      return atomIndex[m.signature := m.atom], true;
    }
    if (m.action == ProposeEdit || m.action == ProposeDelete) && m.signature in atomIndex {
      if m.fault == AtPropose {
        return;
      }
      counters.proposals := counters.proposals + 1;
      return atomIndex, true;
    }
    counters.rejected := Inc(counters.rejected, m.reasonB);
    ok := true;
  }

  method ImportMessage(counters: ImportCounters, extractor: Extractor, m: Message, index: map<nat, nat>)
    returns (atomIndex: map<nat, nat>, ok: bool)
    modifies counters, extractor
    ensures (counters.State(extractor.skipReasons, atomIndex), ok) ==
      Process(old(counters.State(extractor.skipReasons, index)), m, extractor.limits)
  {
    hide SkipReason, Gate, Inc, Live, IncAll;
    atomIndex, ok := index, true;
    counters.messagesSeen := counters.messagesSeen + 1;
    if m.NoTurn? {
      counters.skipped := Inc(counters.skipped, if m.reason.Some? then m.reason.value else Unknown);
      return;
    }
    counters.turnsEmitted := counters.turnsEmitted + 1;
    if m.fault == AtRecord {
      return atomIndex, false;
    }
    var emitted := extractor.ExtractTurn(m.turn);
    if !emitted {
      counters.skipped := extractor.CollectReasons(counters.skipped);
      return;
    }
    atomIndex, ok := PassGates(counters, m, atomIndex, extractor.skipReasons);
  }

  /** The import.  It stops at the first exception, wherever that is raised. */
  method Run(extractor: Extractor, conversations: seq<Conversation>, index: map<nat, nat>)
    returns (counters: ImportCounters, atomIndex: map<nat, nat>, conversationsSeen: nat, ok: bool)
    modifies extractor
    ensures fresh(counters)
    ensures (counters.State(extractor.skipReasons, atomIndex), ok) ==
      ProcessConversations(Start(index, old(extractor.skipReasons)), conversations, extractor.limits)
    ensures conversationsSeen <= |conversations| && (ok ==> conversationsSeen == |conversations|)
  {
    hide Process, Gate;
    counters := new ImportCounters();
    atomIndex, conversationsSeen, ok := index, 0, true;
    ghost var limits := extractor.limits;
    ghost var whole := ProcessConversations(counters.State(extractor.skipReasons, atomIndex), conversations, limits);
    while conversationsSeen < |conversations|
      invariant conversationsSeen <= |conversations| && fresh(counters)
      invariant ProcessConversations(counters.State(extractor.skipReasons, atomIndex), conversations[conversationsSeen..], limits) == whole
    {
      var conversation := conversations[conversationsSeen];
      if !conversation.isSafe {
        return counters, atomIndex, conversationsSeen, false;
      }
      ghost var rest := conversations[conversationsSeen + 1..];
      assert conversations[conversationsSeen..][1..] == rest;
      conversationsSeen := conversationsSeen + 1;
      ghost var all := ProcessAll(counters.State(extractor.skipReasons, atomIndex), conversation.messages, limits);
      assert conversation.messages[0..] == conversation.messages;
      for k := 0 to |conversation.messages|
        invariant ProcessAll(counters.State(extractor.skipReasons, atomIndex), conversation.messages[k..], limits) == all
      {
        assert conversation.messages[k..][1..] == conversation.messages[k + 1..];
        atomIndex, ok := ImportMessage(counters, extractor, conversation.messages[k], atomIndex);
        if !ok {
          return counters, atomIndex, conversationsSeen, false;
        }
      }
    }
    ok := true;
  }
}
