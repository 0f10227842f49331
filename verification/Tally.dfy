/** Counters by reason, and their totals. */
module Tally {

  /** Why a message came to nothing: the extractor's own reasons, the stand-in for
      a missing one, and those of the parser and the gates. */
  datatype Reason =
    | UnsupportedRole | EmptyText | StructuredPayload | TooShort | LowConfidence | Unknown | Other(name: string)

  type Counts = map<Reason, nat>

  function Inc(c: Counts, reason: Reason): Counts {
    c[reason := (if reason in c then c[reason] else 0) + 1]
  }

  ghost function Pick(c: Counts): (reason: Reason)
    requires c != map[]
    ensures reason in c
  {
    var reason :| reason in c;
    reason
  }

  ghost function Total(c: Counts): nat
    decreases |c|
  {
    if c == map[] then 0 else c[Pick(c)] + Total(c - {Pick(c)})
  }

  lemma {:induction false} TotalWithout(c: Counts, reason: Reason)
    requires reason in c
    ensures Total(c) == c[reason] + Total(c - {reason})
    decreases |c|
  {
    var first := Pick(c);
    assert Total(c) == c[first] + Total(c - {first});
    if first != reason {
      var both := c - {first, reason};
      assert c - {first} - {reason} == both && c - {reason} - {first} == both;
      TotalWithout(c - {first}, reason);
      TotalWithout(c - {reason}, first);
      hide Total, Pick;
    }
  }

  /** Counting one more raises the total by one. */
  lemma IncAddsOne(c: Counts, reason: Reason)
    ensures Total(Inc(c, reason)) == Total(c) + 1
  {
    var d := Inc(c, reason);
    TotalWithout(d, reason);
    if reason in c {
      TotalWithout(c, reason);
      assert d - {reason} == c - {reason};
    } else {
      assert d - {reason} == c;
    }
  }

  /** Counting every reason of a set once. */
  function IncAll(c: Counts, reasons: set<Reason>): Counts {
    map r | r in c.Keys + reasons :: (if r in c then c[r] else 0) + if r in reasons then 1 else 0
  }

  lemma IncAllStep(c: Counts, reasons: set<Reason>, reason: Reason)
    requires reason !in reasons
    ensures Inc(IncAll(c, reasons), reason) == IncAll(c, reasons + {reason})
  {
  }

  lemma {:induction false} IncAllAddsSize(c: Counts, reasons: set<Reason>)
    ensures Total(IncAll(c, reasons)) == Total(c) + |reasons|
    decreases |reasons|
  {
    hide *;
    if reasons == {} {
      IncAllNothing(c);
    } else {
      var reason :| reason in reasons;
      var rest := reasons - {reason};
      IncAllAddsSize(c, rest);
      IncAllMore(c, rest, reason);
      assert rest + {reason} == reasons;
    }
  }

  lemma IncAllNothing(c: Counts)
    ensures IncAll(c, {}) == c
  {
  }

  lemma IncAllMore(c: Counts, reasons: set<Reason>, reason: Reason)
    requires reason !in reasons
    ensures Total(IncAll(c, reasons + {reason})) == Total(IncAll(c, reasons)) + 1
  {
    hide *;
    IncAllStep(c, reasons, reason);
    IncAddsOne(IncAll(c, reasons), reason);
  }
}
