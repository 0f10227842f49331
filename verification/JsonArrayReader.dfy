/** Reading the objects of a top-level JSON array chunk by chunk, with a buffer
    that holds only what has not been consumed. */
module JsonArrayReader {
  import opened Json
  import opened TextSpace
  import opened Options

  datatype Outcome = Complete | NotAnArray | BadPayload

  /** The objects yielded, in order, and how the iteration ended. */
  datatype Reading = Reading(objects: seq<Value>, outcome: Outcome)

  // ----- One pass over the whole text -----

  /** The elements behind the opening bracket, and how the scan ends. */
  datatype Scan = Scan(elements: seq<Value>, outcome: Outcome)

  function ScanElements(s: string): Scan
    decreases |s|
  {
    var t := Trim(s);
    if t == [] then Scan([], Complete)
    else if t[0] == ',' then ScanElements(t[1..])
    else if t[0] == ']' then Scan([], Complete)
    else
      var v := DecodeValue(t);
      if v.Fail? then Scan([], BadPayload)
      else
        var rest := ScanElements(t[v.size..]);
        rest.(elements := [v.value] + rest.elements)
  }

  function ScanText(s: string): Scan {
    var t := Trim(s);
    if t == [] then Scan([], Complete)
    else if t[0] != '[' then Scan([], NotAnArray)
    else ScanElements(t[1..])
  }

  /** The rest of a scan that has or has not passed the opening bracket. */
  function ScanFrom(s: string, started: bool): Scan {
    if started then ScanElements(s) else ScanText(s)
  }

  function ObjectsOf(values: seq<Value>): seq<Value> {
    if values == [] then []
    else if values[0].Object? then [values[0]] + ObjectsOf(values[1..])
    else ObjectsOf(values[1..])
  }

  function ReadingOf(scan: Scan): Reading {
    Reading(ObjectsOf(scan.elements), scan.outcome)
  }

  /** Reading the whole text at once. */
  function ReadWhole(text: string): Reading {
    ReadingOf(ScanText(text))
  }

  // ----- Chunk by chunk -----

  /** How the scan of one buffer ends: used up, stuck at an element that does
      not decode, at the closing bracket, or at something that is no array. */
  datatype Stop = UsedUp | Stuck | Closed | Refused

  datatype Drained = Drained(objects: seq<Value>, stop: Stop, started: bool, tail: string)

  function Found(objects: seq<Value>, d: Drained): Drained {
    d.(objects := objects + d.objects)
  }

  function Drain(buf: string, started: bool): (r: Drained)
    ensures r.stop.UsedUp? ==> r.tail == []
    decreases |buf|
  {
    var t := Trim(buf);
    if t == [] then Drained([], UsedUp, started, [])
    else if !started then
      if t[0] == '[' then Drain(t[1..], true) else Drained([], Refused, false, t)
    else if t[0] == ',' then Drain(t[1..], true)
    else if t[0] == ']' then Drained([], Closed, true, t)
    else
      var v := DecodeValue(t);
      if v.Fail? then Drained([], Stuck, true, t)
      else
        Found(if v.value.Object? then [v.value] else [], Drain(t[v.size..], true))
  }

  /** How many characters a read returns: all for a negative size. */
  function ReadSize(chunkSize: int, unread: string): (n: nat)
    ensures n <= |unread|
  {
    if chunkSize < 0 || chunkSize > |unread| then |unread| else chunkSize
  }

  function Prefixed(objects: seq<Value>, r: Reading): Reading {
    r.(objects := objects + r.objects)
  }

  /** The iteration from a buffer and what is left of the file. */
  function Feed(buf: string, unread: string, chunkSize: int, started: bool, eof: bool): Reading
    decreases if eof then 0 else 1 + |unread|, |buf|
  {
    var n := if eof then 0 else ReadSize(chunkSize, unread);
    var eof' := eof || n == 0;
    var buf' := buf + unread[..n];
    if buf' == [] then Reading([], Complete)
    else
      var d := Drain(buf', started);
      match d.stop
      case Refused => Reading(d.objects, NotAnArray)
      case Closed => Reading(d.objects, Complete)
      case Stuck =>
        if eof' then Reading(d.objects, BadPayload)
        else Prefixed(d.objects, Feed(d.tail, unread[n..], chunkSize, d.started, eof'))
      case UsedUp => Prefixed(d.objects, Feed(d.tail, unread[n..], chunkSize, d.started, eof'))
  }

  /** What the chunked iteration yields for a file holding `text`. */
  function ReadChunked(text: string, chunkSize: int): Reading {
    Feed([], text, chunkSize, false, false)
  }

  lemma PrefixedTwice(a: seq<Value>, b: seq<Value>, r: Reading)
    ensures Prefixed(a + b, r) == Prefixed(a, Prefixed(b, r))
  {
    assert (a + b) + r.objects == a + (b + r.objects);
  }

  lemma FoundTwice(a: seq<Value>, b: seq<Value>, d: Drained)
    ensures Found(a, Found(b, d)) == Found(a + b, d)
  {
    assert (a + b) + d.objects == a + (b + d.objects);
  }

  lemma FoundNothing(d: Drained)
    ensures Found([], d) == d
  {
  }

  lemma FoundAll(objects: seq<Value>, stop: Stop, started: bool, tail: string)
    ensures Found(objects, Drained([], stop, started, tail)) == Drained(objects, stop, started, tail)
  {
  }

  /** Before the opening bracket. */
  lemma DrainOpen(buf: string, i: nat)
    requires i < |buf| && !IsSpace(buf[i])
    ensures Drain(buf[i..], false) == if buf[i] == '[' then Drain(buf[i + 1..], true) else Drained([], Refused, false, buf[i..])
  {
    hide DecodeValue;
    assert Trim(buf[i..]) == buf[i..];
    assert buf[i..][1..] == buf[i + 1..];
  }

  /** One character or element consumed, seen at position `i` of a buffer. */
  lemma DrainStep(buf: string, i: nat)
    requires i < |buf| && !IsSpace(buf[i])
    ensures DecodeValue(buf[i..]).Got? ==> i + DecodeValue(buf[i..]).size <= |buf|
    ensures Drain(buf[i..], true) ==
      if buf[i] == ',' then Drain(buf[i + 1..], true)
      else if buf[i] == ']' then Drained([], Closed, true, buf[i..])
      else if DecodeValue(buf[i..]).Fail? then Drained([], Stuck, true, buf[i..])
      else Found(if DecodeValue(buf[i..]).value.Object? then [DecodeValue(buf[i..]).value] else [],
                 Drain(buf[i + DecodeValue(buf[i..]).size..], true))
  {
    hide DecodeValue;
    var t := buf[i..];
    assert Trim(t) == t;
    assert t[1..] == buf[i + 1..];
    var v := DecodeValue(t);
    if v.Got? {
      assert t[v.size..] == buf[i + v.size..];
    }
  }

  lemma TrimStep(buf: string, i: nat)
    requires i < |buf| && IsSpace(buf[i])
    ensures Trim(buf[i..]) == Trim(buf[i + 1..])
  {
    assert buf[i..][1..] == buf[i + 1..];
  }

  lemma DrainSeesTrimmed(s: string, t: string, started: bool)
    requires Trim(s) == Trim(t)
    ensures Drain(s, started) == Drain(t, started)
  {
    hide DecodeValue;
  }

  /** Skips white space. */
  method SkipSpace(buf: string, start: nat, ghost started: bool) returns (index: nat)
    requires start <= |buf|
    ensures start <= index <= |buf|
    ensures index < |buf| ==> !IsSpace(buf[index])
    ensures Drain(buf[start..], started) == Drain(buf[index..], started)
  {
    index := start;
    hide Drain, IsSpace;
    while index < |buf| && IsSpace(buf[index])
      invariant start <= index <= |buf|
      invariant Trim(buf[start..]) == Trim(buf[index..])
    {
      TrimStep(buf, index);
      index := index + 1;
    }
    DrainSeesTrimmed(buf[start..], buf[index..], started);
  }

  lemma DrainNothing(s: string, started: bool)
    requires s == []
    ensures Drain(s, started) == Drained([], UsedUp, started, [])
  {
  }

  /** One round of the inner loop: past white space, then one bracket, comma or
      element; or the reason why the buffer takes it no further. */
  method DrainOnce(buf: string, start: nat, startedBefore: bool)
    returns (stop: Option<Stop>, found: seq<Value>, index: nat, started: bool)
    requires start <= |buf|
    ensures start <= index <= |buf| && (stop.None? ==> start < index)
    ensures Drain(buf[start..], startedBefore) ==
      if stop.Some? then Drained([], stop.value, started, buf[index..]) else Found(found, Drain(buf[index..], started))
    ensures stop.Some? ==> found == []
  {
    hide Drain, DecodeValue, IsSpace, Found, Trim;
    found, started := [], startedBefore;
    index := SkipSpace(buf, start, started);
    if index >= |buf| {
      DrainNothing(buf[index..], started);
      return Some(UsedUp), found, index, started;
    }
    stop := None;
    if !started {
      DrainOpen(buf, index);
      if buf[index] != '[' {
        return Some(Refused), found, index, started;
      }
      started := true;
      index := index + 1;
      FoundNothing(Drain(buf[index..], true));
      return;
    }
    DrainStep(buf, index);
    if buf[index] == ',' {
      index := index + 1;
      FoundNothing(Drain(buf[index..], true));
      return;
    }
    if buf[index] == ']' {
      return Some(Closed), found, index, started;
    }
    var v := DecodeValue(buf[index..]);
    if v.Fail? {
      return Some(Stuck), found, index, started;
    }
    index := index + v.size;
    found := if v.value.Object? then [v.value] else [];
  }

  /** The inner loop: consumes the buffer from its start. */
  method DrainBuffer(buf: string, startedBefore: bool)
    returns (objects: seq<Value>, index: nat, started: bool, stop: Stop)
    ensures index <= |buf|
    ensures Drain(buf, startedBefore) == Drained(objects, stop, started, buf[index..])
  {
    objects, index, started := [], 0, startedBefore;
    assert buf[0..] == buf;
    FoundNothing(Drain(buf, started));
    while true
      invariant index <= |buf|
      invariant Drain(buf, startedBefore) == Found(objects, Drain(buf[index..], started))
      decreases |buf| - index
    {
      hide Drain, DecodeValue, IsSpace;
      var reason, found;
      reason, found, index, started := DrainOnce(buf, index, started);
      if reason.Some? {
        FoundAll(objects, reason.value, started, buf[index..]);
        return objects, index, started, reason.value;
      }
      FoundTwice(objects, found, Drain(buf[index..], started));
      objects := objects + found;
    }
  }

  method IterJsonArrayObjects(text: string, chunkSize: int := 1_048_576) returns (r: Reading)
    ensures r == ReadChunked(text, chunkSize)
  {
    var objects: seq<Value> := [];
    var buf, index, pos := "", 0, 0;
    var started, eof := false, false;
    hide Drain, DecodeValue;
    while true
      invariant index <= |buf| && pos <= |text|
      invariant ReadChunked(text, chunkSize) == Prefixed(objects, Feed(buf[index..], text[pos..], chunkSize, started, eof))
      decreases if eof then 0 else 1 + |text| - pos, |buf| - index
    {
      buf := buf[index..];
      index := 0;
      ghost var unread := text[pos..];
      ghost var kept := buf;
      ghost var wasEof := eof;
      if !eof {
        var chunk := text[pos..pos + ReadSize(chunkSize, text[pos..])];
        if chunk != "" {
          buf := buf + chunk;
          pos := pos + |chunk|;
        } else {
          eof := true;
        }
      }
      ghost var n := if wasEof then 0 else ReadSize(chunkSize, unread);
      assert buf == kept + unread[..n];
      assert text[pos..] == unread[n..];
      if buf == "" {
        return Reading(objects, Complete);
      }
      var found, stop;
      found, index, started, stop := DrainBuffer(buf, started);
      ghost var before := objects;
      objects := objects + found;
      match stop {
        case Refused => return Reading(objects, NotAnArray);
        case Closed => return Reading(objects, Complete);
        case Stuck =>
          if eof {
            return Reading(objects, BadPayload);
          }
          PrefixedTwice(before, found, Feed(buf[index..], text[pos..], chunkSize, started, eof));
        case UsedUp =>
          PrefixedTwice(before, found, Feed(buf[index..], text[pos..], chunkSize, started, eof));
      }
    }
  }
}
