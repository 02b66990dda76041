/** What the stream mux does, as a function of the streams' queues and the read cursor. */
module MuxView {
  import opened ByteStrings

  datatype View = View(queues: seq<Bytes>, cursor: nat)

  predicate InRange(v: View) {
    v.cursor < |v.queues| || (v.queues == [] && v.cursor == 0)
  }

  // Number of streams tried before `index`.
  function Distance(cursor: nat, index: nat, count: nat): nat
    requires cursor < count && index < count
  {
    if index >= cursor then index - cursor else index + count - cursor
  }

  function At(cursor: nat, offset: nat, count: nat): (index: nat)
    requires cursor < count && offset < count
    ensures index < count && Distance(cursor, index, count) == offset
  {
    if cursor + offset < count then cursor + offset else cursor + offset - count
  }

  function After(index: nat, count: nat): (next: nat)
    requires index < count
    ensures next < count
  {
    if index + 1 < count then index + 1 else 0
  }

  // The first stream with data, trying `offset`, `offset + 1`, ... places after the cursor.
  function PickFrom(v: View, offset: nat): (r: Option<nat>)
    requires v.cursor < |v.queues| && offset <= |v.queues|
    ensures r.Some? ==>
              && r.value < |v.queues| && v.queues[r.value] != []
              && forall k :: 0 <= k < |v.queues|
                   && offset <= Distance(v.cursor, k, |v.queues|) < Distance(v.cursor, r.value, |v.queues|)
                   ==> v.queues[k] == []
    ensures r.None? ==>
              forall k :: 0 <= k < |v.queues| && offset <= Distance(v.cursor, k, |v.queues|) ==> v.queues[k] == []
    decreases |v.queues| - offset
  {
    if offset == |v.queues| then None
    else if v.queues[At(v.cursor, offset, |v.queues|)] != [] then Some(At(v.cursor, offset, |v.queues|))
    else PickFrom(v, offset + 1)
  }

  function Pick(v: View): (r: Option<nat>)
    requires InRange(v)
    ensures r.Some? ==> r.value < |v.queues| && v.queues[r.value] != []
  {
    if v.queues == [] then None else PickFrom(v, 0)
  }

  // Taking up to `size` bytes from the picked stream.
  function Take(v: View, size: nat): View
    requires InRange(v)
  {
    match Pick(v)
    case None => v
    case Some(i) =>
      if size == 0 then v
      else
        View(v.queues[i := v.queues[i][Min(size, |v.queues[i]|)..]], After(i, |v.queues|))
  }

  function Taken(v: View, size: nat): Bytes
    requires InRange(v)
  {
    match Pick(v)
    case None => []
    case Some(i) => v.queues[i][..Min(size, |v.queues[i]|)]
  }

  function PeekOf(v: View): int
    requires InRange(v)
  {
    match Pick(v)
    case None => -1
    case Some(i) => v.queues[i][0]
  }

  // ---- Runs: reads of any size with arrivals in between -----------------------------------------

  datatype Event = ReadUpTo(size: nat) | Arrive(stream: nat, bytes: Bytes)

  function Step(v: View, e: Event): (after: View)
    requires InRange(v)
    ensures InRange(after) && |after.queues| == |v.queues|
  {
    match e
    case ReadUpTo(size) => Take(v, size)
    case Arrive(stream, bytes) =>
      if stream < |v.queues| then v.(queues := v.queues[stream := v.queues[stream] + bytes]) else v
  }

  function Run(v: View, events: seq<Event>): (after: View)
    requires InRange(v)
    ensures InRange(after) && |after.queues| == |v.queues|
    decreases |events|
  {
    if events == [] then v else Run(Step(v, events[0]), events[1..])
  }

  // Whether some read of the run takes from stream `k`.
  predicate Served(v: View, events: seq<Event>, k: nat)
    requires InRange(v)
    decreases |events|
  {
    events != []
    && ((events[0].ReadUpTo? && events[0].size > 0 && Pick(v) == Some(k)) || Served(Step(v, events[0]), events[1..], k))
  }

  function Reads(events: seq<Event>): nat {
    if events == [] then 0
    else (if events[0].ReadUpTo? && events[0].size > 0 then 1 else 0) + Reads(events[1..])
  }

  // Each read that serves another stream brings the cursor nearer to one that is waiting.
  lemma ReadComesNearer(v: View, size: nat, k: nat)
    requires InRange(v) && k < |v.queues| && v.queues[k] != [] && size > 0
    ensures Pick(v).Some?
    ensures Pick(v) == Some(k) ||
            (Distance(Take(v, size).cursor, k, |v.queues|) < Distance(v.cursor, k, |v.queues|)
             && Take(v, size).queues[k] == v.queues[k])
  {
    var i := Pick(v).value;
    assert Distance(v.cursor, i, |v.queues|) <= Distance(v.cursor, k, |v.queues|);
  }

  // A stream with data ready is served within as many reads as there are streams.
  lemma {:induction false} ServedWithinCount(v: View, events: seq<Event>, k: nat)
    requires InRange(v) && k < |v.queues| && v.queues[k] != []
    requires Reads(events) > Distance(v.cursor, k, |v.queues|)
    ensures Served(v, events, k)
    decreases |events|
  {
    var e := events[0];
    if e.ReadUpTo? && e.size > 0 {
      ReadComesNearer(v, e.size, k);
      if Pick(v) != Some(k) {
        ServedWithinCount(Step(v, e), events[1..], k);
      }
    } else {
      ServedWithinCount(Step(v, e), events[1..], k);
    }
  }

  // ---- The output is an order-preserving merge -------------------------------------------------

  // One output byte and the stream it came from.
  datatype Tagged = Tagged(stream: nat, value: byte)

  function Tag(stream: nat, bytes: Bytes): (s: seq<Tagged>)
    ensures |s| == |bytes| && forall i :: 0 <= i < |s| ==> s[i] == Tagged(stream, bytes[i])
  {
    seq(|bytes|, i requires 0 <= i < |bytes| => Tagged(stream, bytes[i]))
  }

  function From(output: seq<Tagged>, k: nat): Bytes {
    if output == [] then []
    else (if output[0].stream == k then [output[0].value] else []) + From(output[1..], k)
  }

  // All the run's output, in order.
  function Output(v: View, events: seq<Event>): seq<Tagged>
    requires InRange(v)
    decreases |events|
  {
    if events == [] then []
    else
      (if events[0].ReadUpTo? && Pick(v).Some? then Tag(Pick(v).value, Taken(v, events[0].size)) else [])
      + Output(Step(v, events[0]), events[1..])
  }

  function ArrivedOn(events: seq<Event>, k: nat): Bytes {
    if events == [] then []
    else (if events[0].Arrive? && events[0].stream == k then events[0].bytes else []) + ArrivedOn(events[1..], k)
  }

  lemma FromCons(a: seq<Tagged>, k: nat)
    requires a != []
    ensures From(a, k) == (if a[0].stream == k then [a[0].value] else []) + From(a[1..], k)
  {
  }

  lemma {:induction false} FromConcat(a: seq<Tagged>, b: seq<Tagged>, k: nat)
    ensures From(a + b, k) == From(a, k) + From(b, k)
  {
    if a == [] {
      assert a + b == b;
      assert [] + From(b, k) == From(b, k);
    } else {
      hide From;
      FromCons(a + b, k);
      FromCons(a, k);
      assert (a + b)[1..] == a[1..] + b;
      FromConcat(a[1..], b, k);
      Regroup(if a[0].stream == k then [a[0].value] else [], From(a[1..], k), From(b, k));
    }
  }

  lemma {:induction false} FromTag(stream: nat, bytes: Bytes, k: nat)
    ensures From(Tag(stream, bytes), k) == if stream == k then bytes else []
  {
    if bytes != [] {
      assert Tag(stream, bytes)[1..] == Tag(stream, bytes[1..]);
      FromTag(stream, bytes[1..], k);
      assert bytes == [bytes[0]] + bytes[1..];
    }
  }

  lemma OneEvent(v: View, e: Event, k: nat)
    requires InRange(v)
    ensures Output(v, [e]) == if e.ReadUpTo? && Pick(v).Some? then Tag(Pick(v).value, Taken(v, e.size)) else []
    ensures ArrivedOn([e], k) == if e.Arrive? && e.stream == k then e.bytes else []
  {
    hide Pick, Taken, Take;
    assert Output(Step(v, e), []) == [] && ArrivedOn([], k) == [];
  }

  // What one event takes from, leaves on and adds to stream `k`.
  lemma StepConserves(v: View, e: Event, k: nat)
    requires InRange(v) && k < |v.queues|
    ensures From(Output(v, [e]), k) + Step(v, e).queues[k] == v.queues[k] + ArrivedOn([e], k)
  {
    assert From([], k) == [];
    hide Pick, From, Output, ArrivedOn;
    OneEvent(v, e, k);
    if e.ReadUpTo? && Pick(v).Some? {
      var i := Pick(v).value;
      FromTag(i, Taken(v, e.size), k);
      assert v.queues[i] == Taken(v, e.size) + Step(v, e).queues[i];
    }
  }

  lemma FirstThenRest(v: View, events: seq<Event>, k: nat)
    requires InRange(v) && events != []
    ensures var e, rest := events[0], events[1..];
            && Output(v, events) == Output(v, [e]) + Output(Step(v, e), rest)
            && ArrivedOn(events, k) == ArrivedOn([e], k) + ArrivedOn(rest, k)
            && Run(v, events) == Run(Step(v, e), rest)
  {
    OneEvent(v, events[0], k);
  }

  // Of each stream, the output holds exactly the bytes it had and got, in their order, less those
  // still waiting.
  lemma {:induction false} MergeKeepsOrder(v: View, events: seq<Event>, k: nat)
    requires InRange(v) && k < |v.queues|
    ensures From(Output(v, events), k) + Run(v, events).queues[k] == v.queues[k] + ArrivedOn(events, k)
    decreases |events|
  {
    if events == [] {
      assert [] + v.queues[k] == v.queues[k] + [];
    } else {
      FirstThenRest(v, events, k);
      hide From, Pick, Taken, Take, Output, ArrivedOn, Run, Step;
      var e, rest := events[0], events[1..];
      var after := Step(v, e);
      StepConserves(v, e, k);
      MergeKeepsOrder(after, rest, k);
      FromConcat(Output(v, [e]), Output(after, rest), k);
      Shuffle(From(Output(v, [e]), k), From(Output(after, rest), k), Run(after, rest).queues[k],
              after.queues[k], ArrivedOn(rest, k), v.queues[k], ArrivedOn([e], k));
    }
  }

  lemma Shuffle(taken: Bytes, later: Bytes, final: Bytes, mid: Bytes, arrives: Bytes, first: Bytes, arrived: Bytes)
    requires later + final == mid + arrives && taken + mid == first + arrived
    ensures taken + later + final == first + (arrived + arrives)
  {
    assert taken + later + final == taken + (later + final);
    assert taken + (mid + arrives) == taken + mid + arrives;
    assert first + arrived + arrives == first + (arrived + arrives);
  }

  // Reading up to one byte is what peek announced.
  lemma PeekPredictsRead(v: View)
    requires InRange(v)
    ensures Taken(v, 1) == if PeekOf(v) == -1 then [] else [PeekOf(v)]
    ensures PeekOf(v) == -1 <==> forall k :: 0 <= k < |v.queues| ==> v.queues[k] == []
  {
  }
}
