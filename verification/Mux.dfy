/** The stream mux: up to four streams in an array, read round robin from a moving cursor.
    Data arrives on a stream only between calls of the mux. */
module Mux {
  import opened ByteStrings
  import opened MuxView

  const MAX_STREAMS: nat := 4

  class Stream {
    var pending: Bytes
    ghost var written: Bytes
    ghost var offers: seq<Bytes>    // the data of each call of Write

    constructor ()
      ensures pending == [] && written == [] && offers == []
    {
      pending, written, offers := [], [], [];
    }

    // The environment's step.
    method Arrive(bytes: Bytes)
      modifies this`pending
      ensures pending == old(pending) + bytes
    {
      pending := pending + bytes;
    }

    method Available() returns (count: int)
      ensures count == |pending|
    {
      count := |pending|;
    }

    method ReadByte() returns (value: int)
      modifies this`pending
      ensures old(pending) == [] ==> value == -1 && pending == []
      ensures old(pending) != [] ==> value == old(pending)[0] && pending == old(pending)[1..]
    {
      if pending == [] {
        return -1;
      }
      value := pending[0];
      pending := pending[1..];
    }

    method PeekByte() returns (value: int)
      ensures value == if pending == [] then -1 else pending[0]
    {
      value := if pending == [] then -1 else pending[0];
    }

    // The TCP stream's own bulk read.
    method ReadBulk(buffer: array<byte>, request: nat) returns (count: nat)
      requires request <= buffer.Length
      modifies this`pending, buffer
      ensures count == Min(request, |old(pending)|)
      ensures buffer[..count] == old(pending)[..count] && pending == old(pending)[count..]
    {
      count := Min(request, |pending|);
      forall i | 0 <= i < count {
        buffer[i] := pending[i];
      }
      pending := pending[count..];
    }

    method Write(data: Bytes) returns (count: nat)
      modifies this`written, this`offers
      ensures count <= |data| && written == old(written) + data[..count] && offers == old(offers) + [data]
    {
      offers := offers + [data];
      var n: int := *;
      count := if 0 <= n <= |data| then n else |data|;
      written := written + data[..count];
    }
  }

  function Without(list: seq<Stream>, s: Stream): seq<Stream> {
    if list == [] then [] else if list[0] == s then list[1..] else [list[0]] + Without(list[1..], s)
  }

  lemma {:induction false} WithoutAt(list: seq<Stream>, i: nat)
    requires i < |list| && list[i] !in list[..i]
    ensures Without(list, list[i]) == list[..i] + list[i + 1..]
  {
    if i > 0 {
      assert list[0] in list[..i] && list[1..][..i - 1] == list[1..i];
      WithoutAt(list[1..], i - 1);
      assert list[..i] == [list[0]] + list[1..i];
    }
  }

  lemma {:induction false} WithoutAbsent(list: seq<Stream>, s: Stream)
    requires s !in list
    ensures Without(list, s) == list
  {
    if list != [] {
      WithoutAbsent(list[1..], s);
      assert list == [list[0]] + list[1..];
    }
  }

  class ESPNetworkSerialMux {
    const streams: array<Stream?>
    var streamCount: nat
    var nextReadIndex: nat

    ghost predicate Valid()
      reads this, streams
    {
      && streams.Length == MAX_STREAMS && streamCount <= MAX_STREAMS
      && (forall i :: 0 <= i < streamCount ==> streams[i] != null)
      && (forall i :: streamCount <= i < MAX_STREAMS ==> streams[i] == null)
      && (forall i, j :: 0 <= i < j < streamCount ==> streams[i] != streams[j])
      && (nextReadIndex < streamCount || nextReadIndex == 0)
    }

    ghost function List(): (list: seq<Stream>)
      requires Valid()
      reads this, streams
      ensures |list| == streamCount && forall i :: 0 <= i < |list| ==> list[i] == streams[i]
    {
      seq(streamCount, i requires 0 <= i < streamCount reads this, streams requires Valid() => streams[i])
    }

    ghost function CurrentView(): View
      requires Valid()
      reads this, streams, List()
    {
      View(Queues(List()), nextReadIndex)
    }

    static ghost function Queues(list: seq<Stream>): (queues: seq<Bytes>)
      reads list
      ensures |queues| == |list| && forall i :: 0 <= i < |list| ==> queues[i] == list[i].pending
    {
      seq(|list|, i requires 0 <= i < |list| reads list => list[i].pending)
    }

    constructor ()
      ensures Valid() && List() == [] && nextReadIndex == 0 && fresh(streams)
    {
      streams := new Stream?[MAX_STREAMS](_ => null);
      streamCount, nextReadIndex := 0, 0;
    }

    method AddStream(stream: Stream) returns (ok: bool)
      requires Valid()
      modifies this`streamCount, streams
      ensures Valid() && nextReadIndex == old(nextReadIndex)
      ensures ok <==> stream in old(List()) || |old(List())| < MAX_STREAMS
      ensures List() == if ok && stream !in old(List()) then old(List()) + [stream] else old(List())
    {
      for i := 0 to streamCount
        invariant forall j :: 0 <= j < i ==> streams[j] != stream
      {
        if streams[i] == stream {
          assert List()[i] == stream;
          return true;
        }
      }
      assert stream !in List();
      if streamCount >= MAX_STREAMS {
        return false;
      }
      streams[streamCount] := stream;
      streamCount := streamCount + 1;
      return true;
    }

    method RemoveStream(stream: Stream) returns (ok: bool)
      requires Valid()
      modifies this`streamCount, this`nextReadIndex, streams
      ensures Valid() && (ok <==> stream in old(List())) && List() == Without(old(List()), stream)
      ensures nextReadIndex == if old(nextReadIndex) < |List()| then old(nextReadIndex) else 0
    {
      ghost var list := List();
      for i := 0 to streamCount
        invariant forall j :: 0 <= j < i ==> streams[j] != stream
      {
        if streams[i] == stream {
          assert list[i] == stream && stream !in list[..i];
          WithoutAt(list, i);
          CloseGap(i);
          return true;
        }
      }
      assert stream !in list;
      WithoutAbsent(list, stream);
      ok := false;
    }

    method CloseGap(i: nat)
      requires Valid() && i < streamCount
      modifies this`streamCount, this`nextReadIndex, streams
      ensures Valid() && List() == old(List())[..i] + old(List())[i + 1..]
      ensures nextReadIndex == if old(nextReadIndex) < streamCount then old(nextReadIndex) else 0
    {
      for j := i + 1 to streamCount
        modifies streams
        invariant forall k :: 0 <= k < i ==> streams[k] == old(streams[k])
        invariant forall k :: i <= k < j - 1 ==> streams[k] == old(streams[k + 1])
        invariant forall k :: j - 1 <= k < streams.Length ==> streams[k] == old(streams[k])
      {
        streams[j - 1] := streams[j];
      }
      streams[streamCount - 1] := null;
      streamCount := streamCount - 1;
      if streamCount == 0 || nextReadIndex >= streamCount {
        nextReadIndex := 0;
      }
    }

    method ClearStreams()
      requires Valid()
      modifies this`streamCount, this`nextReadIndex, streams
      ensures Valid() && List() == [] && nextReadIndex == 0
    {
      forall i | 0 <= i < streams.Length {
        streams[i] := null;
      }
      streamCount, nextReadIndex := 0, 0;
    }

    // Every stream is offered `data`, and accepts some of it; the caller sees the largest count.
    method Write(data: Bytes) returns (best: nat, ghost counts: seq<nat>)
      requires Valid()
      modifies List()`written, List()`offers
      ensures Valid() && List() == old(List()) && CurrentView() == old(CurrentView())
      ensures |counts| == |List()|
      ensures forall s :: s in List() && data != [] ==> s.offers == old(s.offers) + [data]
      ensures forall i :: 0 <= i < |List()| ==>
                counts[i] <= |data| && List()[i].written == old(List()[i].written) + data[..counts[i]]
      ensures (forall i :: 0 <= i < |counts| ==> counts[i] <= best) && (best == 0 || best in counts)
    {
      ghost var list := List();
      if data == [] {
        best, counts := 0, seq(|list|, _ => 0);
      } else {
        best, counts := Offer(data);
      }
      assert Queues(list) == old(Queues(list));
    }

    method Offer(data: Bytes) returns (best: nat, ghost counts: seq<nat>)
      requires Valid()
      modifies List()`written, List()`offers
      ensures |counts| == |List()|
      ensures forall s :: s in List() ==> s.offers == old(s.offers) + [data]
      ensures forall i :: 0 <= i < |List()| ==>
                counts[i] <= |data| && List()[i].written == old(List()[i].written) + data[..counts[i]]
      ensures (forall i :: 0 <= i < |counts| ==> counts[i] <= best) && (best == 0 || best in counts)
    {
      best, counts := 0, [];
      ghost var list := List();
      for i := 0 to streamCount
        modifies list`written, list`offers
        invariant |counts| == i && (best == 0 || best in counts)
        invariant forall k :: 0 <= k < i ==>
                    counts[k] <= |data| && counts[k] <= best && list[k].written == old(list[k].written) + data[..counts[k]]
        invariant forall k :: 0 <= k < i ==> list[k].offers == old(list[k].offers) + [data]
        invariant forall k :: i <= k < |list| ==>
                    list[k].written == old(list[k].written) && list[k].offers == old(list[k].offers)
      {
        assert streams[i] == list[i];
        var written := streams[i].Write(data);
        counts := counts + [written];
        if written > best {
          best := written;
        }
      }
    }

    method Available() returns (total: nat)
      requires Valid()
      ensures total == Sum(Queues(List()))
    {
      total := 0;
      ghost var queues := Queues(List());
      for i := 0 to streamCount
        invariant total == Sum(queues[..i])
      {
        assert queues[..i + 1][..i] == queues[..i] && queues[i] == streams[i].pending;
        var count := streams[i].Available();
        if count > 0 {
          total := total + count;
        }
      }
      assert queues[..streamCount] == queues;
    }

    // The first stream with data, from the cursor round; -1 when there is none.
    method FirstReady() returns (found: int)
      requires Valid()
      ensures found >= 0 ==> found < streamCount && Pick(CurrentView()) == Some(found)
      ensures found < 0 ==> Pick(CurrentView()) == None
    {
      hide Distance, Wrap;
      if streamCount == 0 {
        return -1;
      }
      ghost var view := CurrentView();
      for offset := 0 to streamCount
        invariant Pick(view) == PickFrom(view, offset)
      {
        var index := Wrap(nextReadIndex + offset, streamCount);
        assert index == At(nextReadIndex, offset, streamCount);
        var count := streams[index].Available();
        assert view.queues[index] == streams[index].pending;
        if count > 0 {
          return index;
        }
      }
      found := -1;
    }

    // After taking `count` bytes from stream `index`.
    ghost predicate TookFrom(view: View, index: nat, count: nat)
      requires Valid() && index < |view.queues| && count <= |view.queues[index]|
      reads this, streams, List()
    {
      && |view.queues| == streamCount
      && List()[index].pending == view.queues[index][count..]
      && forall k :: 0 <= k < streamCount && k != index ==> List()[k].pending == view.queues[k]
    }

    lemma TookIsUpdate(view: View, index: nat, count: nat)
      requires Valid() && index < |view.queues| && count <= |view.queues[index]| && TookFrom(view, index, count)
      ensures Queues(List()) == view.queues[index := view.queues[index][count..]]
    {
    }

    // After the read: the cursor passes the stream that was served.
    method MoveCursor(ghost view: View, index: nat, ghost size: nat)
      requires Valid() && InRange(view) && view.cursor == nextReadIndex && Pick(view) == Some(index) && size > 0
      requires TookFrom(view, index, Min(size, |view.queues[index]|))
      modifies this`nextReadIndex
      ensures Valid() && List() == old(List()) && CurrentView() == Take(view, size)
    {
      hide Pick, PickFrom, Wrap, Take, After, List, Queues;
      TookIsUpdate(view, index, Min(size, |view.queues[index]|));
      TakeAt(view, size, index);
      nextReadIndex := Wrap(index + 1, streamCount);
    }

    method Read() returns (value: int)
      requires Valid()
      modifies this`nextReadIndex, List()
      ensures Valid() && List() == old(List())
      ensures value == PeekOf(old(CurrentView())) && CurrentView() == Take(old(CurrentView()), 1)
    {
      hide Pick, PickFrom, Take, List, Queues;
      NothingTaken(CurrentView());
      var index := FirstReady();
      if index < 0 {
        return -1;
      }
      ghost var view := CurrentView();
      value := streams[index].ReadByte();
      MoveCursor(view, index, 1);
    }

    method Peek() returns (value: int)
      requires Valid()
      ensures value == PeekOf(CurrentView())
    {
      hide Pick, PickFrom, Wrap;
      var index := FirstReady();
      if index < 0 {
        return -1;
      }
      assert streams[index] == List()[index];
      value := streams[index].PeekByte();
    }

    // As many bytes as fit from one stream: the same as that many single reads of that stream.
    method ReadBulk(buffer: array<byte>, size: nat, bulkStream: Stream?) returns (received: nat)
      requires Valid() && size <= buffer.Length
      modifies this`nextReadIndex, List(), buffer
      ensures Valid() && List() == old(List()) && received <= size
      ensures buffer[..received] == Taken(old(CurrentView()), size) && CurrentView() == Take(old(CurrentView()), size)
    {
      hide Pick, PickFrom, Take, Taken, After, List, Queues;
      received := 0;
      NothingTaken(CurrentView());
      if size == 0 || streamCount == 0 {
        return;
      }
      var index := FirstReady();
      if index < 0 {
        return;
      }
      ghost var view := CurrentView();
      TakeAt(view, size, index);
      var count := streams[index].Available();
      received := FromStream(streams[index], buffer, Min(count, size), bulkStream);
      MoveCursor(view, index, size);
    }

    static method FromStream(stream: Stream, buffer: array<byte>, request: nat, bulkStream: Stream?)
      returns (received: nat)
      requires 0 < request <= |stream.pending| && request <= buffer.Length
      modifies stream`pending, buffer
      ensures received == request
      ensures buffer[..request] == old(stream.pending)[..request] && stream.pending == old(stream.pending)[request..]
    {
      if stream == bulkStream {
        received := stream.ReadBulk(buffer, request);
        return;
      }
      received := 0;
      while received < request
        invariant received <= request && stream.pending == old(stream.pending)[received..]
        invariant buffer[..received] == old(stream.pending)[..received]
      {
        var count := stream.Available();
        if count <= 0 {
          break;
        }
        var value := stream.ReadByte();
        if value < 0 {
          break;
        }
        buffer[received] := value;
        received := received + 1;
      }
    }
  }

  function Sum(queues: seq<Bytes>): nat {
    if queues == [] then 0 else Sum(queues[..|queues| - 1]) + |queues[|queues| - 1]|
  }

  lemma TakeAt(v: View, size: nat, i: nat)
    requires InRange(v) && Pick(v) == Some(i) && size > 0
    ensures Taken(v, size) == v.queues[i][..Min(size, |v.queues[i]|)]
    ensures Take(v, size) == View(v.queues[i := v.queues[i][Min(size, |v.queues[i]|)..]], After(i, |v.queues|))
    ensures After(i, |v.queues|) == if i + 1 < |v.queues| then i + 1 else 0
  {
  }

  lemma NothingTaken(v: View)
    requires InRange(v)
    ensures Taken(v, 0) == [] && Take(v, 0) == v
    ensures Pick(v) == None ==> forall size :: Taken(v, size) == [] && Take(v, size) == v
    ensures v.queues == [] ==> Pick(v) == None
  {
  }

  lemma Modulo(a: nat, count: nat)
    requires count > 0 && a < 2 * count
    ensures a % count == if a < count then a else a - count
  {
    if a >= count {
      assert a / count == 1;
    }
  }

  function Wrap(a: nat, count: nat): (r: nat)
    requires count > 0 && a < 2 * count
    ensures r == if a < count then a else a - count
  {
    Modulo(a, count);
    a % count
  }
}
