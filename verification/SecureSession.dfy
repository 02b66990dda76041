/** One authenticated session end to end: both record logs, the device's receiver, the host's
    reader, and a channel that may deliver anything. */
module SecureSession {
  import opened ByteStrings
  import opened Aead
  import opened RecordLayer
  import opened NonceUse
  import opened HostSecureConn

  // ---- What a faithful channel delivers ------------------------------------------------------

  // Records `k..j` followed by anything decode to their plaintext, then to what the rest decodes to.
  lemma {:induction false} DecodeWireThen(log: Log, prefix: Bytes, k: nat, j: nat, tail: Bytes)
    requires WellNumbered(log, prefix) && k <= j <= |log|
    ensures var d := Decode(log, prefix, j, tail);
            Decode(log, prefix, k, Wire(log[k..j]) + tail) == d.(plain := Plain(log[k..j]) + d.plain)
    decreases j - k
  {
    hide WellNumbered, Decode, Plain, Wire;
    if k == j {
      NothingThen(log, prefix, k, tail);
    } else {
      DecodeOneThen(log, prefix, k, j, tail);
      DecodeWireThen(log, prefix, k + 1, j, tail);
      Regroup(log[k].plain, Plain(log[k + 1..j]), Decode(log, prefix, j, tail).plain);
    }
  }

  lemma NothingThen(log: Log, prefix: Bytes, k: nat, tail: Bytes)
    requires k <= |log|
    ensures var d := Decode(log, prefix, k, tail);
            Decode(log, prefix, k, Wire(log[k..k]) + tail) == d.(plain := Plain(log[k..k]) + d.plain)
  {
    hide Decode;
    assert log[k..k] == [] && [] + tail == tail;
    assert [] + Decode(log, prefix, k, tail).plain == Decode(log, prefix, k, tail).plain;
  }

  lemma DecodeOneThen(log: Log, prefix: Bytes, k: nat, j: nat, tail: Bytes)
    requires WellNumbered(log, prefix) && k < j <= |log|
    ensures Plain(log[k..j]) == log[k].plain + Plain(log[k + 1..j])
    ensures var d := Decode(log, prefix, k + 1, Wire(log[k + 1..j]) + tail);
            Decode(log, prefix, k, Wire(log[k..j]) + tail) == d.(plain := log[k].plain + d.plain)
  {
    hide WellNumbered, Plain, Wire, Header, OpenIn, Nonce, LengthOf, SequenceOf;
    var e := log[k];
    Numbered(log, prefix, k);
    assert log[..j][k..] == log[k..j] && log[..j][k + 1..] == log[k + 1..j];
    WireFrom(log[..j], k);
    var rest := Wire(log[k + 1..j]) + tail;
    var stream := Wire(log[k..j]) + tail;
    HeaderFields(|e.plain|, k, e.sealed + rest);
    assert stream == e.aad + (e.sealed + rest);
    var record := stream[..RecordSize(stream)];
    assert record[..HEADER_SIZE] == e.aad && record[HEADER_SIZE..] == e.sealed;
    assert stream[RecordSize(stream)..] == rest;
    OpensOwn(log, prefix, k);
  }

  lemma Numbered(log: Log, prefix: Bytes, k: nat)
    requires WellNumbered(log, prefix) && k < |log|
    ensures EntryOk(log[k], prefix, k) && k < UINT64_MAX
  {
  }

  lemma RoundTrip(log: Log, prefix: Bytes)
    requires WellNumbered(log, prefix)
    ensures Decode(log, prefix, 0, Wire(log)) == Decoded(Plain(log), |log|, [], false)
  {
    hide WellNumbered, Wire, Plain;
    assert log[0..|log|] == log;
    assert Wire(log) + [] == Wire(log) && Plain(log) + [] == Plain(log);
    DecodeWireThen(log, prefix, 0, |log|, []);
  }

  // A stream that ends inside record `k` yields the plaintext before it, keeps the cut record as
  // an incomplete one, and is no failure.
  lemma CutStreamDecodes(log: Log, prefix: Bytes, k: nat, cut: Bytes)
    requires WellNumbered(log, prefix) && k < |log| && CutShort(cut, log[k])
    ensures Decode(log, prefix, 0, Wire(log[..k]) + cut) == Decoded(Plain(log[..k]), k, cut, false)
  {
    assert log[0..k] == log[..k];
    DecodeWireThen(log, prefix, 0, k, cut);
    Numbered(log, prefix, k);
    var e := log[k];
    if |cut| >= HEADER_SIZE {
      HeaderFields(|e.plain|, k, e.sealed);
      HeaderOfPrefix(cut, e.aad + e.sealed);
    }
    assert Plain(log[..k]) + [] == Plain(log[..k]);
  }

  // ---- How the stream is cut does not matter -------------------------------------------------

  // One call of the receiver per segment.
  function FeedSegments(log: Log, prefix: Bytes, st: RxState, segments: seq<Bytes>): RxState {
    if segments == [] then st
    else FeedAll(log, prefix, FeedSegments(log, prefix, st, segments[..|segments| - 1]), segments[|segments| - 1])
  }

  lemma {:induction false} SegmentsAreFeedAll(log: Log, prefix: Bytes, st: RxState, segments: seq<Bytes>)
    ensures FeedSegments(log, prefix, st, segments) == FeedAll(log, prefix, st, Concat(segments))
  {
    if segments != [] {
      var before := segments[..|segments| - 1];
      SegmentsAreFeedAll(log, prefix, st, before);
      FeedAllConcat(log, prefix, st, Concat(before), segments[|segments| - 1]);
    }
  }

  lemma SegmentationIndependent(log: Log, prefix: Bytes, segments: seq<Bytes>)
    ensures FeedSegments(log, prefix, Receiving([], 0, []), segments)
            == AsState(Decode(log, prefix, 0, Concat(segments)), [])
  {
    SegmentsAreFeedAll(log, prefix, Receiving([], 0, []), segments);
    FeedIsDecode(log, prefix, 0, [], Concat(segments));
  }

  // The host writes, possibly failing inside the last record; the channel is faithful but cuts
  // the stream anywhere; the device ends with exactly the accepted bytes.
  lemma DeviceGetsWhatHostAccepted(log: Log, prefix: Bytes, k: nat, cut: Bytes, segments: seq<Bytes>)
    requires WellNumbered(log, prefix) && k <= |log|
    requires if k < |log| then CutShort(cut, log[k]) else cut == []
    requires Concat(segments) == Wire(log[..k]) + cut
    ensures FeedSegments(log, prefix, Receiving([], 0, []), segments) == Receiving(cut, k, Plain(log[..k]))
  {
    SegmentationIndependent(log, prefix, segments);
    assert [] + Plain(log[..k]) == Plain(log[..k]);
    if k < |log| {
      CutStreamDecodes(log, prefix, k, cut);
    } else {
      assert log[..k] == log && Wire(log) + [] == Wire(log);
      RoundTrip(log, prefix);
    }
  }

  // ... and in the other direction, whatever buffer size the host reads with.
  lemma HostGetsWhatDeviceSealed(log: Log, prefix: Bytes, cap: nat)
    requires WellNumbered(log, prefix) && cap > 0
    ensures ReadUntilError(log, prefix, HostRx(0, []), Wire(log), cap) == Plain(log)
  {
    ReadsYieldDecode(log, prefix, HostRx(0, []), Wire(log), cap);
    RoundTrip(log, prefix);
    assert [] + Plain(log) == Plain(log);
  }

  // ---- Every run, whatever the channel delivers ------------------------------------------------

  datatype Session = Session(
    hostPrefix: Bytes,      // nonces host to device
    devicePrefix: Bytes,    // nonces device to host
    toDevice: Log,          // sealed by the host
    toHost: Log,            // sealed by the device
    hostBroken: bool,       // a host write has failed, so the connection is discarded for writing
    device: RxState,
    host: HostRx,
    hostOut: Bytes)

  datatype Event =
    | HostSeals(plain: Bytes, sealed: Bytes, written: bool)
    | DeviceSeals(plain: Bytes, sealed: Bytes)
    | DeviceReceives(bytes: Bytes)
    | HostReads(stream: Bytes, cap: nat)

  predicate CanSeal(log: Log, plain: Bytes, sealed: Bytes) {
    1 <= |plain| <= MAX_RECORD && |sealed| == |plain| + TAG_SIZE && |log| < UINT64_MAX
  }

  function Seal(log: Log, prefix: Bytes, plain: Bytes, sealed: Bytes): Log {
    log + [SealEntry(Nonce(prefix, |log|), Header(|plain|, |log|), plain, sealed)]
  }

  function Step(s: Session, e: Event): Session {
    match e
    case HostSeals(plain, sealed, written) =>
      if s.hostBroken || !CanSeal(s.toDevice, plain, sealed) then s
      else s.(toDevice := Seal(s.toDevice, s.hostPrefix, plain, sealed), hostBroken := !written)
    case DeviceSeals(plain, sealed) =>
      if CanSeal(s.toHost, plain, sealed) then s.(toHost := Seal(s.toHost, s.devicePrefix, plain, sealed)) else s
    case DeviceReceives(bytes) =>
      s.(device := FeedAll(s.toDevice, s.hostPrefix, s.device, bytes))
    case HostReads(stream, cap) =>
      var r := HostRead(s.toHost, s.devicePrefix, s.host, stream, cap);
      s.(host := r.st, hostOut := s.hostOut + r.data)
  }

  function Run(s: Session, events: seq<Event>): Session {
    if events == [] then s else Step(Run(s, events[..|events| - 1]), events[|events| - 1])
  }

  function Fresh(hostPrefix: Bytes, devicePrefix: Bytes): Session {
    Session(hostPrefix, devicePrefix, [], [], false, Receiving([], 0, []), HostRx(0, []), [])
  }

  ghost predicate Invariant(s: Session) {
    && WellNumbered(s.toDevice, s.hostPrefix) && WellNumbered(s.toHost, s.devicePrefix)
    && Synchronised(s.toDevice, s.device)
    && s.host.next <= |s.toHost| && s.hostOut + s.host.buffered == Plain(s.toHost[..s.host.next])
  }

  lemma SealKeeps(log: Log, prefix: Bytes, plain: Bytes, sealed: Bytes, st: RxState)
    requires WellNumbered(log, prefix) && CanSeal(log, plain, sealed)
    ensures WellNumbered(Seal(log, prefix, plain, sealed), prefix)
    ensures Synchronised(log, st) ==> Synchronised(Seal(log, prefix, plain, sealed), st)
    ensures forall k :: 0 <= k <= |log| ==> Seal(log, prefix, plain, sealed)[..k] == log[..k]
  {
    var after := Seal(log, prefix, plain, sealed);
    WellNumberedAppend(log, prefix, after[|log|]);
    forall k | 0 <= k <= |log| ensures after[..k] == log[..k] {
    }
    if Synchronised(log, st) && st.Failed? {
      var k :| 0 <= k <= |log| && st.out == Plain(log[..k]);
      assert st.out == Plain(after[..k]);
    }
  }

  lemma StepKeepsInvariant(s: Session, e: Event)
    requires Invariant(s)
    ensures Invariant(Step(s, e))
  {
    hide WellNumbered, Synchronised, Plain, HostRead, Header, Nonce;
    match e
    case HostSeals(plain, sealed, written) =>
      if !s.hostBroken && CanSeal(s.toDevice, plain, sealed) {
        SealKeeps(s.toDevice, s.hostPrefix, plain, sealed, s.device);
      }
    case DeviceSeals(plain, sealed) =>
      if CanSeal(s.toHost, plain, sealed) {
        SealKeeps(s.toHost, s.devicePrefix, plain, sealed, s.device);
      }
    case DeviceReceives(bytes) =>
      FeedAllSynchronised(s.toDevice, s.hostPrefix, s.device, bytes);
    case HostReads(stream, cap) =>
      HostReadSynchronised(s.toHost, s.devicePrefix, s.host, s.hostOut, stream, cap);
  }

  lemma {:induction false} RunKeepsInvariant(s: Session, events: seq<Event>)
    requires Invariant(s)
    ensures Invariant(Run(s, events))
  {
    if events != [] {
      RunKeepsInvariant(s, events[..|events| - 1]);
      StepKeepsInvariant(Run(s, events[..|events| - 1]), events[|events| - 1]);
    }
  }

  // In every run, each reader has been handed a prefix of what the other side sealed, and no
  // nonce has been used twice under either key.
  lemma DeliveredIsPrefix(hostPrefix: Bytes, devicePrefix: Bytes, events: seq<Event>)
    ensures var s := Run(Fresh(hostPrefix, devicePrefix), events);
            && s.device.out <= Plain(s.toDevice)
            && s.hostOut <= Plain(s.toHost)
            && Distinct(Nonces(s.toDevice)) && Distinct(Nonces(s.toHost))
  {
    var s0 := Fresh(hostPrefix, devicePrefix);
    assert s0.hostOut + s0.host.buffered == [] == Plain(s0.toHost[..0]);
    assert s0.toDevice[..0] == [];
    assert Invariant(s0);
    RunKeepsInvariant(s0, events);
    var s := Run(s0, events);
    RunKeepsPrefixes(s0, events);
    assert Invariant(s);
    match s.device {
      case Receiving(_, next, _) => PlainPrefix(s.toDevice, next);
      case Failed(out) =>
        var k :| 0 <= k <= |s.toDevice| && out == Plain(s.toDevice[..k]);
        PlainPrefix(s.toDevice, k);
    }
    PlainPrefix(s.toHost, s.host.next);
    LogNoncesDistinct(s.toDevice, s.hostPrefix);
    LogNoncesDistinct(s.toHost, s.devicePrefix);
  }

  lemma {:induction false} RunKeepsPrefixes(s: Session, events: seq<Event>)
    ensures Run(s, events).hostPrefix == s.hostPrefix && Run(s, events).devicePrefix == s.devicePrefix
  {
    if events != [] {
      RunKeepsPrefixes(s, events[..|events| - 1]);
    }
  }

  lemma LogNoncesDistinct(log: Log, prefix: Bytes)
    requires WellNumbered(log, prefix)
    ensures Distinct(Nonces(log))
  {
    NoncesDistinct(log, prefix);
    var nonces := Nonces(log);
    forall i, j | 0 <= i < j < |nonces| ensures nonces[i] != nonces[j] {
      NonceAt(log, i);
      NonceAt(log, j);
    }
  }

  // ---- A record that is sealed and delivered is read -----------------------------------------------

  lemma TwoMore(s: Session, events: seq<Event>, a: Event, b: Event)
    ensures Run(s, events + [a, b]) == Step(Step(Run(s, events), a), b)
  {
    assert (events + [a, b])[..|events| + 1] == events + [a] && (events + [a])[..|events|] == events;
  }

  // The wire of the one record sealed last.
  lemma LastRecord(log: Log, prefix: Bytes, plain: Bytes, sealed: Bytes)
    requires WellNumbered(log, prefix) && CanSeal(log, plain, sealed)
    ensures var after, n := Seal(log, prefix, plain, sealed), |log|;
            && WellNumbered(after, prefix) && Wire(after[n..]) == Header(|plain|, n) + sealed && Plain(after[n..]) == plain
            && Decode(after, prefix, n, Header(|plain|, n) + sealed) == Decoded(plain, n + 1, [], false)
  {
    hide WellNumbered, Decode, Header, Nonce;
    var after, n := Seal(log, prefix, plain, sealed), |log|;
    SealKeeps(log, prefix, plain, sealed, Failed([]));
    var one := after[n..];
    assert one == [after[n]] && one[..0] == [];
    assert Wire(one) == Wire([]) + one[0].aad + one[0].sealed && Plain(one) == Plain([]) + one[0].plain;
    assert after[n..n + 1] == one && Wire(one) + [] == Wire(one) && plain + [] == plain;
    DecodeWireThen(after, prefix, n, n + 1, []);
    NothingToDecode(after, prefix, n + 1);
  }

  lemma NothingToDecode(log: Log, prefix: Bytes, next: nat)
    ensures Decode(log, prefix, next, []) == Decoded([], next, [], false)
  {
  }

  // In any run: when the device has read everything so far, what the host seals next and the channel
  // delivers is what the device reads next.
  lemma HostRecordArrives(hostPrefix: Bytes, devicePrefix: Bytes, events: seq<Event>, plain: Bytes, sealed: Bytes)
    requires var s := Run(Fresh(hostPrefix, devicePrefix), events);
             && !s.hostBroken && CanSeal(s.toDevice, plain, sealed)
             && s.device.Receiving? && s.device.partial == [] && s.device.next == |s.toDevice|
    ensures var s := Run(Fresh(hostPrefix, devicePrefix), events);
            var arrives := DeviceReceives(Header(|plain|, |s.toDevice|) + sealed);
            Run(Fresh(hostPrefix, devicePrefix), events + [HostSeals(plain, sealed, true), arrives]).device
            == Receiving([], |s.toDevice| + 1, s.device.out + plain)
  {
    hide WellNumbered, Decode, Header, Nonce;
    var s0 := Fresh(hostPrefix, devicePrefix);
    var s, n := Run(s0, events), |Run(s0, events).toDevice|;
    FreshInvariant(hostPrefix, devicePrefix);
    RunKeepsInvariant(s0, events);
    RunKeepsPrefixes(s0, events);
    LastRecord(s.toDevice, hostPrefix, plain, sealed);
    TwoMore(s0, events, HostSeals(plain, sealed, true), DeviceReceives(Header(|plain|, n) + sealed));
    FeedIsDecode(Seal(s.toDevice, hostPrefix, plain, sealed), hostPrefix, n, s.device.out, Header(|plain|, n) + sealed);
  }

  // And so it is in the other direction.
  lemma DeviceRecordArrives(hostPrefix: Bytes, devicePrefix: Bytes, events: seq<Event>, plain: Bytes, sealed: Bytes,
                            cap: nat)
    requires var s := Run(Fresh(hostPrefix, devicePrefix), events);
             CanSeal(s.toHost, plain, sealed) && s.host == HostRx(|s.toHost|, []) && cap >= |plain|
    ensures var s := Run(Fresh(hostPrefix, devicePrefix), events);
            var taken := HostReads(Header(|plain|, |s.toHost|) + sealed, cap);
            Run(Fresh(hostPrefix, devicePrefix), events + [DeviceSeals(plain, sealed), taken]).hostOut == s.hostOut + plain
  {
    hide WellNumbered, Nonce;
    var s0 := Fresh(hostPrefix, devicePrefix);
    var s, n := Run(s0, events), |Run(s0, events).toHost|;
    FreshInvariant(hostPrefix, devicePrefix);
    RunKeepsInvariant(s0, events);
    RunKeepsPrefixes(s0, events);
    LastRecord(s.toHost, devicePrefix, plain, sealed);
    TwoMore(s0, events, DeviceSeals(plain, sealed), HostReads(Header(|plain|, n) + sealed, cap));
    WholeRecordRead(Seal(s.toHost, devicePrefix, plain, sealed), devicePrefix, cap);
  }

  lemma WholeRecordRead(log: Log, prefix: Bytes, cap: nat)
    requires WellNumbered(log, prefix) && log != [] && cap >= |log[|log| - 1].plain|
    ensures var n, e := |log| - 1, log[|log| - 1];
            HostRead(log, prefix, HostRx(n, []), e.aad + e.sealed, cap).data == e.plain
  {
    var n, e := |log| - 1, log[|log| - 1];
    assert EntryOk(e, prefix, n);
    hide WellNumbered, EntryOk, Nonce;
    OpensOwn(log, prefix, n);
    HeaderFields(|e.plain|, n, e.sealed);
    HeaderFields(|e.plain|, n, []);
    assert e.aad + [] == e.aad;
    var stream := e.aad + e.sealed;
    assert stream[..HEADER_SIZE] == e.aad && stream[HEADER_SIZE..] == e.sealed && e.sealed[..|e.sealed|] == e.sealed;
    assert e.plain[..|e.plain|] == e.plain;
  }

  lemma FreshInvariant(hostPrefix: Bytes, devicePrefix: Bytes)
    ensures Invariant(Fresh(hostPrefix, devicePrefix))
  {
    var s0 := Fresh(hostPrefix, devicePrefix);
    assert s0.hostOut + s0.host.buffered == [] == Plain(s0.toHost[..0]) && s0.toDevice[..0] == [];
  }
}
