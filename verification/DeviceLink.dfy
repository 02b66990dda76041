/** The device endpoint and the host's connection object in one encrypted session, over a channel that
    may deliver anything to either: what each application reads is what the other one wrote. */
module DeviceLink {
  import opened ByteStrings
  import opened Aead
  import opened RecordLayer
  import opened Sockets
  import opened NonceUse
  import opened HostSecureConn
  import opened RecordReceiver
  import opened SecureLink
  import opened DeviceHandshake
  import opened DeviceView
  import opened DeviceTcp
  import opened DeviceRuns

  // `host` has opened records sealed as `log` only, in order, from the first.
  ghost predicate HostInStep(host: SecureConn, log: Log)
    reads host
  {
    && WellNumbered(log, host.rxNoncePrefix)
    && host.rxSequence <= |log| && host.delivered + host.rxPlain == Plain(log[..host.rxSequence])
  }

  // The endpoint, seen as `v`, and `host` have each other's keys; each has opened records of the other
  // only, in order, from the first.
  ghost predicate InStep(v: View, host: SecureConn)
    reads host, host.txAead
  {
    && v.Secure() && Sound(v) && v.txAead == host.rxAead && v.TxPrefix() == host.rxNoncePrefix
    && v.rxAead == host.txAead && v.log == host.txAead.log && v.Prefix() == host.txNoncePrefix
    && Synchronised(v.log, v.state) && HostInStep(host, v.txLog)
  }

  // No call of the sketch and nothing that arrives breaks this while the session lasts; and when it is
  // over, what was accepted from the sketch is what the records have carried.
  lemma DataKeepsStep(a: View, b: View, host: SecureConn, handed: Bytes, written: Bytes)
    requires InStep(a, host) && DataStep(a, b, handed, written) && WellNumbered(a.log, a.Prefix())
    ensures b.Ready() ==> InStep(b, host) && b.delivered == a.delivered + handed && b.accepted == a.accepted + written
    ensures a.txLog <= b.txLog && HostInStep(host, b.txLog) && Plain(b.txLog) == a.accepted + written
  {
    hide Wire, Plain, WellNumbered, Synchronised, FeedAll;
    assert b.txLog[..host.rxSequence] == a.txLog[..host.rxSequence];
    if b.Ready() {
      FeedAllSynchronised(a.log, a.Prefix(), a.state, b.taken[|a.taken|..]);
      assert b.accepted + [] == b.accepted;
    }
  }

  // With what the sketch has read and written in the session.
  ghost predicate Going(v: View, host: SecureConn, read: Bytes, wrote: Bytes)
    reads host, host.txAead
  {
    InStep(v, host) && read == v.delivered && wrote == v.accepted
  }

  lemma CallKeepsStep(a: View, met: View, b: View, host: SecureConn, read: Bytes, wrote: Bytes, handed: Bytes,
                      written: Bytes)
    requires Going(a, host, read, wrote) && WellNumbered(host.txAead.log, host.txNoncePrefix)
    requires met.client == a.client && CallStep(a, met, handed) && DataStep(met, b, [], written)
    ensures b.Ready() ==> Going(b, host, read + handed, wrote + written)
    ensures b.txAead == a.txAead && HostInStep(host, b.txLog) && Plain(b.txLog) == wrote + written
  {
    hide Wire, Plain, WellNumbered, Synchronised, FeedAll, HostInStep;
    NoMore(handed);
    NoMore(written);
    DataThen(a, met, b, handed, [], [], written);
    DataKeepsStep(a, b, host, handed, written);
  }

  datatype Move =
    | OnDevice(call: Call)       // the sketch, or bytes arriving
    | HostWrites(p: Bytes)
    | HostReads(cap: nat)
    | ToHost(bytes: Bytes)       // bytes arriving

  // One session between the device of `run` and `host`, from its beginning.  `read` and `wrote` are what
  // the sketch has read and written in it; the device may go on to other sessions.
  class Session {
    const run: History
    const host: SecureConn
    var writable: bool      // no write on `host` has failed: after that it is written to no more
    ghost var read: Bytes
    ghost var wrote: Bytes
    ghost var made: seq<Move>

    twostate predicate Grows()
      reads this, host
    {
      && old(read) <= read && old(wrote) <= wrote
      && old(host.accepted) <= host.accepted && old(host.delivered) <= host.delivered
    }

    ghost predicate Current()
      reads run.device, run.device.tx
    {
      run.device.protocolReady && run.device.tx.secureMode && run.device.tx.txAead == host.rxAead
    }

    ghost predicate Valid()
      reads this, run.device, run.device.rx, run.device.rx.rxRecordHeader, run.device.rx.rxCipher, run.device.rx.rxTag,
            run.device.rx.rxPlain, run.device.rx.rxAead, run.device.tx, run.device.tx.txPending, run.device.tx.txAead,
            run.device.handshakeBuffer, run.device.client, host, host.conn`wire, host.txAead, host.rxAead
    {
      && run.device.Valid() && host.Valid() && host.Status() != Reused
      && (writable ==> host.Status() == Clean)
      && run.device.tx.txAead != host.txAead
      && read <= Plain(host.txAead.log)
      && Plain(host.rxAead.log) == wrote && HostInStep(host, host.rxAead.log)
      && (Current() ==> Going(run.device.Seen(), host, read, wrote))
    }

    // The host's connection object gets the keys the device derived when it became ready.
    constructor (run: History, conn: Conn)
      requires run.device.Valid() && run.device.protocolReady && run.device.tx.secureMode
      requires Begun(run.device.Seen(), run.device.rx.delivered)
      ensures Valid() && Current() && this.run == run && host.conn == conn && writable
      ensures read == run.device.rx.delivered && wrote == host.accepted == host.delivered == []
    {
      hide Wire, Plain, ESPNetworkSerialTCP.Valid, FeedAll, Synchronised, Fed, Begun;
      var device := run.device;
      device.Sees();
      DistinctObjects(device);
      AtTheStart(device.Seen(), device.rx.delivered);
      this.run := run;
      host := new SecureConn(conn, device.rx.rxAead, device.tx.txAead, device.rx.rxNoncePrefix, device.tx.txNoncePrefix);
      writable, read, wrote, made := true, device.rx.delivered, [], [];
    }

    // ---- What each application has ------------------------------------------------------------------

    // The sketch has read what the host accepted, as far as it goes, or that and the record that was
    // cut short; the host has read what the sketch wrote, as far as it goes.
    lemma ReadsArePrefixes()
      requires Valid()
      ensures host.Status() == Clean ==> read <= host.accepted
      ensures host.Status() == WriteFailed ==>
                && host.txAead.log != []
                && read <= Plain(host.txAead.log) == host.accepted + host.txAead.log[|host.txAead.log| - 1].plain
      ensures host.delivered <= wrote
      ensures Current() ==> read == run.device.rx.delivered && wrote == run.device.tx.accepted
    {
      hide WellNumbered, ESPNetworkSerialTCP.Valid;
      PlainPrefix(host.rxAead.log, host.rxSequence);
    }

    // ---- Moves --------------------------------------------------------------------------------------

    // The host writes as long as no write of its has failed.
    method HostWritesStep(p: Bytes) returns (total: nat, ok: bool)
      requires Valid() && writable
      modifies this`writable, host`txSequence, host`accepted, host`outcomes, host.conn`wire, host.conn`faults, host.txAead
      ensures Valid() && total <= |p| && host.accepted == old(host.accepted) + p[..total]
      ensures writable == ok && (ok ==> total == |p|)
    {
      hide Wire, Plain, WellNumbered, ESPNetworkSerialTCP.Valid, Synchronised, StatusOf, SecureConn.Valid;
      run.device.Sees();
      ghost var log, a := host.txAead.log, run.device.Seen();
      DistinctKeys(host);
      total, ok := host.Write(p);
      writable := ok;
      MorePlain(log, host.txAead.log);
      if Current() {
        run.device.Sees();
        LongerLog(log, host.txAead.log, a.state);
      }
    }

    method HostReadsStep(cap: nat) returns (data: Bytes, ok: bool)
      requires Valid()
      modifies host`rxSequence, host`rxPlain, host`delivered, host.conn`inbound
      ensures Valid() && host.delivered == old(host.delivered) + data
    {
      hide Wire, Plain, WellNumbered, ESPNetworkSerialTCP.Valid, Synchronised, StatusOf, SecureConn.Valid, HostRead;
      ghost var delivered, before, stream := host.delivered, host.Rx(), host.conn.inbound;
      data, ok := host.Read(cap);
      HostReadSynchronised(host.rxAead.log, host.rxNoncePrefix, before, delivered, stream, cap);
      if Current() {
        run.device.Sees();
        HostReadSynchronised(run.device.tx.txAead.log, host.rxNoncePrefix, before, delivered, stream, cap);
      }
    }

    // The sketch calls, or bytes arrive at the device.
    method ServingMove(call: Call, size: nat) returns (ghost handed: Bytes)
      requires Valid() && (call.ReadBulk? ==> call.size == size)
      requires call.Serving()
      modifies this`read, run.device, run.device.rx, run.device.rx.rxRecordHeader, run.device.rx.rxCipher,
               run.device.rx.rxTag, run.device.rx.rxPlain, run.device.tx, run.device.handshakeBuffer, run.device.client,
               run.device.server
      ensures Valid() && run.NewClientAndKey()
      ensures read == old(read) + if old(Current()) && Current() then handed else []
    {
      hide Wire, Plain, WellNumbered, ESPNetworkSerialTCP.Valid, ESPNetworkSerialTCP.Seen, Synchronised, StatusOf,
           SecureConn.Valid, HostInStep, Going;
      DistinctObjects(run.device);
      Numbered(host);
      var buffer := new byte[size];
      handed := Serving(call, buffer);
      if old(Current()) && Current() {
        ReadSoFar(run.device, host, read + handed, wrote);
        read := read + handed;
      } else {
        NoMore(read);
      }
    }

    method Serving(call: Call, buffer: array<byte>) returns (ghost handed: Bytes)
      requires run.device.Valid() && run.device.Foreign(buffer) && (call.ReadBulk? ==> call.size <= buffer.Length)
      requires call.Serving()
      requires run.device.tx.txAead != host.txAead && WellNumbered(host.txAead.log, host.txNoncePrefix)
      requires Current() ==> Going(run.device.Seen(), host, read, wrote)
      modifies run.device, run.device.rx, run.device.rx.rxRecordHeader, run.device.rx.rxCipher, run.device.rx.rxTag,
               run.device.rx.rxPlain, run.device.tx, run.device.handshakeBuffer, run.device.client,
               run.device.server, buffer
      ensures run.device.Valid() && run.device.tx.txAead != host.txAead && run.NewClientAndKey()
      ensures Current() ==> old(Current()) && Going(run.device.Seen(), host, read + handed, wrote)
    {
      hide Wire, Plain, WellNumbered, ESPNetworkSerialTCP.Valid, ESPNetworkSerialTCP.Seen, DataStep, CallStep,
           ESPNetworkSerialTCP.Settled, HostInStep, Going;
      var device := run.device;
      ghost var a := device.Seen();
      device.Sees();
      handed := run.ServingCall(call, buffer, {}, {host.rxAead, host.txAead});
      device.Sees();
      if Current() {
        IdleStep(device.Seen(), device.Seen());
        CallKeepsStep(a, device.Seen(), device.Seen(), host, read, wrote, handed, []);
        NoMore(wrote);
      }
    }

    method QuietMove(call: Call)
      requires Valid() && call.Quiet()
      modifies run.device, run.device.rx, run.device.tx, run.device.client
      ensures Valid() && run.NewClientAndKey()
    {
      hide Wire, Plain, WellNumbered, ESPNetworkSerialTCP.Valid, ESPNetworkSerialTCP.Seen, Synchronised, StatusOf,
           SecureConn.Valid;
      var device := run.device;
      device.Sees();
      run.QuietCall(call);
      device.Sees();
    }

    method ArrivalMove(bytes: Bytes)
      requires Valid()
      modifies run.device.client`inbound, run.device.client`arrived
      ensures Valid()
    {
      hide Wire, Plain, WellNumbered, ESPNetworkSerialTCP.Valid, ESPNetworkSerialTCP.Seen, Synchronised, StatusOf,
           SecureConn.Valid;
      var device := run.device;
      device.Sees();
      device.Receive(bytes);
      device.Sees();
    }

    method WritingMove(data: Bytes, now: nat) returns (ghost written: Bytes)
      requires Valid()
      modifies this`wrote, run.device, run.device.rx, run.device.rx.rxRecordHeader, run.device.rx.rxCipher,
               run.device.rx.rxTag, run.device.rx.rxPlain, run.device.tx, run.device.tx.txPending, run.device.tx.txAead,
               run.device.handshakeBuffer, run.device.client,
               run.device.server
      ensures Valid() && run.NewClientAndKey() && written <= data
      ensures wrote == old(wrote) + if old(Current()) && run.device.client == old(run.device.client) then written else []
    {
      hide Wire, Plain, WellNumbered, ESPNetworkSerialTCP.Valid, ESPNetworkSerialTCP.Seen, Synchronised, StatusOf,
           SecureConn.Valid, HostInStep, Going;
      DistinctObjects(run.device);
      Numbered(host);
      ghost var into;
      written, into := Writing(data, now);
      if into {
        wrote := wrote + written;
      } else {
        NoMore(wrote);
      }
    }

    // `into`: what was accepted went into this session.
    method Writing(data: Bytes, now: nat) returns (ghost written: Bytes, ghost into: bool)
      requires run.device.Valid() && run.device.tx.txAead != host.txAead
      requires WellNumbered(host.txAead.log, host.txNoncePrefix)
      requires Current() ==> Going(run.device.Seen(), host, read, wrote)
      modifies run.device, run.device.rx, run.device.rx.rxRecordHeader, run.device.rx.rxCipher, run.device.rx.rxTag,
               run.device.rx.rxPlain, run.device.tx, run.device.tx.txPending, run.device.tx.txAead,
               run.device.handshakeBuffer, run.device.client,
               run.device.server
      ensures run.device.Valid() && run.device.tx.txAead != host.txAead && run.NewClientAndKey()
      ensures written <= data && (into <==> old(Current()) && run.device.client == old(run.device.client))
      ensures into ==> HostInStep(host, host.rxAead.log) && Plain(host.rxAead.log) == wrote + written
      ensures !into ==> host.rxAead.log == old(host.rxAead.log)
      ensures Current() ==> into && Going(run.device.Seen(), host, read, wrote + written)
    {
      hide Wire, Plain, WellNumbered, ESPNetworkSerialTCP.Valid, ESPNetworkSerialTCP.Seen, DataStep, CallStep, LastWire,
           HostInStep, Going, Known, OnWire;
      var device := run.device;
      ghost var a := device.Seen();
      device.Sees();
      ghost var met;
      met, written := run.WritingCall(data, now, {}, {host.rxAead, host.txAead});
      device.Sees();
      into := old(Current()) && device.client == a.client;
      if into {
        CallKeepsStep(a, met, device.Seen(), host, read, wrote, [], written);
        NoMore(read);
      }
    }

    // ---- Any run ------------------------------------------------------------------------------------

    method Step(move: Move)
      requires Valid()
      modifies this, run.device, run.device.rx, run.device.rx.rxRecordHeader, run.device.rx.rxCipher,
               run.device.rx.rxTag, run.device.rx.rxPlain, run.device.tx, run.device.tx.txPending, run.device.tx.txAead,
               run.device.handshakeBuffer, run.device.client,
               run.device.server, host, host.conn, host.txAead
      ensures Valid() && run.NewClientAndKey() && Grows() && made == old(made) + [move]
    {
      hide Valid;
      match move {
        case HostWrites(p) =>
          if writable {
            var total, ok := HostWritesStep(p);
          }
        case HostReads(cap) => var data, ok := HostReadsStep(cap);
        case ToHost(bytes) => HostArrivalMove(bytes);
        case OnDevice(call) => DeviceMove(call);
      }
      Note(move);
    }

    ghost method Note(move: Move)
      requires Valid()
      modifies this`made
      ensures Valid() && made == old(made) + [move]
    {
      hide Going, HostInStep, ESPNetworkSerialTCP.Valid, ESPNetworkSerialTCP.Seen, SecureConn.Valid;
      made := made + [move];
    }

    method HostArrivalMove(bytes: Bytes)
      requires Valid()
      modifies host.conn`inbound
      ensures Valid()
    {
      hide Wire, Plain, WellNumbered, ESPNetworkSerialTCP.Valid, ESPNetworkSerialTCP.Seen, Synchronised, StatusOf;
      host.conn.inbound := host.conn.inbound + bytes;
    }

    method DeviceMove(call: Call)
      requires Valid()
      modifies this`read, this`wrote, run.device, run.device.rx, run.device.rx.rxRecordHeader, run.device.rx.rxCipher,
               run.device.rx.rxTag, run.device.rx.rxPlain, run.device.tx, run.device.tx.txPending, run.device.tx.txAead,
               run.device.handshakeBuffer, run.device.client,
               run.device.server
      ensures Valid() && run.NewClientAndKey() && Grows()
    {
      hide Valid;
      match call {
        case Arrives(bytes) => ArrivalMove(bytes);
        case Write(data, now) => ghost var _ := WritingMove(data, now);
        case SetAuthKey(_) => QuietMove(call);
        case ClearAuthKey => QuietMove(call);
        case Begin => QuietMove(call);
        case End => QuietMove(call);
        case DisconnectClient => QuietMove(call);
        case ClearTxDropCounters => QuietMove(call);
        case ReadBulk(size, _) => ghost var _ := ServingMove(call, size);
        case Handle(_) => ghost var _ := ServingMove(call, 0);
        case Flush(_) => ghost var _ := ServingMove(call, 0);
        case Connected(_) => ghost var _ := ServingMove(call, 0);
        case Available(_) => ghost var _ := ServingMove(call, 0);
        case Peek(_) => ghost var _ := ServingMove(call, 0);
        case Read(_) => ghost var _ := ServingMove(call, 0);
      }
    }

    // Whatever either application does and whatever arrives at either end.
    method AnyRun(moves: seq<Move>)
      requires Valid()
      modifies this, run.device, run.device.rx, run.device.rx.rxRecordHeader, run.device.rx.rxCipher,
               run.device.rx.rxTag, run.device.rx.rxPlain, run.device.tx, run.device.tx.txPending, run.device.tx.txAead,
               run.device.handshakeBuffer, run.device.client,
               run.device.server, host, host.conn, host.txAead
      ensures Valid() && Grows() && made == old(made) + moves
      ensures writable ==> read <= host.accepted
      ensures host.delivered <= wrote
    {
      Steps(moves);
      ReadsArePrefixes();
    }

    method Steps(moves: seq<Move>)
      requires Valid()
      modifies this, run.device, run.device.rx, run.device.rx.rxRecordHeader, run.device.rx.rxCipher,
               run.device.rx.rxTag, run.device.rx.rxPlain, run.device.tx, run.device.tx.txPending, run.device.tx.txAead,
               run.device.handshakeBuffer, run.device.client,
               run.device.server, host, host.conn, host.txAead
      ensures Valid() && Grows() && made == old(made) + moves
    {
      hide Valid;
      for k := 0 to |moves|
        invariant Valid() && run.NewClientAndKey() && Grows() && made == old(made) + moves[..k]
      {
        Step(moves[k]);
      }
    }
  }

  lemma ReadSoFar(device: ESPNetworkSerialTCP, host: SecureConn, read: Bytes, wrote: Bytes)
    requires device.Valid() && Going(device.Seen(), host, read, wrote)
    ensures read <= Plain(host.txAead.log)
  {
    hide WellNumbered, ESPNetworkSerialTCP.Valid;
    device.Sees();
    PlainPrefix(host.txAead.log, device.Seen().state.next);
  }

  lemma DistinctObjects(device: ESPNetworkSerialTCP)
    requires device.Valid()
    ensures device.rx.rxAead != device.tx.txAead
    ensures device.protocolReady && device.tx.secureMode ==>
              && device.Seen().rxAead == device.rx.rxAead && device.Seen().log == device.rx.rxAead.log
              && device.Seen().Prefix() == device.rx.rxNoncePrefix && device.Seen().TxPrefix() == device.tx.txNoncePrefix
  {
  }

  // A session that has just become ready has decoded what has come in, and the host has sealed nothing.
  lemma AtTheStart(v: View, handed: Bytes)
    requires v.Secure() && Begun(v, handed)
    ensures v.log == v.txLog == [] && v.accepted == [] && v.delivered == handed
    ensures Synchronised([], v.state) && Plain([]) == [] && WellNumbered([], v.TxPrefix())
  {
    FeedAllSynchronised([], v.Prefix(), UNUSED, v.taken);
  }

  lemma MorePlain(log: Log, later: Log)
    requires log <= later
    ensures Plain(log) <= Plain(later)
  {
    PlainPrefix(later, |log|);
    assert later[..|log|] == log;
  }
}
