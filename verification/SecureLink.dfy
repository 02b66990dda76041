/** The host's connection object and the device's receiver and transmitter in one session: every
    method of either end keeps both directions in step, whatever the channel has delivered. */
module SecureLink {
  import opened ByteStrings
  import opened Aead
  import opened RecordLayer
  import opened Sockets
  import opened NonceUse
  import opened HostSecureConn
  import opened RecordReceiver
  import opened RecordTransmitter

  // `host` seals what `rx` opens.
  ghost predicate ToDevice(host: SecureConn, rx: Receiver)
    reads host, host.conn, host.txAead, rx, rx.rxRecordHeader, rx.rxCipher, rx.rxTag, rx.rxPlain
  {
    && host.Valid() && rx.Valid()
    && rx.rxAead == host.txAead && rx.rxNoncePrefix == host.txNoncePrefix
    && host.Status() != Reused
    && Synchronised(host.txAead.log, rx.State())
  }

  // `tx` seals what `host` opens.
  ghost predicate ToHost(host: SecureConn, tx: Transmitter)
    reads host, host.conn, host.txAead, tx, tx.txPending, tx.txAead
  {
    && host.Valid() && tx.Valid() && tx.secureMode
    && tx.txAead == host.rxAead && tx.txNoncePrefix == host.rxNoncePrefix
    && host.rxSequence <= |tx.txAead.log|
    && host.delivered + host.rxPlain == Plain(tx.txAead.log[..host.rxSequence])
  }

  // What the device application has read is a prefix of what the host accepted, or, once a host
  // write has failed, of that and the record that was cut short.
  lemma DeviceApplicationReadsPrefix(host: SecureConn, rx: Receiver)
    requires ToDevice(host, rx)
    ensures rx.delivered <= Plain(host.txAead.log)
    ensures host.Status() == Clean ==> rx.delivered <= host.accepted
    ensures host.Status() == WriteFailed ==>
              host.txAead.log != [] && Plain(host.txAead.log) == host.accepted + host.txAead.log[|host.txAead.log| - 1].plain
  {
    var st := rx.State();
    PlainPrefix(host.txAead.log, st.next);
  }

  lemma HostApplicationReadsPrefix(host: SecureConn, tx: Transmitter)
    requires ToHost(host, tx)
    ensures host.delivered <= tx.accepted
  {
    PlainPrefix(tx.txAead.log, host.rxSequence);
  }

  lemma LongerLog(log: Log, later: Log, st: RxState)
    requires log <= later && st.Receiving? && Synchronised(log, st)
    ensures Synchronised(later, st)
  {
    assert later[..st.next] == log[..st.next];
  }

  // The device's two halves and what they keep apart.
  ghost predicate Linked(host: SecureConn, rx: Receiver, tx: Transmitter)
    reads host, host.conn, host.txAead, rx, rx.rxRecordHeader, rx.rxCipher, rx.rxTag, rx.rxPlain
    reads tx, tx.txPending, tx.txAead
  {
    && ToDevice(host, rx) && ToHost(host, tx)
    && tx.txPending !in {rx.rxRecordHeader, rx.rxCipher, rx.rxTag, rx.rxPlain}
  }

  // What a handshake leaves at the two ends: one session object each, with each other's keys.
  method Link(conn: Conn, toDevice: IdealAead, toHost: IdealAead, toDevicePrefix: Bytes, toHostPrefix: Bytes)
    returns (host: SecureConn, rx: Receiver, tx: Transmitter)
    requires toDevice != toHost && toDevice.log == [] && toHost.log == []
    ensures Linked(host, rx, tx) && fresh(host) && fresh(rx) && fresh(tx) && host.conn == conn
    ensures host.Status() == Clean && host.accepted == host.delivered == rx.delivered == tx.accepted == []
  {
    host := new SecureConn(conn, toDevice, toHost, toDevicePrefix, toHostPrefix);
    rx := new Receiver(toDevice);
    rx.Reset(toDevice, toDevicePrefix);
    tx := new Transmitter(toHost);
    tx.Reset(true, toHost, toHostPrefix);
  }

  // The link survives a write exactly when nothing is sealed after a failed one.
  method HostWrites(host: SecureConn, rx: Receiver, tx: Transmitter, p: Bytes) returns (total: nat, ok: bool)
    requires Linked(host, rx, tx)
    modifies host, host.conn, host.txAead
    ensures total <= |p|
    ensures old(host.Status()) == Clean ==> Linked(host, rx, tx) && host.accepted == old(host.accepted) + p[..total]
    ensures old(host.Status()) != Clean ==> (Linked(host, rx, tx) <==> host.txAead.log == old(host.txAead.log))
  {
    hide SecureConn.Valid, Receiver.Valid, Transmitter.Valid, Synchronised, StatusOf, Plain;
    ghost var log, st := host.txAead.log, rx.State();
    DistinctKeys(host);
    total, ok := host.Write(p);
    LongerLog(log, host.txAead.log, st);
  }

  lemma DistinctKeys(host: SecureConn)
    requires host.Valid()
    ensures host.txAead != host.rxAead
  {
  }

  // After an error too: `Read` may be called again.
  method HostReads(host: SecureConn, rx: Receiver, tx: Transmitter, cap: nat) returns (data: Bytes, ok: bool)
    requires Linked(host, rx, tx)
    modifies host, host.conn
    ensures Linked(host, rx, tx) && host.delivered == old(host.delivered) + data
  {
    hide SecureConn.Valid, Receiver.Valid, Synchronised, StatusOf, Plain, WellNumbered, HostRead;
    ghost var delivered, before, stream := host.delivered, host.Rx(), host.conn.inbound;
    data, ok := host.Read(cap);
    HostReadSynchronised(tx.txAead.log, tx.txNoncePrefix, before, delivered, stream, cap);
  }

  // On failure the session is over; what was delivered before stands.
  method DeviceHandles(host: SecureConn, rx: Receiver, tx: Transmitter, client: Client) returns (ok: bool)
    requires Linked(host, rx, tx)
    modifies rx, rx.rxRecordHeader, rx.rxCipher, rx.rxTag, rx.rxPlain, client
    ensures ok ==> Linked(host, rx, tx)
    ensures rx.delivered == old(rx.delivered) <= Plain(host.txAead.log)
  {
    hide SecureConn.Valid, Receiver.Valid, Transmitter.Valid, Synchronised, Plain, WellNumbered;
    DeviceApplicationReadsPrefix(host, rx);
    Numbered(host);
    ghost var st := rx.State();
    ghost var consumed;
    ok, consumed := rx.HandleSecureRx(client);
    FeedAllSynchronised(host.txAead.log, rx.rxNoncePrefix, st, consumed);
  }

  lemma Numbered(host: SecureConn)
    requires host.Valid() && host.Status() != Reused
    ensures WellNumbered(host.txAead.log, host.txNoncePrefix)
  {
  }

  method DeviceApplicationReads(host: SecureConn, rx: Receiver, tx: Transmitter, buffer: array<byte>)
    returns (count: nat)
    requires Linked(host, rx, tx)
    requires buffer !in {rx.rxRecordHeader, rx.rxCipher, rx.rxTag, rx.rxPlain, tx.txPending}
    modifies rx, buffer
    ensures Linked(host, rx, tx) && count <= buffer.Length && rx.delivered == old(rx.delivered) + buffer[..count]
  {
    hide SecureConn.Valid, Receiver.Valid, Transmitter.Valid, Synchronised, Plain;
    count := rx.Take(buffer, buffer.Length);
  }

  method DeviceStages(host: SecureConn, rx: Receiver, tx: Transmitter, data: Bytes) returns (ok: bool)
    requires Linked(host, rx, tx) && !tx.discarded
    modifies tx, tx.txPending, tx.txAead
    ensures Linked(host, rx, tx) && tx.accepted == old(tx.accepted) + if ok then data else []
  {
    hide SecureConn.Valid, Receiver.Valid, Synchronised, Plain;
    DistinctKeys(host);
    ghost var log, k := tx.txAead.log, host.rxSequence;
    assert tx.accepted + [] == tx.accepted;
    ok := tx.StageSecureRecord(data);
    assert tx.txAead.log[..k] == log[..k];
  }
}
