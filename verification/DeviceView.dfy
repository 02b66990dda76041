/** What is seen of the device endpoint between its steps, and what a step, or a whole call, may
    do to the session on one connection. */
module DeviceView {
  import opened ByteStrings
  import opened Aead
  import opened RecordLayer
  import opened Sockets
  import opened ControlLines
  import opened Hkdf
  import opened Handshake
  import opened DeviceHandshake

  const HANDSHAKE_TIMEOUT_MS: nat := 2500

  const TIMEOUT: string := "ESPNS/1 ERR timeout"

  const UNUSED: RxState := Receiving([], 0, [])

  // `faults` counts the socket's faults and the records the cipher refused; `received` are the
  // handshake bytes read from the socket and `taken` the data bytes.
  datatype View = View(
    client: Client, up: bool, faults: nat, inbound: Bytes, arrived: Bytes, wire: Bytes,
    key: Bytes, random: Bytes, session: Session, startedAt: nat, received: Bytes,
    rxAead: IdealAead, log: Log, state: RxState, unread: Bytes, taken: Bytes, delivered: Bytes,
    txAead: IdealAead, txLog: Log, accepted: Bytes, sent: Bytes, pending: nat)
  {
    ghost predicate Ready() {
      !Undecided(session.phase)
    }

    ghost predicate Secure() {
      session.phase.InSecure?
    }

    ghost function Prefix(): Bytes {
      if session.phase.InSecure? then session.phase.keys.hostToDevicePrefix else []
    }

    ghost function TxPrefix(): Bytes {
      if session.phase.InSecure? then session.phase.keys.deviceToHostPrefix else []
    }

    // What belongs on the wire behind the handshake once `written` more has been accepted and the
    // records sealed are `records`.
    ghost function Owed(records: Log, written: Bytes): Bytes {
      if Secure() then Wire(records) else accepted + written
    }

    // What is waiting does not decode.
    ghost predicate Spoilt() {
      Secure() && FeedAll(log, Prefix(), state, inbound).Failed?
    }
  }

  // From `st0`, with `t0` taken from the socket so far, the receiver has decoded what it has taken
  // since, and only that.
  ghost predicate Fed(log: Log, prefix: Bytes, st0: RxState, t0: Bytes, st1: RxState, t1: Bytes) {
    t0 <= t1 && FeedAll(log, prefix, st0, t1[|t0|..]) == st1
  }

  lemma FedBy(log: Log, prefix: Bytes, st: RxState, taken: Bytes, consumed: Bytes)
    ensures Fed(log, prefix, st, taken, FeedAll(log, prefix, st, consumed), taken + consumed)
  {
    assert (taken + consumed)[|taken|..] == consumed;
  }

  lemma FedNothing(log: Log, prefix: Bytes, st: RxState, taken: Bytes)
    ensures Fed(log, prefix, st, taken, st, taken)
  {
    assert taken + [] == taken;
    FedBy(log, prefix, st, taken, []);
  }

  lemma FedThen(log: Log, prefix: Bytes, st0: RxState, t0: Bytes, st1: RxState, t1: Bytes, st2: RxState, t2: Bytes)
    requires Fed(log, prefix, st0, t0, st1, t1) && Fed(log, prefix, st1, t1, st2, t2)
    ensures Fed(log, prefix, st0, t0, st2, t2)
  {
    var a, b := t1[|t0|..], t2[|t1|..];
    FeedAllConcat(log, prefix, st0, a, b);
    assert t2[|t0|..] == a + b;
  }

  // What is still waiting decodes after what was taken as part of all that was waiting.
  lemma FedFails(log: Log, prefix: Bytes, st0: RxState, t0: Bytes, in0: Bytes, st1: RxState, t1: Bytes, in1: Bytes)
    requires Fed(log, prefix, st0, t0, st1, t1) && t0 + in0 == t1 + in1
    ensures FeedAll(log, prefix, st0, in0) == FeedAll(log, prefix, st1, in1)
  {
    var a := t1[|t0|..];
    assert t1 == t0 + a;
    assert in0 == (t0 + in0)[|t0|..] == a + in1;
    FeedAllConcat(log, prefix, st0, a, in1);
  }

  // The connection was up and the environment did nothing to it.
  ghost predicate Calm(a: View, b: View) {
    b.client == a.client && b.faults == a.faults && a.up
  }

  // Whether the session goes on or is over: behind the handshake the wire carries what it carried
  // and after that nothing but what is owed, each record sealed under its own number.
  ghost predicate OnWire(a: View, aead: IdealAead, records: Log, wire: Bytes, written: Bytes) {
    && aead == a.txAead && a.txLog <= records && (written == [] || !a.Secure() ==> records == a.txLog)
    && (a.Secure() ==> WellNumbered(records, a.TxPrefix()) && Plain(records) == a.accepted + written)
    && a.session.control + a.sent <= wire <= a.session.control + a.Owed(records, written)
  }

  // During the handshake the wire carries its lines only.
  ghost predicate Sound(v: View) {
    && v.wire == v.session.control + v.sent && !v.session.phase.Closed?
    && if v.Ready() then OnWire(v, v.txAead, v.txLog, v.wire, []) else v.sent == v.taken == []
  }

  // Nothing happened but, perhaps, a drop.
  ghost predicate Idle(a: View, b: View) {
    && Sound(a) && b == a.(up := b.up, faults := b.faults) && b.faults >= a.faults && (b.up ==> a.up)
    && (b.faults == a.faults ==> b.up == a.up)
  }

  // ---- Steps of the data path ------------------------------------------------------------------

  // `handed` went to the application and `written` was accepted from it.
  ghost predicate DataStep(a: View, b: View, handed: Bytes, written: Bytes) {
    && b.client == a.client && b.key == a.key && b.random == a.random
    && b.faults >= a.faults && (b.up ==> a.up) && (!a.up ==> b.wire == a.wire) && b.arrived == a.arrived
    && (!a.Ready() ==> Waited(a, b) && handed == written == [])
    && (a.Ready() && !b.Ready() ==>
          && !b.up && (Calm(a, b) ==> a.Spoilt())
          && OnWire(a, b.txAead, b.txLog, b.wire, written))
    && (a.Ready() && b.Ready() ==> Continued(a, b, handed, written))
  }

  // A session still in its handshake is left alone, or is over.
  ghost predicate Waited(a: View, b: View) {
    && !b.Ready() && b.wire == a.wire && b.txAead == a.txAead && b.txLog == a.txLog
    && (b.up ==> b == a.(faults := b.faults))
    && (Calm(a, b) ==> b.up)
  }

  // Mode, keys, nonces and handshake bytes are fixed; what was taken from the socket was decoded,
  // or, unencrypted, handed out; what was put on the wire stays there.
  ghost predicate Continued(a: View, b: View, handed: Bytes, written: Bytes) {
    && b.session == a.session && b.received == a.received
    && b.rxAead == a.rxAead && b.log == a.log && b.txAead == a.txAead
    && b.accepted == a.accepted + written && a.sent <= b.sent && b.wire == b.session.control + b.sent
    && OnWire(a, b.txAead, b.txLog, b.wire, written)
    && (b.up ==> a.taken + a.inbound == b.taken + b.inbound)
    && (Calm(a, b) ==> b.up)
    && (a.Secure() ==>
          && Fed(a.log, a.Prefix(), a.state, a.taken, b.state, b.taken)
          && b.delivered == a.delivered + handed)
    && (!a.Secure() ==> b.taken == a.taken + handed)
  }

  lemma IdleStep(a: View, b: View)
    requires Idle(a, b)
    ensures DataStep(a, b, [], [])
  {
    FedNothing(a.log, a.Prefix(), a.state, a.taken);
    assert a.accepted + [] == a.accepted && a.delivered + [] == a.delivered && a.taken + [] == a.taken;
  }

  lemma DataThen(a: View, b: View, c: View, h1: Bytes, w1: Bytes, h2: Bytes, w2: Bytes)
    requires DataStep(a, b, h1, w1) && DataStep(b, c, h2, w2)
    ensures DataStep(a, c, h1 + h2, w1 + w2)
  {
    hide Fed, FeedAll, Undecided, Wire, Plain, WellNumbered;
    if a.Ready() && b.Ready() {
      OnWireThen(a, b, c.txAead, c.txLog, c.wire, w1, w2);
      if c.Ready() {
        ContinuedThen(a, b, c, h1, w1, h2, w2);
      } else if Calm(a, c) {
        FedFails(a.log, a.Prefix(), a.state, a.taken, a.inbound, b.state, b.taken, b.inbound);
      }
    }
  }

  lemma OnWireThen(a: View, b: View, aead: IdealAead, records: Log, wire: Bytes, w1: Bytes, w2: Bytes)
    requires b.session == a.session && b.accepted == a.accepted + w1 && b.wire == b.session.control + b.sent
    requires OnWire(a, b.txAead, b.txLog, b.wire, w1) && OnWire(b, aead, records, wire, w2)
    ensures OnWire(a, aead, records, wire, w1 + w2)
  {
    hide Wire, Plain, WellNumbered;
    Regroup(a.accepted, w1, w2);
  }

  lemma ContinuedThen(a: View, b: View, c: View, h1: Bytes, w1: Bytes, h2: Bytes, w2: Bytes)
    requires Continued(a, b, h1, w1) && Continued(b, c, h2, w2)
    requires (c.up ==> b.up) && c.faults >= b.faults >= a.faults && c.client == b.client == a.client
    ensures Continued(a, c, h1 + h2, w1 + w2)
  {
    hide Fed, Wire, Plain, WellNumbered;
    OnWireThen(a, b, c.txAead, c.txLog, c.wire, w1, w2);
    Regroup(a.accepted, w1, w2);
    Regroup(a.delivered, h1, h2);
    Regroup(a.taken, h1, h2);
    if a.Secure() {
      FedThen(a.log, a.Prefix(), a.state, a.taken, b.state, b.taken, c.state, c.taken);
    }
  }

  // ---- Whole calls -----------------------------------------------------------------------------

  // A call: a data step, or the handshake goes on, or another connection has taken the place of one
  // that is gone.  Only a connection that is up becomes ready.
  ghost predicate CallStep(a: View, b: View, handed: Bytes) {
    if b.client == a.client then
      && b.key == a.key && b.faults >= a.faults && (b.up ==> a.up) && b.arrived == a.arrived
      && (!a.up ==> b.random == a.random && b.wire == a.wire && b.txAead == a.txAead && b.txLog == a.txLog)
      && (a.Ready() ==> DataStep(a, b, handed, []))
      && (!a.Ready() && b.Ready() ==> a.up && BecameReady(a, b, handed))
      && (!a.Ready() && !b.Ready() && b.up ==> a.received <= b.received && a.received + a.inbound == b.received + b.inbound)
    else
      b.Ready() ==> Begun(b, handed)
  }

  // The data path started from nothing.
  ghost predicate Begun(b: View, handed: Bytes) {
    && b.accepted == b.sent == [] && b.wire == b.session.control
    && (b.Secure() ==> b.txLog == [])
    && (b.Secure() ==>
          b.log == [] && Fed([], b.Prefix(), UNUSED, [], b.state, b.taken) && b.delivered == handed)
    && (!b.Secure() ==> b.taken == handed)
  }

  // What was waiting is split, with nothing lost, into handshake bytes, data taken and the rest.
  ghost predicate BecameReady(a: View, b: View, handed: Bytes) {
    && (b.up ==> a.received <= b.received && a.received + a.inbound == b.received + b.taken + b.inbound)
    && (Calm(a, b) ==> b.up)
    && Begun(b, handed)
  }

  lemma NoMore(bytes: Bytes)
    ensures [] + bytes == bytes == bytes + []
  {
  }

  lemma DataThenCall(a: View, b: View, c: View, handed: Bytes)
    requires DataStep(a, b, [], []) && CallStep(b, c, handed) && c.client == b.client
    ensures CallStep(a, c, handed)
  {
    hide Fed, FeedAll, Undecided;
    if a.Ready() && b.Ready() {
      DataThen(a, b, c, [], [], handed, []);
      NoMore(handed);
      NoMore([]);
    }
  }

  lemma CallThenData(a: View, b: View, c: View, h1: Bytes, h2: Bytes)
    requires CallStep(a, b, h1) && DataStep(b, c, h2, [])
    ensures CallStep(a, c, h1 + h2)
  {
    hide Fed, FeedAll, Undecided;
    NoMore([]);
    if c.client == a.client && a.Ready() {
      DataThen(a, b, c, h1, [], h2, []);
    } else if c.Ready() {
      BegunThen(b, c, h1, h2);
      if c.client == a.client && c.up {
        Regroup(b.received, b.taken, b.inbound);
        Regroup(b.received, c.taken, c.inbound);
      }
    }
  }

  lemma BegunThen(b: View, c: View, h1: Bytes, h2: Bytes)
    requires Begun(b, h1) && Continued(b, c, h2, [])
    ensures Begun(c, h1 + h2)
  {
    hide Fed;
    if b.Secure() {
      FedThen([], b.Prefix(), UNUSED, [], b.state, b.taken, c.state, c.taken);
    }
  }

  // ---- What becomes of a handshake when nothing interferes ---------------------------------------

  // `now` and the start time are `millis()` values; a start at zero means no time limit.
  predicate Late(now: nat, startedAt: nat) {
    startedAt != 0 && (now - startedAt) % (UINT32_MAX + 1) >= HANDSHAKE_TIMEOUT_MS
  }

  // Whether a pass that leaves the handshake at `after` runs into the time limit, which counts
  // again from a challenge issued in that pass.
  predicate Expired(before: Phase, after: Phase, startedAt: nat, now: nat) {
    Late(now, if before.AwaitingHello? && after.AwaitingAuth? then now else startedAt)
  }

  // All that was waiting for session `s` decides `b`: the first line that decides, a line too long,
  // or the time limit; or the handshake has read everything and goes on.  A session that is ready
  // has the bytes after the deciding LF, and no others, as data, and only one of those that cannot
  // be decoded ends it.
  ghost predicate Outcome(h: Hash, s: Session, inbound: Bytes, startedAt: nat, b: View, now: nat)
    requires Sized(h)
  {
    var r := ReadStream(h, b.key, b.random, s, inbound);
    if Undecided(r.session.phase) then
      if Expired(s.phase, r.session.phase, startedAt, now) then
        !b.up && b.wire == r.session.control + Ascii(TIMEOUT) + [LF]
      else
        b.up && b.session == r.session && b.inbound == []
    else if r.session.phase.Closed? then
      !b.up && b.wire == r.session.control
    else if b.up then
      b.session == r.session && b.taken + b.inbound == r.rest
    else
      && r.session.phase.InSecure?
      && FeedAll([], r.session.phase.keys.hostToDevicePrefix, UNUSED, r.rest).Failed?
  }

  ghost predicate Fate(h: Hash, a: View, b: View, now: nat)
    requires Sized(h)
  {
    Calm(a, b) && !a.Ready() ==> Outcome(h, a.session, a.inbound, a.startedAt, b, now)
  }

  lemma DataThenFate(h: Hash, a: View, b: View, c: View, now: nat)
    requires Sized(h) && DataStep(a, b, [], []) && CallStep(b, c, []) && c.client == b.client && Fate(h, b, c, now)
    ensures Fate(h, a, c, now)
  {
    hide Fed, FeedAll, ReadStream, Undecided;
  }

  lemma FateThenData(h: Hash, a: View, b: View, c: View, h1: Bytes, h2: Bytes, now: nat)
    requires Sized(h) && CallStep(a, b, h1) && Fate(h, a, b, now) && DataStep(b, c, h2, [])
    ensures Fate(h, a, c, now)
  {
    hide FeedAll, ReadStream;
    if Calm(a, c) && !a.Ready() {
      var r := ReadStream(h, b.key, b.random, a.session, a.inbound);
      if b.Ready() && !c.Ready() {
        FedFails([], b.Prefix(), UNUSED, [], r.rest, b.state, b.taken, b.inbound);
      }
    }
  }

  // ---- What a connection carries at the end ------------------------------------------------------

  // `wire` holds no more than the replies to the handshake bytes read, and perhaps the time limit's.
  ghost predicate Answers(h: Hash, key: Bytes, random: Bytes, s: Session, read: Bytes, wire: Bytes)
    requires Sized(h)
  {
    var r := FeedHandshake(h, key, random, s, read);
    wire <= r.control || (Undecided(r.phase) && wire <= r.control + Ascii(TIMEOUT) + [LF])
  }

  ghost predicate Replied(h: Hash, a: View, wire: Bytes)
    requires Sized(h)
  {
    a.wire <= wire && exists random, read :: read <= a.inbound && Answers(h, a.key, random, a.session, read, wire)
  }

  // What a call that accepts no data may leave on the connection it found, whatever becomes of the
  // session and whether or not the connection is replaced.
  ghost predicate LastWire(h: Hash, a: View, wire: Bytes)
    requires Sized(h)
  {
    if !a.up then wire == a.wire
    else if a.Ready() then OnWire(a, a.txAead, a.txLog, wire, [])
    else Replied(h, a, wire)
  }

  lemma NothingSaid(h: Hash, a: View)
    requires Sized(h) && Sound(a)
    ensures LastWire(h, a, a.wire)
  {
    if a.up && !a.Ready() {
      FeedNone(h, a.key, a.random, a.session);
      assert a.session.control + [] == a.session.control;
      assert [] <= a.inbound && Answers(h, a.key, a.random, a.session, [], a.wire);
    }
  }

  lemma DataLast(h: Hash, a: View, b: View, handed: Bytes)
    requires Sized(h) && DataStep(a, b, handed, []) && Sound(a)
    ensures LastWire(h, a, b.wire)
  {
    hide Answers, Fed, FeedAll, Wire, Plain, WellNumbered;
    if a.up && !a.Ready() {
      NothingSaid(h, a);
    }
  }

  lemma DataThenLast(h: Hash, a: View, b: View, wire: Bytes, handed: Bytes)
    requires Sized(h) && Sound(a) && DataStep(a, b, handed, []) && LastWire(h, b, wire)
    ensures LastWire(h, a, wire)
  {
    hide Answers, Fed, FeedAll, Wire, Plain, WellNumbered;
    DataLast(h, a, b, handed);
    if a.up && a.Ready() && b.Ready() && b.up {
      NoMore([]);
      OnWireThen(a, b, b.txAead, b.txLog, wire, [], []);
    }
  }

  lemma LastThenData(h: Hash, a: View, b: View, c: View, h1: Bytes, h2: Bytes)
    requires Sized(h) && CallStep(a, b, h1) && LastWire(h, a, b.wire) && DataStep(b, c, h2, []) && b.client == a.client
    ensures LastWire(h, a, c.wire)
  {
    hide Answers, Fed, FeedAll, Wire, Plain, WellNumbered;
    if a.up && a.Ready() && b.Ready() {
      NoMore([]);
      OnWireThen(a, b, c.txAead, c.txLog, c.wire, [], []);
    } else if a.up && b.Ready() {
      NothingOwed(b, c, h2);
    }
  }

  // A session that has just become ready owes nothing.
  lemma NothingOwed(b: View, c: View, handed: Bytes)
    requires b.Ready() && b.accepted == b.sent == [] && b.wire == b.session.control && (b.Secure() ==> b.txLog == [])
    requires DataStep(b, c, handed, [])
    ensures c.wire == b.wire
  {
    hide Fed, FeedAll, Plain, WellNumbered;
    assert b.session.control + [] == b.session.control;
  }

  // On a connection just taken.
  lemma FirstWords(h: Hash, a: View, wire: Bytes)
    requires Sized(h) && Sound(a) && a.session == START && LastWire(h, a, wire)
    ensures exists random, read :: read <= a.inbound && Answers(h, a.key, random, START, read, wire)
  {
    if !a.up {
      FeedNone(h, a.key, a.random, START);
      assert [] <= a.inbound && Answers(h, a.key, a.random, START, [], wire);
    }
  }

  // The session is what the handshake bytes read have made it, and every byte that arrived was one of
  // those, was taken as data, or is still unread.
  ghost predicate Known(h: Hash, v: View)
    requires Sized(h)
  {
    Run(h, v.key, v.random, v.received) == v.session && v.arrived == v.received + v.taken + v.inbound
  }

  // What a data step leaves, whether or not the session survives it.
  lemma AfterData(a: View, b: View, handed: Bytes, written: Bytes)
    requires DataStep(a, b, handed, written)
    ensures b.client == a.client && b.arrived == a.arrived && b.txAead == a.txAead && (b.up ==> a.up)
    ensures a.Ready() ==> OnWire(a, b.txAead, b.txLog, b.wire, written)
    ensures b.Ready() ==> a.Ready() && b.session == a.session
    ensures !a.Secure() ==> b.txLog == a.txLog
  {
    hide Fed, FeedAll, Wire, Plain, WellNumbered;
  }

  // ---- Progress --------------------------------------------------------------------------------

  // With nothing interfering, a session that is ready at the end has had all its pending bytes
  // sent and has taken in some of what was waiting.
  ghost predicate Served(a: View, b: View) {
    Calm(a, b) && b.Ready() ==>
      && b.pending == 0
      && (a.Secure() && a.unread == [] && a.inbound != [] ==> |b.inbound| < |a.inbound|)
  }

  // The socket is looked at for records, unless there is unread plaintext.
  ghost predicate PollStep(a: View, b: View) {
    && DataStep(a, b, [], [])
    && KeepsUnread(a, b)
    && (Calm(a, b) && b.Ready() && a.Secure() && a.unread == [] && a.inbound != [] ==> |b.inbound| < |a.inbound|)
    && (b.Ready() ==> |b.inbound| <= |a.inbound|)
  }

  // Plaintext that is already there is kept for the application.
  ghost predicate KeepsUnread(a: View, b: View) {
    Calm(a, b) && a.Secure() && a.unread != [] ==> b.session == a.session && b.unread == a.unread && b.up
  }

  lemma IdlePolls(a: View, b: View)
    requires Idle(a, b) && !(b.up && a.Secure() && a.unread == [] && a.inbound != [])
    ensures PollStep(a, b)
  {
    IdleStep(a, b);
  }

  lemma IdleThenPoll(a: View, b: View, c: View)
    requires Idle(a, b) && PollStep(b, c)
    ensures PollStep(a, c)
  {
    hide FeedAll, Fed;
    IdleStep(a, b);
    DataThen(a, b, c, [], [], [], []);
    NoMore([]);
  }

  // What is pending is offered to the socket.
  ghost predicate DrainStep(a: View, b: View) {
    && DataStep(a, b, [], [])
    && (b.Ready() ==> b.unread == a.unread && b.inbound == a.inbound)
    && (Calm(a, b) ==> b.Ready() && b.pending == 0)
  }

  lemma PollThenDrain(a: View, b: View, c: View, d: View)
    requires PollStep(a, b) && Idle(b, c)
    requires if c.up && c.Ready() then DrainStep(c, d) else d == c
    ensures DataStep(a, d, [], []) && Served(a, d)
  {
    hide FeedAll, Fed;
    IdleStep(b, c);
    DataThen(a, b, c, [], [], [], []);
    NoMore([]);
    if c.up && c.Ready() {
      DataThen(a, c, d, [], [], [], []);
    }
  }

  // What `handle` does to the client in place.
  ghost predicate HandleStep(h: Hash, a: View, b: View, now: nat)
    requires Sized(h)
  {
    && CallStep(a, b, []) && Fate(h, a, b, now) && Served(a, b)
    && (b.client == a.client ==> LastWire(h, a, b.wire))
  }

  lemma TidyServeData(h: Hash, a: View, b: View, c: View, d: View, now: nat)
    requires Sized(h) && Sound(a) && DataStep(a, b, [], []) && (b.up ==> Idle(a, b))
    requires c.client == b.client && LastWire(h, b, c.wire)
    requires if b.up && !b.Ready() then c.client == b.client && CallStep(b, c, []) && Fate(h, b, c, now) else c == b
    requires DataStep(c, d, [], []) && Served(c, d)
    ensures HandleStep(h, a, d, now) && LastWire(h, a, d.wire)
    ensures (b.Ready() ==> a.Ready()) && (d.Ready() ==> c.Ready() && d.txAead == c.txAead && d.session == c.session)
    ensures a.Ready() && d.Ready() ==> d.txAead == a.txAead && d.session == a.session
  {
    hide FeedAll, Fed, ReadStream, Answers, Wire, Plain, WellNumbered;
    NoMore([]);
    DataThenLast(h, a, b, c.wire, []);
    if b.up && !b.Ready() {
      DataThenCall(a, b, c, []);
      DataThenFate(h, a, b, c, now);
      CallThenData(a, c, d, [], []);
      FateThenData(h, a, c, d, [], [], now);
    } else {
      DataThen(a, b, d, [], [], [], []);
    }
    LastThenData(h, a, c, d, [], []);
  }

  lemma HandleThenIdle(h: Hash, a: View, b: View, c: View, now: nat)
    requires Sized(h) && HandleStep(h, a, b, now) && Idle(b, c)
    ensures HandleStep(h, a, c, now) && CallStep(a, c, []) && (c.client == a.client ==> LastWire(h, a, c.wire))
  {
    hide FeedAll, Fed, ReadStream, OnWire, Answers;
    NoMore([]);
    IdleStep(b, c);
    CallThenData(a, b, c, [], []);
    FateThenData(h, a, b, c, [], [], now);
  }

  lemma IdleThenCall(h: Hash, a: View, b: View, c: View, now: nat)
    requires Sized(h) && Idle(a, b) && CallStep(b, c, [])
    ensures CallStep(a, c, []) && (Fate(h, b, c, now) ==> Fate(h, a, c, now)) && (Calm(a, c) ==> Calm(a, b))
    ensures forall wire :: LastWire(h, b, wire) ==> LastWire(h, a, wire)
  {
    hide FeedAll, Fed, ReadStream, OnWire, Answers;
    IdleStep(a, b);
    if c.client == b.client {
      DataThenCall(a, b, c, []);
      if Fate(h, b, c, now) {
        DataThenFate(h, a, b, c, now);
      }
    }
    forall wire | LastWire(h, b, wire) ensures LastWire(h, a, wire) {
      DataThenLast(h, a, b, wire, []);
    }
  }

  lemma CallThenPoll(h: Hash, a: View, b: View, c: View, now: nat)
    requires Sized(h) && CallStep(a, b, []) && PollStep(b, c)
    ensures CallStep(a, c, []) && (Fate(h, a, b, now) ==> Fate(h, a, c, now))
    ensures KeepsUnread(a, b) ==> KeepsUnread(a, c)
    ensures b.client == a.client && LastWire(h, a, b.wire) ==> LastWire(h, a, c.wire)
    ensures b.client != a.client ==> c.wire == b.wire && c.arrived == b.arrived
    ensures c.Ready() ==> b.Ready() && c.txAead == b.txAead && c.session == b.session
  {
    hide FeedAll, Fed, ReadStream, OnWire, Answers;
    NoMore([]);
    CallThenData(a, b, c, [], []);
    if Fate(h, a, b, now) {
      FateThenData(h, a, b, c, [], [], now);
    }
    if b.client == a.client && LastWire(h, a, b.wire) {
      LastThenData(h, a, b, c, [], []);
    }
    if b.client != a.client && b.Ready() {
      NothingOwed(b, c, []);
    }
  }

  lemma Offered(a: View, b: View, c: View)
    requires a.Ready() && a.up && DrainStep(a, b) && Idle(b, c)
    ensures DataStep(a, c, [], [])
    ensures Calm(a, c) ==> c.up && c.Ready() && c.pending == 0
  {
    hide FeedAll, Fed;
    NoMore([]);
    IdleStep(b, c);
    DataThen(a, b, c, [], [], [], []);
  }

  lemma Monotone(a: View, b: View, c: View, w1: Bytes, w2: Bytes)
    requires DataStep(a, b, [], w1) && DataStep(b, c, [], w2)
    ensures Calm(a, c) ==> Calm(a, b) && (b.up ==> Calm(b, c))
  {
  }

  lemma SameCall(a: View)
    requires Sound(a)
    ensures CallStep(a, a, []) && KeepsUnread(a, a)
  {
    hide Fed, FeedAll;
    IdleStep(a, a);
  }

  lemma IdleCall(h: Hash, a: View, b: View, now: nat)
    requires Sized(h) && Idle(a, b) && (a.Ready() || !b.up)
    ensures CallStep(a, b, []) && Fate(h, a, b, now)
    ensures LastWire(h, a, b.wire)
  {
    hide Fed, FeedAll, ReadStream, OnWire, Answers;
    IdleStep(a, b);
    DataLast(h, a, b, []);
  }

  // Nothing is said about a connection that has been replaced.
  lemma AnotherClient(h: Hash, a: View, b: View, now: nat)
    requires Sized(h) && b.client != a.client && (b.Ready() ==> Begun(b, []))
    ensures HandleStep(h, a, b, now) && CallStep(a, b, [])
  {
  }

  lemma NotUpAgain(a: View, b: View)
    requires CallStep(a, b, []) && b.client == a.client
    ensures b.up ==> a.up
  {
  }

  lemma BegunByCall(a: View, b: View)
    requires CallStep(a, b, []) && b.client == a.client && !a.Ready()
    ensures b.Ready() ==> Begun(b, [])
  {
  }

  // The first bytes a read hands out.
  ghost function Next(v: View): Bytes {
    if v.Secure() then v.unread else if v.Ready() then v.inbound else []
  }

  // Of the next bytes at most `size` were handed out: from a secure session that is up as many as there
  // are, and with nothing interfering at least one.
  ghost predicate Handed(met: View, b: View, handed: Bytes, size: nat) {
    && DataStep(met, b, handed, [])
    && |handed| <= size && handed <= Next(met) && (!b.Ready() ==> handed == [])
    && (met.up && met.Secure() ==> |handed| == Min(size, |met.unread|))
    && (Calm(met, b) && size > 0 && Next(met) != [] ==> handed != [])
  }

  lemma NothingHanded(v: View, size: nat)
    requires Sound(v) && (size == 0 || !v.Ready() || !v.up) && (v.up && v.Secure() ==> size == 0)
    ensures Handed(v, v, [], size)
  {
    IdleStep(v, v);
  }

  // How many records a write of `n` bytes takes.
  function RecordsFor(n: nat): nat {
    (n + 1023) / 1024
  }

  function ByteOrNone(value: int): Bytes
    requires value < 256
  {
    if value < 0 then [] else [value as byte]
  }

  lemma ReadAfter(h: Hash, a: View, b: View, c: View, handed: Bytes, size: nat, now: nat)
    requires Sized(h) && CallStep(a, b, []) && Handed(b, c, handed, size)
    ensures CallStep(a, c, handed) && (Fate(h, a, b, now) ==> Fate(h, a, c, now))
    ensures b.client == a.client && LastWire(h, a, b.wire) ==> LastWire(h, a, c.wire)
    ensures b.client != a.client ==> c.wire == b.wire && c.arrived == b.arrived
    ensures c.Ready() ==> b.Ready() && c.txAead == b.txAead && c.session == b.session
  {
    hide Fed, FeedAll, ReadStream, OnWire, Answers;
    NoMore(handed);
    CallThenData(a, b, c, [], handed);
    if Fate(h, a, b, now) {
      FateThenData(h, a, b, c, [], handed, now);
    }
    if b.client == a.client && LastWire(h, a, b.wire) {
      LastThenData(h, a, b, c, [], handed);
    }
    if b.client != a.client && b.Ready() {
      NothingOwed(b, c, handed);
    }
  }

  lemma Spoils(v: View, consumed: Bytes, rest: Bytes)
    requires v.Secure() && v.inbound == consumed + rest && FeedAll(v.log, v.Prefix(), v.state, consumed).Failed?
    ensures v.Spoilt()
  {
    FeedAllConcat(v.log, v.Prefix(), v.state, consumed, rest);
    FeedFailed(v.log, v.Prefix(), FeedAll(v.log, v.Prefix(), v.state, consumed).out, rest);
  }

  lemma AfterHandle(h: Hash, a: View, b: View, c: View, now: nat)
    requires Sized(h) && CallStep(a, b, []) && Idle(b, c)
    ensures CallStep(a, c, []) && (HandleStep(h, a, b, now) ==> Fate(h, a, c, now) && Served(a, c))
  {
    hide Fed, FeedAll, ReadStream, OnWire, Answers;
    NoMore([]);
    IdleStep(b, c);
    CallThenData(a, b, c, [], []);
    if HandleStep(h, a, b, now) {
      HandleThenIdle(h, a, b, c, now);
    }
  }

  lemma StillCalm(a: View, b: View, c: View, written: Bytes)
    requires CallStep(a, b, []) && DataStep(b, c, [], written)
    ensures Calm(a, c) && b.Ready() ==> Calm(b, c) && b.up && (Served(a, b) ==> b.pending == 0)
    ensures c.client == b.client && c.key == b.key && c.arrived == b.arrived
    ensures c.Ready() ==> b.Ready() && c.txAead == b.txAead && c.session == b.session
  {
  }

  // ---- The leaves --------------------------------------------------------------------------------

  lemma ClosedStep(a: View, b: View, handed: Bytes, written: Bytes)
    requires b.client == a.client && b.key == a.key && b.random == a.random && b.faults >= a.faults
    requires a.Ready() || handed == written == []
    requires !b.Ready() && !b.up && b.arrived == a.arrived && b.txAead == a.txAead && (!a.up ==> b.wire == a.wire)
    requires if a.Ready() then OnWire(a, b.txAead, b.txLog, b.wire, written) else b.wire == a.wire && b.txLog == a.txLog
    requires Calm(a, b) ==> a.Spoilt()
    ensures DataStep(a, b, handed, written)
  {
  }

  lemma ClosedPoll(a: View, b: View)
    requires DataStep(a, b, [], []) && a.Ready() && !b.Ready() && (a.unread != [] ==> b.faults > a.faults)
    ensures PollStep(a, b)
  {
  }

  lemma PolledBy(a: View, b: View, consumed: Bytes)
    requires Sound(a) && a.Secure() && a.up && b.faults >= a.faults && a.inbound == consumed + b.inbound
    requires b == a.(faults := b.faults, inbound := b.inbound, state := b.state, unread := b.unread,
                     taken := a.taken + consumed)
    requires b.state == FeedAll(a.log, a.Prefix(), a.state, consumed)
    requires a.unread != [] ==> consumed == [] && b.unread == a.unread
    requires Calm(a, b) && a.unread == [] && a.inbound != [] ==> consumed != []
    ensures PollStep(a, b)
  {
    FedBy(a.log, a.Prefix(), a.state, a.taken, consumed);
    Regroup(a.taken, consumed, b.inbound);
    NoMore(a.accepted);
    NoMore(a.delivered);
  }

  lemma DrainedBy(a: View, b: View)
    requires a.Ready() && (b.up ==> a.up) && b.faults >= a.faults && a.sent <= b.sent && (!a.up ==> b.wire == a.wire)
    requires b.wire == b.session.control + b.sent && OnWire(a, b.txAead, b.txLog, b.wire, [])
    requires b == a.(up := b.up, faults := b.faults, wire := b.wire, sent := b.sent, pending := b.pending)
    requires Calm(a, b) ==> b.up && b.pending == 0
    ensures DrainStep(a, b)
  {
    FedNothing(a.log, a.Prefix(), a.state, a.taken);
    NoMore(a.accepted);
    NoMore(a.delivered);
    NoMore(a.taken);
  }

  lemma DrainClosed(a: View, b: View)
    requires DataStep(a, b, [], []) && !b.Ready() && !b.up && (a.up ==> b.faults > a.faults)
    ensures DrainStep(a, b)
  {
  }

  lemma StagedBy(a: View, b: View, chunk: Bytes)
    requires a.Ready() && b == a.(txLog := b.txLog, accepted := a.accepted + chunk, pending := b.pending)
    requires Sound(a) && OnWire(a, b.txAead, b.txLog, b.wire, chunk)
    ensures DataStep(a, b, [], chunk)
  {
    FedNothing(a.log, a.Prefix(), a.state, a.taken);
    NoMore(a.delivered);
    NoMore(a.taken);
  }

  lemma HandedSecure(a: View, b: View, handed: Bytes)
    requires Sound(a) && a.Secure() && b == a.(unread := b.unread, delivered := a.delivered + handed)
    ensures DataStep(a, b, handed, [])
  {
    FedNothing(a.log, a.Prefix(), a.state, a.taken);
    NoMore(a.accepted);
  }

  lemma HandedRaw(a: View, b: View, handed: Bytes)
    requires Sound(a) && a.Ready() && !a.Secure() && b.faults >= a.faults && a.inbound == handed + b.inbound
    requires b == a.(faults := b.faults, inbound := b.inbound, taken := a.taken + handed)
    ensures DataStep(a, b, handed, [])
  {
    Regroup(a.taken, handed, b.inbound);
    NoMore(a.accepted);
  }

  lemma TidyStep(a: View, b: View, c: View, d: View)
    requires Idle(a, b) && (c == b || (DataStep(b, c, [], []) && !c.up)) && Idle(c, d)
    ensures DataStep(a, d, [], []) && (d.up ==> Idle(a, d))
  {
    hide Fed, FeedAll;
    NoMore([]);
    IdleStep(a, b);
    IdleStep(b, b);
    IdleStep(c, d);
    DataThen(a, b, c, [], [], [], []);
    DataThen(a, c, d, [], [], [], []);
  }
}
