/** Every run of the device: any public calls in any order with any arguments, bytes arriving between
    them, and any number of connections, of which every one that is over is remembered. */
module DeviceRuns {
  import opened ByteStrings
  import opened Aead
  import opened RecordLayer
  import opened NonceUse
  import opened Sockets
  import opened Hkdf
  import opened Handshake
  import opened DeviceHandshake
  import opened DeviceView
  import opened DeviceTcp

  datatype Call =
    | SetAuthKey(key: Option<Bytes>) | ClearAuthKey | Begin | End | DisconnectClient | ClearTxDropCounters
    | Handle(now: nat) | Flush(now: nat) | Connected(now: nat) | Available(now: nat) | Peek(now: nat)
    | Read(now: nat) | ReadBulk(size: nat, now: nat) | Write(data: Bytes, now: nat)
    | Arrives(bytes: Bytes)
  {
    // Looks after the connection and accepts no data.
    predicate Serving() {
      Handle? || Flush? || Connected? || Available? || Peek? || Read? || ReadBulk?
    }

    // At most ends the session.
    predicate Quiet() {
      SetAuthKey? || ClearAuthKey? || Begin? || End? || DisconnectClient? || ClearTxDropCounters?
    }
  }

  // What became of a connection that is over: in its handshake, as a raw session, or with records.
  // `read` are the handshake bytes read from it.
  datatype Story =
    | Spoke(key: Bytes, random: Bytes, read: Bytes)
    | CarriedRaw(key: Bytes, random: Bytes, read: Bytes, accepted: Bytes)
    | CarriedRecords(key: Bytes, random: Bytes, read: Bytes, accepted: Bytes, aead: IdealAead)

  datatype Over = Over(client: Client, story: Story)

  ghost function KeyOf(story: Story): set<IdealAead> {
    if story.CarriedRecords? then {story.aead} else {}
  }

  // The wire of a connection carries the replies to what was read from it; behind those, once the
  // session is ready, a part of what was accepted, in records each sealed under its own number.
  ghost predicate Accounts(h: Hash, story: Story, arrived: Bytes, wire: Bytes, records: Log)
    requires Sized(h)
  {
    var s := Run(h, story.key, story.random, story.read);
    && story.read <= arrived
    && match story
       case Spoke(key, random, read) => Answers(h, key, random, START, read, wire)
       case CarriedRaw(_, _, _, accepted) =>
         s.phase.InRaw? && s.control <= wire <= s.control + accepted
       case CarriedRecords(_, _, _, accepted, _) =>
         && s.phase.InSecure? && WellNumbered(records, s.phase.keys.deviceToHostPrefix)
         && Plain(records) == accepted && s.control <= wire <= s.control + Wire(records)
  }

  ghost predicate Explained(h: Hash, p: Over)
    requires Sized(h)
    reads p.client, KeyOf(p.story)
  {
    Accounts(h, p.story, p.client.arrived, p.client.wire, if p.story.CarriedRecords? then p.story.aead.log else [])
  }

  ghost function StoryOf(a: View, written: Bytes): Story {
    if a.Secure() then CarriedRecords(a.key, a.random, a.received, a.accepted + written, a.txAead)
    else CarriedRaw(a.key, a.random, a.received, a.accepted + written)
  }

  // A session that was ready when last seen.
  lemma ReadyStory(h: Hash, a: View, c: Client, written: Bytes)
    requires Sized(h) && Known(h, a) && a.Ready() && !a.session.phase.Closed? && a.arrived == c.arrived
    requires OnWire(a, a.txAead, a.txAead.log, c.wire, written)
    ensures Explained(h, Over(c, StoryOf(a, written)))
  {
    hide Run, Wire, Plain, WellNumbered;
    Regroup(a.received, a.taken, a.inbound);
    assert a.session.control <= a.session.control + a.sent;
  }

  // One that was in its handshake.
  lemma HandshakeStory(h: Hash, a: View, c: Client) returns (story: Story)
    requires Sized(h) && Known(h, a) && Sound(a) && !a.Ready() && a.arrived == c.arrived && Replied(h, a, c.wire)
    ensures story.Spoke? && Explained(h, Over(c, story))
  {
    hide DeviceOnHello, DeviceOnAuth;
    var random, read :| read <= a.inbound && Answers(h, a.key, random, a.session, read, c.wire);
    FeedConcat(h, a.key, a.random, START, a.received, read);
    FeedConcat(h, a.key, random, START, a.received, read);
    Regroup(a.received, a.taken, a.inbound);
    assert a.received + [] == a.received;
    if a.session.phase.AwaitingHello? {
      RandomUnused(h, a.key, a.random, random, START, a.received);
      story := Spoke(a.key, random, a.received + read);
    } else {
      RandomUnusedLater(h, a.key, a.random, random, a.session, read);
      story := Spoke(a.key, a.random, a.received + read);
    }
  }

  lemma DeadWire(h: Hash, a: View, wire: Bytes)
    requires Sized(h) && LastWire(h, a, wire)
    ensures !a.up ==> wire == a.wire
  {
  }

  lemma SoundWire(v: View)
    requires Sound(v) && v.Ready()
    ensures OnWire(v, v.txAead, v.txLog, v.wire, [])
  {
  }

  ghost function Clients(past: seq<Over>): set<Client> {
    set p | p in past :: p.client
  }

  ghost function Keys(past: seq<Over>): set<IdealAead> {
    set p | p in past && p.story.CarriedRecords? :: p.story.aead
  }

  lemma OneMore(past: seq<Over>, p: Over)
    ensures Clients(past + [p]) == Clients(past) + {p.client}
    ensures Keys(past + [p]) == Keys(past) + KeyOf(p.story)
  {
    var more := past + [p];
    assert forall q :: q in more <==> q in past || q == p;
    forall c | c in Clients(past) + {p.client} ensures c in Clients(more) {
      if c in Clients(past) {
        var q :| q in past && q.client == c;
        assert q in more;
      } else {
        assert p in more;
      }
    }
    forall k | k in Keys(past) + KeyOf(p.story) ensures k in Keys(more) {
      if k in Keys(past) {
        var q :| q in past && q.story.CarriedRecords? && q.story.aead == k;
        assert q in more;
      } else {
        assert p in more;
      }
    }
  }

  class History {
    const device: ESPNetworkSerialTCP
    ghost var past: seq<Over>        // every connection that is over
    ghost var held: seq<Client>      // every connection the device has taken
    ghost var made: seq<Call>        // every call

    // The connections that are over are explained, and no other one has been taken but the one that
    // is up; no two sessions have had the same key object.
    ghost predicate Valid()
      reads this, device, device.rx, device.rx.rxRecordHeader, device.rx.rxCipher, device.rx.rxTag, device.rx.rxPlain,
            device.rx.rxAead, device.tx, device.tx.txPending, device.tx.txAead, device.handshakeBuffer, device.client,
            Clients(past), Keys(past)
    {
      && device.Valid() && Sized(device.h)
      && Explains()
      && (device.client.up ==> device.client !in Clients(past) && device.client in held)
      && (forall c :: c in held ==> c in Clients(past) || (c == device.client && c.up))
      && (device.client.up && device.protocolReady && device.tx.secureMode ==> device.tx.txAead !in Keys(past))
    }

    static ghost predicate OwnKeys(past: seq<Over>) {
      forall i, j :: 0 <= i < j < |past| && past[i].story.CarriedRecords? && past[j].story.CarriedRecords? ==>
        past[i].story.aead != past[j].story.aead
    }

    constructor (h: Hash)
      requires Sized(h)
      ensures Valid() && device.h == h && past == [] && held == [] && made == []
    {
      device := new ESPNetworkSerialTCP(h);
      past, held, made := [], [], [];
    }


    // ---- Bookkeeping -------------------------------------------------------------------------------

    ghost predicate Explains()
      requires Sized(device.h)
      reads this, Clients(past), Keys(past)
    {
      (forall p :: p in past ==> Explained(device.h, p)) && OwnKeys(past)
    }

    ghost method Add(p: Over)
      requires Sized(device.h) && Explains() && Explained(device.h, p) && KeyOf(p.story) !! Keys(past)
      modifies this`past
      ensures Explains() && past == old(past) + [p]
      ensures Clients(past) == old(Clients(past)) + {p.client} && Keys(past) == old(Keys(past)) + KeyOf(p.story)
    {
      hide Accounts;
      ghost var before := past;
      OneMore(past, p);
      past := past + [p];
      assert forall q :: q in past ==> q in before || q == p;
      assert forall q :: q in past ==> Explained(device.h, q);
      forall i, j | 0 <= i < j < |past| && past[i].story.CarriedRecords? && past[j].story.CarriedRecords?
        ensures past[i].story.aead != past[j].story.aead
      {
        assert past[i] == before[i] && past[i] in before && past[i].story.aead in Keys(before);
        if j < |before| {
          assert past[j] == before[j];
        } else {
          assert past[j] == p && p.story.aead in KeyOf(p.story);
        }
      }
    }

    // What is known of the connection found, `found`, last seen as `a`.
    ghost predicate Found(a: View)
      requires Sized(device.h)
      reads this, a.client, a.txAead
    {
      && Sound(a) && (a.up ==> Known(device.h, a) && a.client !in Clients(past) && a.client in held)
      && (forall c :: c in held ==> c in Clients(past) || (c == a.client && a.up))
      && (a.up && a.Secure() ==> a.txAead !in Keys(past))
      && a.client.arrived == a.arrived
    }

    // It is over.
    ghost method FoundOver(a: View)
      requires Sized(device.h) && Explains() && Found(a) && a.up
      requires LastWire(device.h, a, a.client.wire) && (a.Ready() ==> a.txAead.log == a.txLog)
      modifies this`past
      ensures Explains() && old(past) <= past && Clients(past) == old(Clients(past)) + {a.client}
      ensures Keys(past) == old(Keys(past)) + (if a.Secure() then {a.txAead} else {})
    {
      hide Accounts, Explains, OnWire, Replied, Known;
      if a.Ready() {
        ReadyStory(device.h, a, a.client, []);
        Add(Over(a.client, StoryOf(a, [])));
      } else {
        ghost var story := HandshakeStory(device.h, a, a.client);
        Add(Over(a.client, story));
      }
    }

    // After a call that found `a`, met `met` once it had looked after its connections, and was given
    // `written` by the application.
    ghost predicate Left(a: View, met: View, written: Bytes)
      requires device.Valid() && Sized(device.h)
      reads this, device, device.rx, device.rx.rxRecordHeader, device.rx.rxCipher, device.rx.rxTag, device.rx.rxPlain,
            device.rx.rxAead, device.tx, device.tx.txPending, device.tx.txAead, device.handshakeBuffer, device.client,
            a.client, a.txAead, met.client, met.txAead
    {
      && met.client == device.client
      && LastWire(device.h, a, if met.client == a.client then met.wire else a.client.wire)
      && (device.client.up ==> met.up) && (met.client == a.client && met.up ==> a.up)
      && (!(met.up && met.Ready()) ==> met == device.Seen() && (met.client != a.client ==> device.NewWire()))
      && (met.up && met.Ready() ==>
            && Known(device.h, met) && Sound(met) && met.arrived == met.client.arrived
            && OnWire(met, met.txAead, met.txAead.log, met.client.wire, written))
      && (met.client != a.client ==> met.client !in Clients(past) && met.client !in held)
      && (a.up && a.Ready() && (met.client != a.client || !met.up) ==> a.txAead.log == a.txLog)
      && (met.up && met.Secure() ==>
            met.txAead !in Keys(past) && ((met.client == a.client && a.Ready()) || met.txAead != a.txAead))
      && (device.client.up && device.protocolReady && device.tx.secureMode ==>
            met.Secure() && device.tx.txAead == met.txAead)
    }

    ghost method Settle(a: View, met: View, written: Bytes)
      requires device.Valid() && Sized(device.h) && Explains() && Found(a) && Left(a, met, written)
      modifies this`past, this`held
      ensures Valid() && old(past) <= past && old(held) <= held
      ensures met.client != a.client ==> met.client in held
    {
      hide Accounts, Clients, Keys, OwnKeys, OnWire, Sound, Known, LastWire, Answers, ESPNetworkSerialTCP.Valid;
      device.Sees();
      if a.up && (met.client != a.client || !met.up) {
        FoundOver(a);
      }
      if met.client != a.client {
        held := held + [met.client];
      }
      if !device.client.up && (met.client != a.client || met.up) {
        NewOver(met, written);
      }
    }

    ghost method NewOver(met: View, written: Bytes)
      requires device.Valid() && Sized(device.h) && Explains() && met.client == device.client
      requires if met.up && met.Ready() then
                 && Known(device.h, met) && Sound(met) && met.arrived == met.client.arrived
                 && OnWire(met, met.txAead, met.txAead.log, met.client.wire, written)
                 && (met.Secure() ==> met.txAead !in Keys(past))
               else device.NewWire()
      modifies this`past
      ensures Explains() && old(past) <= past && Clients(past) == old(Clients(past)) + {met.client}
    {
      hide Accounts, Explains, OnWire, Known, Answers, ESPNetworkSerialTCP.Valid;
      if met.up && met.Ready() {
        ReadyStory(device.h, met, met.client, written);
        Add(Over(met.client, StoryOf(met, written)));
      } else {
        ghost var random, read :| read <= device.client.arrived
                                  && Answers(device.h, device.authKey, random, START, read, device.client.wire);
        SpokeStory(device.h, Spoke(device.authKey, random, read), device.client);
        Add(Over(device.client, Spoke(device.authKey, random, read)));
      }
    }

    lemma SpokeStory(h: Hash, story: Story, c: Client)
      requires Sized(h) && story.Spoke? && story.read <= c.arrived
      requires Answers(h, story.key, story.random, START, story.read, c.wire)
      ensures Explained(h, Over(c, story))
    {
    }

    lemma Listed()
      ensures forall p :: p in past ==> p.client in Clients(past)
      ensures forall p :: p in past && p.story.CarriedRecords? ==> p.story.aead in Keys(past)
    {
    }

    // ---- Calls -------------------------------------------------------------------------------------

    // The calls that look after the connection and accept no data.
    method ServingCall(call: Call, buffer: array<byte>, ghost clients: set<Client>, ghost keys: set<IdealAead>)
      returns (ghost handed: Bytes)
      requires device.Valid() && device.Foreign(buffer) && (call.ReadBulk? ==> call.size <= buffer.Length)
      requires call.Serving()
      modifies device, device.rx, device.rx.rxRecordHeader, device.rx.rxCipher, device.rx.rxTag, device.rx.rxPlain,
               device.tx, device.handshakeBuffer, device.client,
               device.server, buffer
      ensures device.Valid() && device.SameOrNew() && device.Settled(old(device.client))
      ensures device.client == old(device.client) && device.client.up ==> old(device.client.up)
      ensures device.client != old(device.client) ==> device.client !in clients
      ensures device.tx.txAead != old(device.tx.txAead) ==> device.tx.txAead !in keys
      ensures CallStep(old(device.Seen()), device.Seen(), handed)
      ensures !device.protocolReady ==> handed == []
      ensures SameKeySameSession()
      ensures (call.ReadBulk? && call.size == 0) || device.Looked()
    {
      hide ESPNetworkSerialTCP.Valid, ESPNetworkSerialTCP.Seen, LastWire, ESPNetworkSerialTCP.NewWire, DataStep,
           KeepsUnread, Fate, HandleStep;
      ghost var a := device.Seen();
      device.Sees();
      handed := [];
      match call {
        case Handle(now) => ghost var _ := device.Handle(now);
        case Flush(now) => device.Flush(now);
        case Connected(now) => var _ := device.Connected(now);
        case Available(now) => var _ := device.Available(now);
        case Peek(now) => var _ := device.Peek(now);
        case Read(now) =>
          var value, met := device.Read(now);
          handed := ByteOrNone(value);
        case ReadBulk(size, now) =>
          var count, met := device.ReadBulk(buffer, size, now);
          handed := buffer[..count];
      }
      device.Sees();
    }

    // What can be told of a call from the device alone.
    twostate predicate Did(call: Call)
      reads device, device.client, device.server, device.tx
    {
      match call
      case SetAuthKey(key) =>
        key.Some? && AUTH_KEY_MIN <= |BeforeNul(key.value)| <= AUTH_KEY_MAX ==>
          device.authKey == BeforeNul(key.value) && !device.client.up
      case ClearAuthKey => device.authKey == [] && !device.client.up
      case Begin => device.started
      case End => !device.started && !device.client.up
      case DisconnectClient => !device.client.up
      case ClearTxDropCounters => device.tx.trueDroppedBytes == device.tx.trueDroppedWrites == 0
      case Arrives(bytes) =>
        device.client == old(device.client) && device.client.arrived == old(device.client.arrived) + bytes
      case ReadBulk(size, _) => size > 0 ==> device.Looked()
      case _ => device.Looked()
    }

    // Nothing is forgotten, and a connection just taken is listed.
    twostate predicate Remembers()
      reads this, device
    {
      old(past) <= past && old(held) <= held && (device.client == old(device.client) || device.client in held)
    }

    twostate predicate SameKeySameSession()
      reads device, device.tx
    {
      device.protocolReady && device.tx.secureMode && device.tx.txAead == old(device.tx.txAead) ==>
        device.client == old(device.client) && old(device.protocolReady && device.tx.secureMode)
    }

    twostate predicate NewClientAndKey()
      reads device, device.tx
    {
      && (device.client == old(device.client) || fresh(device.client))
      && (device.tx.txAead == old(device.tx.txAead) || fresh(device.tx.txAead))
    }

    // The calls that at most end the session.
    method QuietCall(call: Call)
      requires device.Valid() && call.Quiet()
      modifies device, device.rx, device.tx, device.client
      ensures device.Valid() && device.client == old(device.client)
      ensures device.client.wire == old(device.client.wire) && device.client.arrived == old(device.client.arrived)
      ensures device.client.up ==> device.Seen() == old(device.Seen())
      ensures device.protocolReady ==> device.Seen() == old(device.Seen()).(key := device.authKey)
      ensures device.tx.txAead == old(device.tx.txAead) && Did(call)
    {
      hide ESPNetworkSerialTCP.Valid, ESPNetworkSerialTCP.Seen;
      device.Sees();
      match call {
        case SetAuthKey(key) => var _ := device.SetAuthKey(key);
        case ClearAuthKey => device.ClearAuthKey();
        case Begin => device.Begin();
        case End => device.End();
        case DisconnectClient => device.DisconnectClient();
        case ClearTxDropCounters => device.ClearTxDropCounters();
      }
      device.Sees();
    }

    method QuietStep(call: Call)
      requires Valid() && call.Quiet()
      modifies this`past, this`held, device, device.rx, device.tx, device.client
      ensures Valid() && NewClientAndKey() && Remembers() && Did(call)
    {
      hide Did, Accounts, Clients, Keys, OwnKeys, OnWire, Sound, Known, Answers, ESPNetworkSerialTCP.Valid,
           ESPNetworkSerialTCP.Seen;
      ghost var a := device.Seen();
      device.Sees();
      device.SeenKnown();
      NothingSaid(device.h, a);
      QuietCall(call);
      device.Sees();
      device.SeenKnown();
      Settle(a, device.Seen(), []);
    }

    method ServingStep(call: Call, buffer: array<byte>)
      requires Valid() && device.Foreign(buffer) && (call.ReadBulk? ==> call.size <= buffer.Length)
      requires call.Serving()
      modifies this`past, this`held, device, device.rx, device.rx.rxRecordHeader, device.rx.rxCipher, device.rx.rxTag,
               device.rx.rxPlain, device.tx, device.handshakeBuffer, device.client,
               device.server, buffer
      ensures Valid() && NewClientAndKey() && Remembers()
      ensures (call.ReadBulk? && call.size == 0) || device.Looked()
    {
      hide ESPNetworkSerialTCP.Looked, CallStep, SameKeySameSession, LastWire, Accounts, Clients, Keys, OwnKeys, OnWire,
           Sound, Known, Answers, Replied, ESPNetworkSerialTCP.Valid, ESPNetworkSerialTCP.Seen;
      ghost var a := device.Seen();
      device.SeesWire();
      device.SeesKey();
      device.SeesLog();
      device.SeenKnown();
      Listed();
      ghost var _ := ServingCall(call, buffer, Clients(past), Keys(past));
      DeadWire(device.h, a, old(device.client).wire);
      device.SeesWire();
      device.SeesKey();
      device.SeesLog();
      device.SeenKnown();
      if device.Seen().Ready() {
        SoundWire(device.Seen());
      }
      Settle(a, device.Seen(), []);
    }

    method WritingCall(data: Bytes, now: nat, ghost clients: set<Client>, ghost keys: set<IdealAead>)
      returns (ghost met: View, ghost written: Bytes)
      requires device.Valid()
      modifies device, device.rx, device.rx.rxRecordHeader, device.rx.rxCipher, device.rx.rxTag, device.rx.rxPlain,
               device.tx, device.tx.txPending, device.tx.txAead, device.handshakeBuffer, device.client,
               device.server
      ensures device.Valid() && Sized(device.h) && met.client == device.client && Sound(met)
      ensures written <= data
      ensures LastWire(device.h, old(device.Seen()),
                       if met.client == old(device.client) then met.wire else old(device.client).wire)
      ensures old(device.client).arrived == old(device.client.arrived) && met.arrived == device.client.arrived
      ensures (device.client.up ==> met.up) && (met.client == old(device.client) && met.up ==> old(device.client.up))
      ensures !(met.up && met.Ready()) ==>
                met == device.Seen() && (device.client != old(device.client) ==> device.NewWire())
      ensures met.up && met.Ready() ==>
                Known(device.h, met) && OnWire(met, met.txAead, met.txAead.log, device.client.wire, written)
      ensures device.client != old(device.client) ==> device.client !in clients
      ensures met.Secure() ==>
                if device.client == old(device.client) && old(device.protocolReady)
                then met.txAead == old(device.tx.txAead) && old(device.tx.secureMode)
                else met.txAead !in keys && met.txAead != old(device.tx.txAead)
      ensures device.protocolReady && device.tx.secureMode ==> met.Secure() && device.tx.txAead == met.txAead
      ensures !(met.Secure() && met.up && met.txAead == old(device.tx.txAead)) ==>
                old(device.tx.txAead).log == old(device.tx.txAead.log)
      ensures device.tx.txAead == met.txAead && (met.txAead == old(device.tx.txAead) || fresh(met.txAead))
      ensures device.client == old(device.client) || fresh(device.client)
      ensures CallStep(old(device.Seen()), met, []) && DataStep(met, device.Seen(), [], written)
      ensures SameKeySameSession() && device.Looked()
    {
      hide OnWire, Sound, Known, LastWire, Answers, DataStep, Fate, ESPNetworkSerialTCP.Valid, ESPNetworkSerialTCP.Seen;
      device.Sees();
      ghost var a := device.Seen();
      var total;
      total, met := device.Write(data, now);
      written := data[..total];
      device.Sees();
      AfterData(met, device.Seen(), [], written);
    }

    method WritingStep(data: Bytes, now: nat)
      requires Valid()
      modifies this`past, this`held, device, device.rx, device.rx.rxRecordHeader, device.rx.rxCipher, device.rx.rxTag,
               device.rx.rxPlain, device.tx, device.tx.txPending, device.tx.txAead, device.handshakeBuffer, device.client,
               device.server
      ensures Valid() && NewClientAndKey() && Remembers() && device.Looked()
    {
      hide ESPNetworkSerialTCP.Looked, CallStep, DataStep, SameKeySameSession, LastWire, Accounts, Clients, Keys, OwnKeys,
           OnWire, Sound, Known, Answers, Replied, ESPNetworkSerialTCP.Valid, ESPNetworkSerialTCP.Seen;
      ghost var a := device.Seen();
      device.Sees();
      device.SeenKnown();
      Listed();
      ghost var met, written := WritingCall(data, now, Clients(past), Keys(past));
      DeadWire(device.h, a, if met.client == a.client then met.wire else a.client.wire);
      device.Sees();
      Settle(a, met, written);
    }

    // Bytes arrive on the connection in place.
    method ArrivalStep(bytes: Bytes)
      requires Valid()
      modifies device.client`inbound, device.client`arrived
      ensures Valid() && Did(Arrives(bytes))
    {
      hide Accounts, Clients, Keys, OwnKeys, ESPNetworkSerialTCP.Valid;
      Listed();
      device.Receive(bytes);
      forall p | p in past ensures Explained(device.h, p) {
        MoreArrives(device.h, p.story, old(p.client.arrived), p.client.arrived, p.client.wire,
                    if p.story.CarriedRecords? then p.story.aead.log else []);
      }
    }

    method BufferedStep(call: Call, size: nat)
      requires Valid() && (call.ReadBulk? ==> call.size == size)
      requires call.Serving()
      modifies this`past, this`held, device, device.rx, device.rx.rxRecordHeader, device.rx.rxCipher, device.rx.rxTag,
               device.rx.rxPlain, device.tx, device.handshakeBuffer, device.client,
               device.server
      ensures Valid() && NewClientAndKey() && Remembers()
      ensures (call.ReadBulk? && call.size == 0) || device.Looked()
    {
      hide Accounts, Clients, Keys, OwnKeys, ESPNetworkSerialTCP.Valid;
      var buffer := new byte[size];
      ServingStep(call, buffer);
    }

    // Any call at all.
    method Step(call: Call)
      requires Valid()
      modifies this, device, device.rx, device.rx.rxRecordHeader, device.rx.rxCipher, device.rx.rxTag,
               device.rx.rxPlain, device.tx, device.tx.txPending, device.tx.txAead, device.handshakeBuffer, device.client,
               device.server
      ensures Valid() && NewClientAndKey() && Remembers() && Did(call) && made == old(made) + [call]
    {
      hide Valid, ESPNetworkSerialTCP.Looked;
      match call {
        case Arrives(bytes) => ArrivalStep(bytes);
        case Write(data, now) => WritingStep(data, now);
        case SetAuthKey(_) => QuietStep(call);
        case ClearAuthKey => QuietStep(call);
        case Begin => QuietStep(call);
        case End => QuietStep(call);
        case DisconnectClient => QuietStep(call);
        case ClearTxDropCounters => QuietStep(call);
        case Handle(_) => BufferedStep(call, 0);
        case Flush(_) => BufferedStep(call, 0);
        case Connected(_) => BufferedStep(call, 0);
        case Available(_) => BufferedStep(call, 0);
        case Peek(_) => BufferedStep(call, 0);
        case Read(_) => BufferedStep(call, 0);
        case ReadBulk(size, _) => BufferedStep(call, size);
      }
      Note(call);
    }

    ghost method Note(call: Call)
      requires Valid()
      modifies this`made
      ensures Valid() && made == old(made) + [call]
    {
      hide Accounts, Clients, Keys, OwnKeys, ESPNetworkSerialTCP.Valid;
      made := made + [call];
    }

    // Any run: whatever calls in whatever order, every connection that is over is explained, and every
    // session that carried records had a key of its own.
    method AnyRun(calls: seq<Call>)
      requires Valid()
      modifies this, device, device.rx, device.rx.rxRecordHeader, device.rx.rxCipher, device.rx.rxTag,
               device.rx.rxPlain, device.tx, device.tx.txPending, device.tx.txAead, device.handshakeBuffer, device.client,
               device.server
      ensures Valid() && Remembers() && made == old(made) + calls
    {
      hide Valid;
      for k := 0 to |calls|
        invariant Valid() && NewClientAndKey() && Remembers() && made == old(made) + calls[..k]
      {
        Step(calls[k]);
      }
    }

    // ---- What every run keeps ------------------------------------------------------------------------

    lemma StillSpeaking()
      requires device.Valid() && Sized(device.h) && device.client.up && !device.protocolReady
      ensures Explained(device.h, Over(device.client, Spoke(device.authKey, device.serverRandom, device.received)))
    {
      device.Opened();
      Regroup(device.received, device.taken, device.client.inbound);
    }

    // No session of a run, over or not, has sealed two records under one nonce, and no two have
    // shared a key.
    lemma NoNonceTwice(p: Over)
      requires Valid() && p in past && p.story.CarriedRecords?
      ensures Distinct(Nonces(p.story.aead.log))
      ensures forall q :: q in past && q.story.CarriedRecords? && q.story.aead == p.story.aead ==> q == p
      ensures device.client.up && device.protocolReady && device.tx.secureMode ==>
                Distinct(Nonces(device.tx.txAead.log)) && device.tx.txAead != p.story.aead
    {
      hide Plain, Wire, WellNumbered, Nonces, Distinct, ESPNetworkSerialTCP.Valid, DeviceHandshake.Run;
      Listed();
      var s := DeviceHandshake.Run(device.h, p.story.key, p.story.random, p.story.read);
      NumberedDistinct(p.story.aead.log, s.phase.keys.deviceToHostPrefix);
      forall q | q in past && q.story.CarriedRecords? && q.story.aead == p.story.aead ensures q == p {
        var i, j :| 0 <= i < |past| && 0 <= j < |past| && past[i] == p && past[j] == q;
        assert i < j || j < i || i == j;
      }
      device.Sees();
      if device.protocolReady && device.tx.secureMode {
        SoundWire(device.Seen());
        NumberedDistinct(device.tx.txAead.log, device.Seen().TxPrefix());
      }
    }

    // The connection that is up is explained by what it has carried so far.
    lemma NowExplained()
      requires Valid() && device.client.up
      ensures var read := device.received;
              Explained(device.h, Over(device.client,
                if device.protocolReady then StoryOf(device.Seen(), [])
                else Spoke(device.authKey, device.serverRandom, read)))
    {
      hide Accounts, OnWire, Known, Explains, Clients, Keys, ESPNetworkSerialTCP.Valid;
      device.Sees();
      device.SeenKnown();
      if device.protocolReady {
        SoundWire(device.Seen());
        ReadyStory(device.h, device.Seen(), device.client, []);
      } else {
        StillSpeaking();
      }
    }

    // Every connection the device has ever taken carries what its handshake and its session owe.
    lemma EveryConnectionExplained(c: Client)
      requires Valid() && c in held
      ensures exists story :: Explained(device.h, Over(c, story))
    {
      hide Accounts, ESPNetworkSerialTCP.Valid, ESPNetworkSerialTCP.Seen;
      if c in Clients(past) {
        var p :| p in past && p.client == c;
        assert p == Over(c, p.story);
      } else {
        NowExplained();
      }
    }
  }

  lemma NumberedDistinct(log: Log, prefix: Bytes)
    requires WellNumbered(log, prefix)
    ensures Distinct(Nonces(log))
  {
    hide Nonces;
    NoncesDistinct(log, prefix);
    forall i, j | 0 <= i < j < |log| ensures Nonces(log)[i] != Nonces(log)[j] {
      NonceAt(log, i);
      NonceAt(log, j);
    }
  }

  lemma MoreArrives(h: Hash, story: Story, arrived: Bytes, later: Bytes, wire: Bytes, records: Log)
    requires Sized(h) && Accounts(h, story, arrived, wire, records) && arrived <= later
    ensures Accounts(h, story, later, wire, records)
  {
  }
}
