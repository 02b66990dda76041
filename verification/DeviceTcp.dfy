/** The device endpoint: client replacement, handshake, key changes, and the data path through
    the record receiver and transmitter. */
module DeviceTcp {
  import opened ByteStrings
  import opened Aead
  import opened RecordLayer
  import opened Sockets
  import opened ControlFields
  import opened ControlLines
  import opened Hkdf
  import opened Hex
  import opened Handshake
  import opened DeviceHandshake
  import opened DeviceView
  import opened RecordReceiver
  import opened RecordTransmitter

  // What became of one chunk of a write: not staged, the session lost, still pending, or sent.
  datatype ChunkOutcome = NotStaged | Gone | Blocked | Clear

  datatype HandshakeState = WaitingHello | WaitingAuth | Ready

  class ESPNetworkSerialTCP {
    const h: Hash
    const server: Server
    var client: Client
    var started: bool
    var protocolReady: bool
    var handshakeState: HandshakeState
    var handshakeStartedAt: nat
    const handshakeBuffer: array<char>
    var handshakeLength: nat
    var authKey: Bytes
    var clientNonceHex: string
    var serverNonceHex: string
    var txKey: Bytes
    var rxKey: Bytes
    const rx: Receiver
    const tx: Transmitter

    ghost var control: Bytes    // handshake bytes put on this client's wire
    ghost var received: Bytes   // handshake bytes read from this client
    ghost var taken: Bytes      // data bytes read from this client
    ghost var serverRandom: Bytes   // what the server nonce is, or will be, made from

    ghost predicate Shape()
      reads this, rx, rx.rxRecordHeader, rx.rxCipher, rx.rxTag, rx.rxPlain, tx
    {
      && Sized(h)
      && handshakeBuffer.Length == LINE_LIMIT
      && rx.Buffers() && tx.txPending.Length == PENDING_SIZE && tx.Counters()
      && tx.txPending != rx.rxPlain && tx.txPending != rx.rxCipher && rx.rxAead != tx.txAead
    }

    // What a connected, ready client may rely on: secure exactly when a key is configured, and
    // then with the keys that key derives for this session's nonces.
    ghost predicate Mode()
      reads this, rx, tx, client
    {
      && (protocolReady <==> handshakeState == Ready)
      && (!protocolReady ==> !tx.secureMode && tx.sent == [] && tx.accepted == [] && !tx.discarded)
      && (client.up && handshakeState == WaitingAuth ==>
            authKey != [])
      && (client.up && protocolReady ==> !tx.discarded && (tx.secureMode <==> authKey != []))
      && (client.up && protocolReady && tx.secureMode ==>
            Sized(h) && DeviceKeys(h, authKey, clientNonceHex, serverNonceHex)
                        == Some(SessionKeys(rxKey, txKey, rx.rxNoncePrefix, tx.txNoncePrefix)))
    }

    ghost function CurrentPhase(): Phase
      requires handshakeLength <= handshakeBuffer.Length
      reads this, handshakeBuffer, rx, tx
    {
      match handshakeState
      case WaitingHello => AwaitingHello(handshakeBuffer[..handshakeLength])
      case WaitingAuth => AwaitingAuth(clientNonceHex, serverNonceHex, handshakeBuffer[..handshakeLength])
      case Ready =>
        if tx.secureMode then InSecure(SessionKeys(rxKey, txKey, rx.rxNoncePrefix, tx.txNoncePrefix)) else InRaw
    }

    ghost function CurrentSession(): Session
      requires handshakeLength <= handshakeBuffer.Length
      reads this, handshakeBuffer, rx, tx
    {
      Session(CurrentPhase(), control)
    }

    ghost predicate Core()
      reads this, rx, rx.rxRecordHeader, rx.rxCipher, rx.rxTag, rx.rxPlain, tx, tx.txPending, tx.txAead,
            handshakeBuffer, client
    {
      && Shape() && rx.Valid() && tx.Valid()
      && handshakeLength < LINE_LIMIT
      && client.wire == control + tx.sent
      && Mode()
      && |serverRandom| == NONCE_SIZE && (!protocolReady ==> taken == [])
    }

    // The session is what the handshake bytes read have made it: phase, nonces, keys, and every
    // line sent.
    ghost predicate Traced()
      requires Sized(h) && handshakeLength <= handshakeBuffer.Length
      reads this, handshakeBuffer, rx, tx, client
    {
      client.up ==> Run(h, authKey, serverRandom, received) == CurrentSession()
    }

    // Every byte that arrived was a handshake byte, was taken as data, or is still unread.
    ghost predicate AllReceived()
      reads this, client
    {
      client.up ==> client.arrived == received + taken + client.inbound
    }

    ghost predicate Valid()
      reads this, rx, rx.rxRecordHeader, rx.rxCipher, rx.rxTag, rx.rxPlain, tx, tx.txPending, tx.txAead,
            handshakeBuffer, client
    {
      Core() && Traced() && AllReceived()
    }

    ghost function Seen(): View
      requires Valid()
      reads this, rx, rx.rxRecordHeader, rx.rxCipher, rx.rxTag, rx.rxPlain, rx.rxAead, tx, tx.txPending, tx.txAead,
            handshakeBuffer, client
    {
      View(client, client.up, client.faults + tx.sealFailures, client.inbound, client.arrived, client.wire,
           authKey, serverRandom, CurrentSession(), handshakeStartedAt, received,
           rx.rxAead, rx.rxAead.log, rx.State(), rx.Unread(), taken, rx.delivered,
           tx.txAead, tx.txAead.log, tx.accepted, tx.sent, tx.PendingTxBytes())
    }

    lemma Sees()
      requires Valid()
      ensures Sized(h) && rx.Valid() && (Seen().Ready() <==> protocolReady)
      ensures Seen().client == client && Seen().up == client.up && Seen().pending == tx.PendingTxBytes()
      ensures Seen().Secure() <==> protocolReady && tx.secureMode
      ensures Seen().accepted == tx.accepted && Seen().delivered == rx.delivered && Seen().unread == rx.Unread()
      ensures Seen().faults == client.faults + tx.sealFailures && Seen().inbound == client.inbound
      ensures Seen().session == CurrentSession() && Seen().received == received && Seen().startedAt == handshakeStartedAt
      ensures Seen().key == authKey && Seen().random == serverRandom && Seen().arrived == client.arrived
      ensures Seen().wire == client.wire && Seen().txAead == tx.txAead && Seen().txLog == tx.txAead.log
      ensures Sound(Seen()) && Seen().state == Receiving(rx.Partial(), rx.rxSequence, rx.delivered + rx.Unread())
    {
      hide DeviceKeys, WellNumbered, Wire, Plain, HeaderOk, LengthOf, SequenceOf, Run;
      NoMore(tx.accepted);
      if protocolReady {
        SentSoFar(Seen(), []);
      }
    }

    lemma SeesKey()
      requires Valid()
      ensures (Seen().Ready() <==> protocolReady) && (Seen().Secure() <==> protocolReady && tx.secureMode)
      ensures Seen().txAead == tx.txAead && Seen().session == CurrentSession()
    {
    }

    lemma SeesLog()
      requires Valid()
      ensures Sound(Seen()) && Seen().txLog == tx.txAead.log && Seen().pending == tx.PendingTxBytes()
    {
      hide Sound, CurrentSession;
      Sees();
    }

    lemma SeesWire()
      requires Valid()
      ensures Sized(h) && Seen().client == client && Seen().wire == client.wire
      ensures Seen().key == authKey && Seen().arrived == client.arrived && Seen().up == client.up
    {
    }

    lemma SeenKnown()
      requires Valid()
      ensures Sized(h) && (client.up ==> Known(h, Seen()))
    {
      hide Run;
    }

    // What is on the wire of a ready session, whether or not it is about to be closed.
    lemma SentSoFar(before: View, written: Bytes)
      requires tx.txPending.Length == PENDING_SIZE && tx.Valid() && before.Ready()
      requires before.Secure() <==> tx.secureMode
      requires before.Secure() ==> before.TxPrefix() == tx.txNoncePrefix
      requires before.txAead == tx.txAead && before.txLog <= tx.txAead.log
      requires written == [] || !before.Secure() ==> before.txLog == tx.txAead.log
      requires tx.accepted == before.accepted + written
      requires before.sent <= tx.sent && client.wire == before.session.control + tx.sent
      ensures OnWire(before, tx.txAead, tx.txAead.log, client.wire, written)
    {
      hide WellNumbered, Wire, Plain;
      assert tx.sent <= tx.Due();
    }

    constructor (h: Hash)
      requires Sized(h)
      ensures Valid() && this.h == h && !client.up && !protocolReady && authKey == []
    {
      hide Receiver.Valid, Transmitter.Valid, Valid;
      this.h := h;
      client := new Client(false, []);
      var rxAead := new IdealAead();
      var txAead := new IdealAead();
      rx := new Receiver(rxAead);
      tx := new Transmitter(txAead);
      handshakeBuffer := new char[LINE_LIMIT];
      started, protocolReady, handshakeState, handshakeStartedAt, handshakeLength := false, false, WaitingHello, 0, 0;
      authKey, clientNonceHex, serverNonceHex, txKey, rxKey := [], "", "", [], [];
      control, received, taken := [], [], [];
      serverRandom := seq(NONCE_SIZE, _ => 0);
      server := new Server();
      new;
      NothingYet();
    }

    lemma NothingYet()
      requires Sized(h) && rx.Valid() && tx.Valid() && tx.txPending !in {rx.rxPlain, rx.rxCipher} && rx.rxAead != tx.txAead
      requires handshakeBuffer.Length == LINE_LIMIT && handshakeLength == 0 && handshakeState == WaitingHello
      requires !client.up && !protocolReady && client.wire == control == [] && taken == [] && |serverRandom| == NONCE_SIZE
      requires !tx.secureMode && tx.sent == [] && tx.accepted == [] && !tx.discarded
      ensures Valid()
    {
      hide DeviceKeys, WellNumbered, Wire, Plain, HeaderOk, LengthOf, SequenceOf, Run;
      assert client.wire == control + tx.sent;
    }

    method ResetHandshakeLine()
      modifies this`handshakeLength
      ensures handshakeLength == 0
    {
      handshakeLength := 0;
    }

    method ResetFields()
      modifies this`protocolReady, this`handshakeState, this`handshakeStartedAt, this`handshakeLength,
               this`clientNonceHex, this`serverNonceHex, this`txKey, this`rxKey, this`control, this`received, this`taken
      ensures !protocolReady && handshakeState == WaitingHello && handshakeStartedAt == 0 && handshakeLength == 0
      ensures control == client.wire && received == [] && taken == []
    {
      protocolReady, handshakeState, handshakeStartedAt := false, WaitingHello, 0;
      ResetHandshakeLine();
      clientNonceHex, serverNonceHex, txKey, rxKey := "", "", [], [];
      control, received, taken := client.wire, [], [];
    }

    method ResetProtocolState()
      requires Shape() && |serverRandom| == NONCE_SIZE
      requires client.up ==> client.wire == [] && client.arrived == client.inbound
      modifies this, rx, tx
      ensures tx.txAead == old(tx.txAead)
      ensures Valid() && !protocolReady && received == taken == [] && handshakeStartedAt == 0
      ensures serverRandom == old(serverRandom)
      ensures CurrentSession() == Session(AwaitingHello(""), client.wire)
      ensures Kept()
    {
      ResetFields();
      rx.Reset(rx.rxAead, []);
      tx.Reset(false, tx.txAead, []);
      assert handshakeBuffer[..0] == "" && client.wire == control + tx.sent;
      assert [] + [] + client.inbound == client.inbound;
    }

    // What a step inside one session leaves alone.
    twostate predicate Kept()
      reads this, tx, client
    {
      && client == old(client) && authKey == old(authKey) && started == old(started)
      && tx.trueDroppedBytes == old(tx.trueDroppedBytes) && tx.trueDroppedWrites == old(tx.trueDroppedWrites)
      && tx.sealFailures == old(tx.sealFailures)
      && (tx.txAead == old(tx.txAead) || fresh(tx.txAead))
      && (client.up ==> old(client.up) && client.inbound == old(client.inbound))
      && |client.inbound| <= |old(client.inbound)|
      && client.arrived == old(client.arrived) && client.faults >= old(client.faults)
    }

    // The connection was up and the environment did nothing to it.
    twostate predicate Undisturbed()
      reads this, client
    {
      client == old(client) && client.faults == old(client.faults) && old(client.up)
    }

    method CloseProtocolClient()
      requires Shape() && |serverRandom| == NONCE_SIZE
      modifies this, rx, tx, client
      ensures tx.txAead == old(tx.txAead) && serverRandom == old(serverRandom)
      ensures Valid() && !protocolReady && !client.up
      ensures client.faults == old(client.faults) && client.wire == old(client.wire)
      ensures Kept()
    {
      var present := client.Present();
      if present {
        client.Stop();
      }
      ResetProtocolState();
    }

    // `_client && _client.connected()`.
    method Live() returns (live: bool)
      requires Valid()
      modifies client`up, client`faults
      ensures Valid() && Idle(old(Seen()), Seen()) && live == client.up
      ensures (client.up ==> old(client.up)) && client.inbound == old(client.inbound)
      ensures client.faults >= old(client.faults) && (Undisturbed() ==> live)
    {
      hide DeviceKeys, WellNumbered, Wire, Plain, HeaderOk, LengthOf, SequenceOf, Run;
      Sees();
      var present := client.Present();
      var connected := client.Connected();
      live := present && connected;
    }

    // What a call leaves alone that ends the session: the connection and all that was put on it, the
    // records sealed, and the drop counters.
    twostate predicate LetGo()
      reads this, tx, client
    {
      && client == old(client) && client.wire == old(client.wire) && client.arrived == old(client.arrived)
      && tx.txAead == old(tx.txAead) && tx.sealFailures == old(tx.sealFailures)
      && tx.trueDroppedBytes == old(tx.trueDroppedBytes) && tx.trueDroppedWrites == old(tx.trueDroppedWrites)
    }

    // ---- Keys ------------------------------------------------------------------------------------

    // `key` is the C string argument; None is null.
    method SetAuthKey(key: Option<Bytes>) returns (ok: bool)
      requires Valid()
      modifies this, rx, tx, client
      ensures Valid()
      ensures ok <==> key.Some? && 16 <= |BeforeNul(key.value)| <= 128
      ensures ok ==> authKey == BeforeNul(key.value) && !client.up && started == old(started) && LetGo()
      ensures !ok ==> unchanged(this) && unchanged(rx) && unchanged(tx) && unchanged(client)
      ensures protocolReady ==> Seen() == old(Seen()).(key := authKey)
      ensures !ok ==> Seen() == old(Seen())
    {
      if key.None? {
        return false;
      }
      var length := |BeforeNul(key.value)|;
      if length < AUTH_KEY_MIN || length > AUTH_KEY_MAX {
        return false;
      }
      authKey := key.value[..length];
      var present := client.Present();
      if present {
        CloseProtocolClient();
      }
      return true;
    }

    method ClearAuthKey()
      requires Valid()
      modifies this, rx, tx, client
      ensures Valid() && authKey == [] && !client.up && started == old(started) && LetGo()
      ensures protocolReady ==> Seen() == old(Seen()).(key := [])
    {
      authKey := [];
      var present := client.Present();
      if present {
        CloseProtocolClient();
      }
    }

    predicate AuthenticationEnabled()
      reads this
    {
      |authKey| > 0
    }

    // ---- Handshake -------------------------------------------------------------------------------

    // Of `line`, at most the whole has been sent.
    ghost predicate Said(line: string, before: Bytes)
      reads client`wire
      reads this`client
    {
      before <= client.wire <= before + Ascii(line) + [LF]
    }

    lemma Silent(line: string, before: Bytes)
      requires client.wire == before
      ensures Said(line, before)
    {
    }

    method SendControlLine(line: string) returns (ok: bool)
      requires control == client.wire
      modifies this`control, client`up, client`wire, client`faults, client`sends
      ensures client.up ==> old(client.up)
      ensures control == client.wire && Said(line, old(control)) && (!old(client.up) ==> client.wire == old(client.wire))
      ensures ok ==> control == old(control) + Ascii(line) + [LF]
      ensures client.faults >= old(client.faults) && (Undisturbed() ==> ok && client.up)
    {
      ok := false;
      var present := client.Present();
      var connected := client.Connected();
      if !present || !connected {
        return;
      }
      var fd := client.Descriptor();
      if fd < 0 {
        return;
      }
      var data := Ascii(line) + [LF];
      var result := client.Send(data);
      Regroup(old(control), Ascii(line), [LF]);
      control := client.wire;
      if result.Sent? && result.count == |data| {
        assert data[..result.count] == data;
        assert old(control) + data == old(control) + Ascii(line) + [LF];
        ok := true;
      }
    }

    // An error line, then the end of the session.
    method Refuse(line: string)
      requires Shape() && |serverRandom| == NONCE_SIZE && control == client.wire
      modifies this, rx, tx, client
      ensures Valid() && !protocolReady && !client.up && serverRandom == old(serverRandom)
      ensures Kept()
      ensures Undisturbed() ==> client.wire == old(control) + Ascii(line) + [LF]
      ensures Said(line, old(control)) && (!old(client.up) ==> client.wire == old(client.wire))
    {
      var _ := SendControlLine(line);
      CloseProtocolClient();
    }

    method RefuseLine(line: string)
      requires LineFinished()
      modifies this, rx, tx, client
      ensures Core() && !protocolReady && !client.up && serverRandom == old(serverRandom)
      ensures Kept()
      ensures handshakeLength <= handshakeBuffer.Length
      ensures Undisturbed() ==> Decided(DeviceStep(line, Refused), old(control))
      ensures Said(line, old(control)) && (!old(client.up) ==> client.wire == old(client.wire))
    {
      Refuse(line);
    }

    // The state in which a finished line awaits its decision.
    ghost predicate LineFinished()
      reads this, rx, rx.rxRecordHeader, rx.rxCipher, rx.rxTag, rx.rxPlain, tx, tx.txPending, tx.txAead,
            handshakeBuffer, client
    {
      && Core() && !protocolReady && client.wire == control
      && received != [] && received[|received| - 1] == LF
      && (client.up ==> Run(h, authKey, serverRandom, received[..|received| - 1]) == CurrentSession())
    }

    // The reply to a finished line; without it the session is over.
    method Answer(line: string) returns (sent: bool)
      requires LineFinished()
      modifies this, rx, tx, client
      ensures Core() && Kept() && client.wire == control && !protocolReady && serverRandom == old(serverRandom)
      ensures sent ==>
                && control == old(control) + Ascii(line) + [LF] && received == old(received) && taken == old(taken)
                && handshakeState == old(handshakeState) && handshakeStartedAt == old(handshakeStartedAt)
                && clientNonceHex == old(clientNonceHex) && serverNonceHex == old(serverNonceHex)
      ensures !sent ==> !client.up
      ensures Undisturbed() ==> sent && client.up
      ensures Said(line, old(control))
    {
      hide DeviceKeys, WellNumbered, Wire, Plain, HeaderOk, LengthOf, SequenceOf, Run;
      sent := SendControlLine(line);
      if !sent {
        CloseProtocolClient();
      }
      assert control + [] == control;
    }

    // The time limit runs from the connection, and again from the challenge.
    twostate predicate Clocked(now: nat)
      requires old(handshakeLength) <= handshakeBuffer.Length && handshakeLength <= handshakeBuffer.Length
      reads this, handshakeBuffer, rx, tx, client
    {
      client.up && !protocolReady ==>
        && handshakeStartedAt == (if old(CurrentPhase()).AwaitingHello? && CurrentPhase().AwaitingAuth? then now
                                  else old(handshakeStartedAt))
        && (old(CurrentPhase()).AwaitingAuth? ==> CurrentPhase().AwaitingAuth?)
    }

    // What a decision must lead to on a session that is still open.
    ghost predicate Follows(step: DeviceStep, before: Bytes)
      requires handshakeLength <= handshakeBuffer.Length
      reads this, handshakeBuffer, rx, tx
    {
      step.verdict != Refused && CurrentSession() == Decide(Session(Closed, before), step)
    }

    // What a step leads to when nothing interferes: the lines sent, and the session's fate.
    ghost predicate Became(s: Session)
      requires handshakeLength <= handshakeBuffer.Length
      reads this, handshakeBuffer, rx, tx, client
    {
      && client.wire == s.control
      && (client.up <==> s.phase != Closed) && (protocolReady ==> client.up)
      && (client.up ==> CurrentSession() == s)
    }

    ghost predicate Decided(step: DeviceStep, before: Bytes)
      requires handshakeLength <= handshakeBuffer.Length
      reads this, handshakeBuffer, rx, tx, client
    {
      Became(Decide(Session(Closed, before), step))
    }

    method ProcessHello(line: string, now: nat)
      requires LineFinished() && handshakeState == WaitingHello
      modifies this, rx, tx, client
      ensures client.up ==> received == old(received) && taken == old(taken)
      ensures Core()
      ensures Clocked(now)
      ensures NewlyReady()
      ensures Kept()
      ensures client.up ==> Follows(DeviceOnHello(h, authKey, line, serverRandom), old(control))
      ensures Undisturbed() ==> Decided(DeviceOnHello(h, authKey, line, serverRandom), old(control))
      ensures Said(DeviceOnHello(h, authKey, line, serverRandom).reply, old(control))
    {
      hide Said, Core, Valid, LineFinished, CurrentSession, Newborn, Became, Follows, CommandIs, DeviceField, Tokens,
           NonceBytes, ChallengeLine, HexEncode;
      if !CommandIs(line, HELLO) {
        RefuseLine("ESPNS/1 ERR bad_hello");
        return;
      }
      if !AuthenticationEnabled() {
        GoRaw();
        return;
      }
      var clientNonce := GetControlField(line, "nonce", 2 * NONCE_SIZE + 1);
      if clientNonce.None? {
        RefuseLine("ESPNS/1 ERR nonce_required");
        return;
      }
      BeginAuthChallenge(clientNonce.value, now);
    }

    method GoRaw()
      requires LineFinished() && handshakeState == WaitingHello && !AuthenticationEnabled()
      modifies this, rx, tx, client
      ensures client.up ==> received == old(received) && taken == old(taken)
      ensures Core() && Kept() && serverRandom == old(serverRandom)
      ensures NewlyReady() && (client.up ==> protocolReady)
      ensures client.up ==> Follows(DeviceStep(OK_RAW, ReadyRaw), old(control))
      ensures Undisturbed() ==> Decided(DeviceStep(OK_RAW, ReadyRaw), old(control))
      ensures Said(OK_RAW, old(control))
    {
      hide Said, Core, LineFinished, CurrentSession, Newborn;
      LineParts();
      var sent := Answer(OK_RAW);
      if sent {
        SetRaw();
      }
    }

    method SetRaw()
      requires Core() && client.wire == control && handshakeState == WaitingHello && authKey == []
      modifies this`protocolReady, this`handshakeState
      ensures Core() && protocolReady && Newborn() && CurrentSession() == Session(InRaw, control)
      ensures !tx.secureMode
    {
      hide DeviceKeys, WellNumbered, Wire, Plain, HeaderOk, LengthOf, SequenceOf, Run;
      protocolReady, handshakeState := true, Ready;
    }

    lemma LineParts()
      requires LineFinished()
      ensures Core() && Sized(h) && handshakeLength < handshakeBuffer.Length && rx.Valid()
      ensures !protocolReady && (protocolReady <==> handshakeState == Ready) && client.wire == control
    {
    }

    method RandomBytes(count: nat) returns (bytes: Bytes)
      ensures |bytes| == count
    {
      bytes := [];
      while |bytes| < count
        invariant |bytes| <= count
      {
        var b: byte := *;
        bytes := bytes + [b];
      }
    }

    // `esp_fill_random` for the server nonce.
    method DrawNonce() returns (random: Bytes)
      requires LineFinished() && handshakeState == WaitingHello
      modifies this`serverRandom
      ensures LineFinished() && serverRandom == random
    {
      hide DeviceOnHello, DeviceOnAuth;
      ghost var before := serverRandom;
      random := RandomBytes(NONCE_SIZE);
      serverRandom := random;
      if client.up {
        RandomUnused(h, authKey, before, serverRandom, START, received[..|received| - 1]);
      }
    }

    method BeginAuthChallenge(clientNonce: string, now: nat)
      requires LineFinished() && handshakeState == WaitingHello && AuthenticationEnabled()
      modifies this, rx, tx, client
      ensures client.up ==> received == old(received) && taken == old(taken)
      ensures Core()
      ensures Clocked(now)
      ensures NewlyReady()
      ensures Kept()
      ensures client.up ==> NonceBytes(clientNonce).Some?
      ensures client.up ==>
                var serverNonce := HexEncode(serverRandom);
                var proof := HexEncode(Proof(h, authKey, "SERVER", clientNonce, serverNonce));
                Follows(DeviceStep(ChallengeLine(serverNonce, proof), Challenged(clientNonce, serverNonce)), old(control))
      ensures Undisturbed() && NonceBytes(clientNonce).None? ==>
                Decided(DeviceStep("ESPNS/1 ERR invalid_nonce", Refused), old(control))
      ensures Undisturbed() && NonceBytes(clientNonce).Some? ==>
                var serverNonce := HexEncode(serverRandom);
                var proof := HexEncode(Proof(h, authKey, "SERVER", clientNonce, serverNonce));
                Decided(DeviceStep(ChallengeLine(serverNonce, proof), Challenged(clientNonce, serverNonce)), old(control))
      ensures if NonceBytes(clientNonce).None? then Said("ESPNS/1 ERR invalid_nonce", old(control))
              else
                var serverNonce := HexEncode(serverRandom);
                var proof := HexEncode(Proof(h, authKey, "SERVER", clientNonce, serverNonce));
                Said(ChallengeLine(serverNonce, proof), old(control))
    {
      hide Said, Core, Valid, LineFinished, CurrentSession, Newborn, Became, Follows, NonceBytes, HexEncode, ChallengeLine;
      if NonceBytes(clientNonce).None? {
        RefuseLine("ESPNS/1 ERR invalid_nonce");
        return;
      }
      var random := DrawNonce();
      var serverNonce := HexEncode(random);
      var proof := HexEncode(Proof(h, authKey, "SERVER", clientNonce, serverNonce));
      SendChallenge(clientNonce, serverNonce, proof, now);
    }

    method SendChallenge(clientNonce: string, serverNonce: string, proof: string, now: nat)
      requires LineFinished() && handshakeState == WaitingHello && AuthenticationEnabled()
      modifies this, rx, tx, client
      ensures client.up ==> received == old(received) && taken == old(taken)
      ensures Core() && Kept() && serverRandom == old(serverRandom)
      ensures Clocked(now)
      ensures NewlyReady()
      ensures client.up ==>
                Follows(DeviceStep(ChallengeLine(serverNonce, proof), Challenged(clientNonce, serverNonce)), old(control))
      ensures Undisturbed() ==>
                Decided(DeviceStep(ChallengeLine(serverNonce, proof), Challenged(clientNonce, serverNonce)), old(control))
      ensures Said(ChallengeLine(serverNonce, proof), old(control))
    {
      hide Said, Core, LineFinished, CurrentSession, Newborn, ChallengeLine;
      LineParts();
      var sent := Answer(ChallengeLine(serverNonce, proof));
      if sent {
        AwaitAuth(clientNonce, serverNonce, now);
      }
    }

    method AwaitAuth(clientNonce: string, serverNonce: string, now: nat)
      requires Core() && client.wire == control && handshakeState == WaitingHello && authKey != []
      modifies this`clientNonceHex, this`serverNonceHex, this`handshakeState, this`handshakeStartedAt, this`handshakeLength
      ensures Core() && !protocolReady && handshakeState == WaitingAuth && handshakeStartedAt == now
      ensures CurrentSession() == Session(AwaitingAuth(clientNonce, serverNonce, ""), control)
    {
      hide DeviceKeys, WellNumbered, Wire, Plain, Run, Receiver.Valid, Transmitter.Valid;
      clientNonceHex, serverNonceHex := clientNonce, serverNonce;
      handshakeState, handshakeStartedAt := WaitingAuth, now;
      ResetHandshakeLine();
      assert handshakeBuffer[..0] == "";
    }

    method VerifyClientProof(proofHex: string) returns (ok: bool)
      ensures ok <==> AuthenticationEnabled() && |proofHex| == 2 * HASH_SIZE
                      && HexDecode(proofHex) == Some(Proof(h, authKey, "CLIENT", clientNonceHex, serverNonceHex))
    {
      if |proofHex| != 2 * HASH_SIZE || HexDecode(proofHex).None? || !AuthenticationEnabled() {
        return false;
      }
      var expected := Proof(h, authKey, "CLIENT", clientNonceHex, serverNonceHex);
      return HexDecode(proofHex).value == expected;
    }

    method DeriveSessionKeys() returns (keys: Option<SessionKeys>)
      requires Sized(h) && AuthenticationEnabled()
      ensures keys == DeviceKeys(h, authKey, clientNonceHex, serverNonceHex)
    {
      var clientNonce, serverNonce := NonceBytes(clientNonceHex), NonceBytes(serverNonceHex);
      if clientNonce.None? || serverNonce.None? {
        return None;
      }
      keys := DeriveOnDevice(h, authKey, clientNonce.value, serverNonce.value);
    }

    method CheckProof(line: string) returns (verified: bool)
      ensures verified <==> AuthenticationEnabled() && ClientProofOk(h, authKey, line, clientNonceHex, serverNonceHex)
    {
      var proofHex := GetControlField(line, "proof", 2 * HASH_SIZE + 1);
      verified := false;
      if proofHex.Some? {
        verified := VerifyClientProof(proofHex.value);
      }
    }

    method ProcessAuth(line: string)
      requires LineFinished() && handshakeState == WaitingAuth
      modifies this, rx, tx, client
      ensures client.up ==> received == old(received) && taken == old(taken)
      ensures Core() && Kept() && serverRandom == old(serverRandom)
      ensures NewlyReady() && (client.up ==> protocolReady)
      ensures client.up ==>
                Follows(DeviceOnAuth(h, authKey, line, old(clientNonceHex), old(serverNonceHex)), old(control))
      ensures Undisturbed() ==>
                Decided(DeviceOnAuth(h, authKey, line, old(clientNonceHex), old(serverNonceHex)), old(control))
      ensures Said(DeviceOnAuth(h, authKey, line, old(clientNonceHex), old(serverNonceHex)).reply, old(control))
    {
      hide Said, Core, Valid, LineFinished, CurrentSession, Newborn, Became, Follows, CommandIs, ClientProofOk, DeviceKeys;
      if !CommandIs(line, AUTH) {
        RefuseLine("ESPNS/1 ERR bad_auth");
        return;
      }
      KeyPresent();
      LineParts();
      var verified := CheckProof(line);
      if !verified {
        ghost var up, line0 := client.up, DeviceOnAuth(h, authKey, line, clientNonceHex, serverNonceHex).reply;
        RefuseLine("ESPNS/1 ERR auth_failed");
        if !up {
          Silent(line0, old(control));
        }
        return;
      }
      ConfirmSecure();
    }

    // The client has proved itself: derive, confirm, switch.
    method ConfirmSecure()
      requires LineFinished() && handshakeState == WaitingAuth && AuthenticationEnabled()
      modifies this, rx, tx, client
      ensures client.up ==> received == old(received) && taken == old(taken)
      ensures Core() && Kept() && serverRandom == old(serverRandom)
      ensures NewlyReady() && (client.up ==> protocolReady)
      ensures client.up ==>
                var keys := DeviceKeys(h, authKey, old(clientNonceHex), old(serverNonceHex));
                keys.Some? && Follows(DeviceStep(OK_SECURE, ReadySecure(keys.value)), old(control))
      ensures Undisturbed() ==>
                var keys := DeviceKeys(h, authKey, old(clientNonceHex), old(serverNonceHex));
                Decided(if keys.None? then DeviceStep("ESPNS/1 ERR secure_internal", Refused)
                        else DeviceStep(OK_SECURE, ReadySecure(keys.value)), old(control))
      ensures if DeviceKeys(h, authKey, old(clientNonceHex), old(serverNonceHex)).None?
              then Said("ESPNS/1 ERR secure_internal", old(control)) else Said(OK_SECURE, old(control))
    {
      hide Said, Core, Valid, LineFinished, CurrentSession, Newborn, Became, Follows, DeviceKeys;
      KeyedHash();
      var keys := DeriveSessionKeys();
      if keys.None? {
        RefuseLine("ESPNS/1 ERR secure_internal");
        return;
      }
      Confirm(keys.value);
    }

    lemma KeyPresent()
      requires LineFinished() && handshakeState == WaitingAuth
      ensures client.up ==> AuthenticationEnabled()
    {
    }

    lemma KeyedHash()
      requires LineFinished()
      ensures Sized(h)
    {
    }

    method Confirm(keys: SessionKeys)
      requires LineFinished() && handshakeState == WaitingAuth && AuthenticationEnabled()
      requires DeviceKeys(h, authKey, clientNonceHex, serverNonceHex) == Some(keys)
      modifies this, rx, tx, client
      ensures client.up ==> received == old(received) && taken == old(taken)
      ensures Core() && Kept() && serverRandom == old(serverRandom)
      ensures NewlyReady() && (client.up ==> protocolReady)
      ensures client.up ==> Follows(DeviceStep(OK_SECURE, ReadySecure(keys)), old(control))
      ensures Undisturbed() ==> Decided(DeviceStep(OK_SECURE, ReadySecure(keys)), old(control))
      ensures Said(OK_SECURE, old(control))
    {
      hide Said, Core, LineFinished, CurrentSession, Newborn, DeviceKeys;
      LineParts();
      var sent := Answer(OK_SECURE);
      if sent {
        EnterSecureMode(keys);
      }
    }

    // Session keys in place, sequences at zero, nothing received or pending.
    method EnterSecureMode(keys: SessionKeys)
      requires Core() && client.wire == control && handshakeState == WaitingAuth && authKey != []
      requires DeviceKeys(h, authKey, clientNonceHex, serverNonceHex) == Some(keys)
      modifies this`txKey, this`rxKey, this`protocolReady, this`handshakeState, rx, tx
      ensures Core() && protocolReady && handshakeState == Ready && tx.secureMode && Kept() && Newborn()
      ensures tx.txSequence == 0 && tx.PendingTxBytes() == 0 && tx.sent == tx.accepted == []
      ensures rx.State() == UNUSED && rx.delivered == [] && rx.rxAead.log == tx.txAead.log == []
      ensures keys == SessionKeys(rxKey, txKey, rx.rxNoncePrefix, tx.txNoncePrefix)
      ensures CurrentSession() == Session(InSecure(keys), control)
      ensures fresh(tx.txAead)
    {
      hide Core, DeviceKeys, CurrentSession, Newborn, ReadyToStart, Receiver.Valid, Receiver.State, Transmitter.Valid;
      NotYetReady();
      StartRecords(keys);
      SetReady(keys);
    }

    lemma NotYetReady()
      requires Core() && handshakeState == WaitingAuth
      ensures !protocolReady
    {
    }

    method StartRecords(keys: SessionKeys)
      requires Core() && !protocolReady
      modifies rx, tx
      ensures ReadyToStart(keys)
      ensures fresh(tx.txAead) && rx.Valid() && tx.secureMode && tx.txSequence == 0 && tx.PendingTxBytes() == 0
      ensures tx.sent == tx.accepted == []
      ensures rx.State() == UNUSED && rx.delivered == [] && rx.rxAead.log == tx.txAead.log == []
      ensures tx.trueDroppedBytes == old(tx.trueDroppedBytes) && tx.trueDroppedWrites == old(tx.trueDroppedWrites)
      ensures tx.sealFailures == old(tx.sealFailures)
    {
      hide WellNumbered, Wire, Plain, DeviceKeys, HeaderOk, LengthOf, SequenceOf, Transmitter.Valid, Receiver.Valid, Run;
      var rxAead := new IdealAead();
      var txAead := new IdealAead();
      rx.Reset(rxAead, keys.hostToDevicePrefix);
      tx.Reset(true, txAead, keys.deviceToHostPrefix);
    }

    // Both halves are new and have their prefixes; the session does not know yet.
    ghost predicate ReadyToStart(keys: SessionKeys)
      reads this, rx, rx.rxRecordHeader, rx.rxCipher, rx.rxTag, rx.rxPlain, rx.rxAead, tx, tx.txPending, tx.txAead
    {
      && Shape() && rx.Valid() && tx.Valid() && handshakeLength < LINE_LIMIT && |serverRandom| == NONCE_SIZE
      && tx.secureMode && !tx.discarded && tx.txNoncePrefix == keys.deviceToHostPrefix
      && rx.rxNoncePrefix == keys.hostToDevicePrefix && tx.sent == tx.accepted == [] && taken == []
      && rx.State() == UNUSED && rx.delivered == [] && rx.rxAead.log == tx.txAead.log == []
    }

    method SetReady(keys: SessionKeys)
      requires ReadyToStart(keys) && client.wire == control && authKey != []
      requires DeviceKeys(h, authKey, clientNonceHex, serverNonceHex) == Some(keys)
      modifies this`txKey, this`rxKey, this`protocolReady, this`handshakeState
      ensures Core() && protocolReady && handshakeState == Ready && Newborn()
      ensures keys == SessionKeys(rxKey, txKey, rx.rxNoncePrefix, tx.txNoncePrefix)
      ensures CurrentSession() == Session(InSecure(keys), control)
    {
      hide DeviceKeys, Transmitter.Valid, Receiver.Valid, Run;
      assert control + [] == control;
      txKey, rxKey, protocolReady, handshakeState := keys.deviceToHostKey, keys.hostToDeviceKey, true, Ready;
    }

    // Nothing but what session `s` has said, or is to say, has been added to the wire.
    ghost predicate Within(before: Bytes, s: Session)
      reads client`wire
      reads this`client
    {
      before <= client.wire <= s.control
    }

    method ProcessHandshakeLine(now: nat)
      requires LineFinished()
      modifies this, rx, tx, client
      ensures client.up ==> received == old(received) && taken == old(taken)
      ensures Core() && Traced() && Kept() && NewlyReady()
      ensures Clocked(now)
      ensures old(CurrentPhase()).AwaitingHello? || serverRandom == old(serverRandom)
      ensures client.up ==>
                CurrentSession() == OnLine(h, authKey, serverRandom, old(CurrentSession()), old(CurrentPhase().text))
      ensures Undisturbed() ==>
                Became(OnLine(h, authKey, serverRandom, old(CurrentSession()), old(CurrentPhase().text)))
      ensures Within(old(control), OnLine(h, authKey, serverRandom, old(CurrentSession()), old(CurrentPhase().text)))
    {
      hide Core, Newborn, Became, CString, DeviceOnHello, DeviceOnAuth;
      LineParts();
      ghost var before := received[..|received| - 1];
      var line := CString(handshakeBuffer[..handshakeLength]);
      if handshakeState == WaitingHello {
        ProcessHello(line, now);
        if client.up {
          RandomUnused(h, authKey, old(serverRandom), serverRandom, START, before);
        }
      } else if handshakeState == WaitingAuth {
        ProcessAuth(line);
      }
      assert received != [] ==> received[..|received| - 1] == received[..|received| - 1];
    }

    // A session that becomes ready starts its data path from nothing.
    // A secure session keeps its key object, and one that becomes secure has one of its own.
    twostate predicate NewKeys()
      reads this, tx
    {
      protocolReady && tx.secureMode ==>
        if client == old(client) && old(protocolReady) then tx.txAead == old(tx.txAead) && old(tx.secureMode)
        else fresh(tx.txAead)
    }

    twostate predicate NewlyReady()
      requires rx.Valid()
      reads this, rx, rx.rxRecordHeader, rx.rxCipher, rx.rxTag, rx.rxPlain, rx.rxAead, tx, tx.txAead
    {
      && (!old(protocolReady) && protocolReady ==> Newborn())
      && NewKeys()
    }

    ghost predicate Newborn()
      requires rx.Valid()
      reads this, rx, rx.rxRecordHeader, rx.rxCipher, rx.rxTag, rx.rxPlain, rx.rxAead, tx, tx.txAead
    {
      && taken == [] && tx.accepted == tx.sent == []
      && (tx.secureMode ==>
            rx.State() == UNUSED && rx.delivered == [] && rx.rxAead.log == tx.txAead.log == [])
    }

    // One byte of the handshake.  `stop` ends the pass: the session is ready or gone.
    method AcceptByte(value: byte, now: nat) returns (stop: bool)
      requires Core() && Traced() && !protocolReady && client.up
      modifies this, rx, tx, client, handshakeBuffer
      ensures Core() && Traced() && Kept() && NewlyReady()
      ensures Clocked(now)
      ensures client.up ==> received == old(received) + [value] && taken == old(taken)
      ensures !stop <==> !protocolReady && client.up
      ensures old(CurrentPhase()).AwaitingHello? || serverRandom == old(serverRandom)
      ensures client.up ==> CurrentSession() == FeedByte(h, authKey, serverRandom, old(CurrentSession()), value)
      ensures Undisturbed() ==>
                && Became(FeedByte(h, authKey, serverRandom, old(CurrentSession()), value))
                && (stop <==> !client.up || protocolReady)
      ensures Within(old(client.wire), FeedByte(h, authKey, serverRandom, old(CurrentSession()), value))
    {
      hide Core, LineFinished, Run, OnLine;
      Opened();
      if value == CR {
        SkipCR();
        return false;
      }
      if value == LF {
        FinishLine();
        stop := EndLine(now);
        return;
      }
      stop := AcceptChar(value);
    }

    lemma Opened()
      requires Core()
      ensures Sized(h) && handshakeLength < handshakeBuffer.Length && (protocolReady <==> handshakeState == Ready)
      ensures !protocolReady ==> Undecided(CurrentPhase()) && client.wire == control
    {
      assert control + [] == control;
    }

    method SkipCR()
      requires Core() && Traced() && !protocolReady && client.up
      modifies this`received
      ensures Core() && Traced() && received == old(received) + [CR]
    {
      FeedMore(h, authKey, serverRandom, START, received, CR);
      received := received + [CR];
    }

    method FinishLine()
      requires Core() && Traced() && !protocolReady && client.up
      modifies this`received
      ensures LineFinished() && received == old(received) + [LF]
    {
      assert control + tx.sent == control;
      received := received + [LF];
      assert received[..|received| - 1] == old(received);
    }

    method AcceptChar(value: byte) returns (stop: bool)
      requires Core() && Traced() && !protocolReady && client.up && value != CR && value != LF
      modifies this, rx, tx, client, handshakeBuffer
      ensures Core() && Traced() && Kept() && !protocolReady && serverRandom == old(serverRandom)
      ensures client.up ==> received == old(received) + [value] && taken == old(taken)
      ensures stop <==> !client.up
      ensures client.up ==> handshakeStartedAt == old(handshakeStartedAt)
      ensures client.up ==> CurrentSession() == FeedByte(h, authKey, serverRandom, old(CurrentSession()), value)
      ensures Undisturbed() ==> Became(FeedByte(h, authKey, serverRandom, old(CurrentSession()), value))
      ensures Within(old(client.wire), FeedByte(h, authKey, serverRandom, old(CurrentSession()), value))
    {
      hide LinesOf, DeviceKeys, DeviceOnHello, DeviceOnAuth, WellNumbered, Wire, Plain;
      FeedMore(h, authKey, serverRandom, START, received, value);
      Opened();
      if handshakeLength + 1 >= LINE_LIMIT {
        Refuse(LINE_TOO_LONG);
        return true;
      }
      Store(value);
      return false;
    }

    method EndLine(now: nat) returns (stop: bool)
      requires LineFinished()
      modifies this, rx, tx, client
      ensures Core() && Traced() && Kept() && NewlyReady()
      ensures Clocked(now)
      ensures client.up ==> received == old(received) && taken == old(taken)
      ensures !stop <==> !protocolReady && client.up
      ensures old(CurrentPhase()).AwaitingHello? || serverRandom == old(serverRandom)
      ensures client.up ==>
                CurrentSession() == OnLine(h, authKey, serverRandom, old(CurrentSession()), old(CurrentPhase().text))
      ensures Undisturbed() ==>
                && Became(OnLine(h, authKey, serverRandom, old(CurrentSession()), old(CurrentPhase().text)))
                && (stop <==> !client.up || protocolReady)
      ensures Within(old(control), OnLine(h, authKey, serverRandom, old(CurrentSession()), old(CurrentPhase().text)))
    {
      hide Core, LineFinished, OnLine, Run;
      ProcessHandshakeLine(now);
      stop := Dropped();
    }

    // `!_client || !_client.connected() || _protocolReady`.
    method Dropped() returns (stop: bool)
      requires Core() && Traced()
      modifies client`up, client`faults
      ensures Core() && Traced() && Kept()
      ensures (stop <==> !client.up || protocolReady) && (Undisturbed() ==> client.up)
      ensures client.wire == old(client.wire)
    {
      var present := client.Present();
      var connected := client.Connected();
      stop := !present || !connected || protocolReady;
    }

    method Store(value: byte)
      requires handshakeLength + 1 < LINE_LIMIT == handshakeBuffer.Length
      modifies this`handshakeLength, this`received, handshakeBuffer
      ensures handshakeLength == old(handshakeLength) + 1 && received == old(received) + [value]
      ensures handshakeBuffer[..handshakeLength] == old(handshakeBuffer[..handshakeLength]) + [value as char]
    {
      handshakeBuffer[handshakeLength] := value as char;
      handshakeLength := handshakeLength + 1;
      received := received + [value];
    }

    // What an undisturbed pass makes of all that was waiting: the first line that decides, or the
    // time limit.
    ghost predicate PassFate(s0: Session, in0: Bytes, startedAt: nat, now: nat)
      requires Sized(h) && handshakeLength <= handshakeBuffer.Length
      reads this, handshakeBuffer, rx, tx, client
    {
      var r := ReadStream(h, authKey, serverRandom, s0, in0);
      if !Undecided(r.session.phase) then
        Became(r.session) && (client.up ==> client.inbound == r.rest)
      else if Expired(s0.phase, r.session.phase, startedAt, now) then
        !client.up && !protocolReady && client.wire == r.session.control + Ascii(TIMEOUT) + [LF]
      else
        client.up && CurrentSession() == r.session && client.inbound == []
    }

    method HandleHandshake(now: nat) returns (ghost consumed: Bytes)
      requires Valid()
      modifies this, rx, tx, client, handshakeBuffer
      ensures Valid() && SameClient()
      ensures CallStep(old(Seen()), Seen(), []) && Fate(h, old(Seen()), Seen(), now)
      ensures old(protocolReady) ==> Idle(old(Seen()), Seen())
      ensures client.up ==> received == old(received) + consumed && old(client.inbound) == consumed + client.inbound
      ensures !protocolReady ==> taken == []
      ensures client.up && !old(protocolReady) ==>
                CurrentSession() == FeedHandshake(h, authKey, serverRandom, old(CurrentSession()), consumed)
      ensures LastWire(h, old(Seen()), client.wire)
      ensures NewKeys()
    {
      hide OnWire, Sound, Valid, Seen, DataStep, CallStep, Fate, FeedHandshake, CurrentSession;
      Sees();
      ghost var before := Seen();
      var live := Live();
      Sees();
      ghost var there := Seen();
      consumed := [];
      if !live || protocolReady {
        IdleCall(h, before, there, now);
        NothingRead();
        return;
      }
      consumed := HandshakePass(now);
      Sees();
      NothingRead();
      IdleThenCall(h, before, there, Seen(), now);
    }

    lemma NothingRead()
      requires Valid()
      ensures received + [] == received && [] + client.inbound == client.inbound && (!protocolReady ==> taken == [])
    {
    }

    method HandshakePass(now: nat) returns (ghost consumed: Bytes)
      requires Valid() && client.up && !protocolReady
      modifies this, rx, tx, client, handshakeBuffer
      ensures Valid() && SameClient()
      ensures CallStep(old(Seen()), Seen(), []) && Fate(h, old(Seen()), Seen(), now)
      ensures client.up ==> received == old(received) + consumed && old(client.inbound) == consumed + client.inbound
      ensures client.up ==>
                CurrentSession() == FeedHandshake(h, authKey, serverRandom, old(CurrentSession()), consumed)
      ensures LastWire(h, old(Seen()), client.wire)
      ensures NewKeys()
    {
      hide OnWire, Sound, Valid, Seen, CallStep, Fate, FeedHandshake, PassFate, CurrentSession, Newborn;
      Sees();
      ghost var before := Seen();
      consumed := ReadLines(now);
      Sees();
      PassSeen(before, consumed, now);
      assert Answers(h, before.key, serverRandom, before.session, consumed, client.wire);
    }

    method ReadLines(now: nat) returns (ghost consumed: Bytes)
      requires Valid() && client.up && !protocolReady
      modifies this, rx, tx, client, handshakeBuffer
      ensures Valid() && rx.Valid() && SameClient() && NewlyReady()
      ensures client.up ==> old(client.inbound) == consumed + client.inbound && taken == old(taken)
      ensures client.up ==> received == old(received) + consumed
      ensures Sized(h) && handshakeLength <= handshakeBuffer.Length
      ensures client.up ==>
                CurrentSession() == FeedHandshake(h, authKey, serverRandom, old(CurrentSession()), consumed)
      ensures Undisturbed() ==> PassFate(old(CurrentSession()), old(client.inbound), old(handshakeStartedAt), now)
      ensures consumed <= old(client.inbound) && old(client.wire) <= client.wire
      ensures Answers(h, authKey, serverRandom, old(CurrentSession()), consumed, client.wire)
    {
      hide Within, Answers, Said, Valid, Core, Run, ReadStream, FeedHandshake, OnLine;
      ValidParts();
      ghost var s0, in0 := CurrentSession(), client.inbound;
      var done;
      consumed, done := ReadWaiting(now);
      ValidParts();
      Opened();
      ghost var wire, up := client.wire, client.up;
      if done {
        WithinAnswers(old(client.wire), s0, consumed);
      } else {
        if client.up && client.inbound == [] {
          OpenToTheEnd(s0, in0, consumed);
        }
        CheckTimeout(now);
        ValidParts();
        TimeoutAnswers(old(client.wire), wire, up, s0, consumed);
      }
    }

    lemma WithinAnswers(before: Bytes, s0: Session, consumed: Bytes)
      requires Sized(h) && before <= client.wire <= FeedHandshake(h, authKey, serverRandom, s0, consumed).control
      ensures before <= client.wire && Answers(h, authKey, serverRandom, s0, consumed, client.wire)
    {
    }

    lemma TimeoutAnswers(before: Bytes, wire: Bytes, up: bool, s0: Session, consumed: Bytes)
      requires Sized(h) && before <= wire && Said(TIMEOUT, wire) && (!up ==> client.wire == wire)
      requires var r := FeedHandshake(h, authKey, serverRandom, s0, consumed);
               wire <= r.control && (up ==> wire == r.control && Undecided(r.phase))
      ensures before <= client.wire && Answers(h, authKey, serverRandom, s0, consumed, client.wire)
    {
    }

    // The loop: what waits is read until a line decides, nothing waits, or the connection is gone.
    method ReadWaiting(now: nat) returns (ghost consumed: Bytes, done: bool)
      requires Valid() && client.up && !protocolReady
      modifies this, rx, tx, client, handshakeBuffer
      ensures Valid() && rx.Valid() && Sized(h) && handshakeLength < handshakeBuffer.Length
      ensures SameClient() && NewlyReady() && Clocked(now)
      ensures if done then !client.up || protocolReady else !protocolReady && (Undisturbed() ==> client.up)
      ensures client.up ==> old(client.inbound) == consumed + client.inbound && taken == old(taken)
      ensures client.up ==> received == old(received) + consumed
      ensures client.up ==>
                CurrentSession() == FeedHandshake(h, authKey, serverRandom, old(CurrentSession()), consumed)
      ensures Undisturbed() ==> PassSoFar(old(CurrentSession()), old(client.inbound), true)
      ensures consumed <= old(client.inbound)
      ensures old(client.wire) <= client.wire
              <= FeedHandshake(h, authKey, serverRandom, old(CurrentSession()), consumed).control
    {
      hide Valid, Core, Run, ReadStream, FeedHandshake, OnLine;
      consumed := [];
      ValidParts();
      Opened();
      ghost var s0, in0, before, wire := CurrentSession(), client.inbound, received, client.wire;
      assert FeedHandshake(h, authKey, serverRandom, s0, []) == s0 by { FeedNone(h, authKey, serverRandom, s0); }
      assert [] + in0 == in0 && before + [] == before;
      var stop := false;
      done := false;
      while !stop
        invariant Valid() && rx.Valid() && Sized(h) && handshakeLength < handshakeBuffer.Length
        invariant protocolReady <==> handshakeState == Ready
        invariant SameClient() && NewlyReady() && !old(protocolReady) && old(client.up) && Clocked(now)
        invariant !stop ==> client.up && !protocolReady && !done
        invariant done ==> !client.up || protocolReady
        invariant !done ==> !protocolReady && (Undisturbed() ==> client.up)
        invariant client.up ==> in0 == consumed + client.inbound && received == before + consumed && taken == old(taken)
        invariant client.up ==> CurrentSession() == FeedHandshake(h, authKey, serverRandom, s0, consumed)
        invariant Undisturbed() ==> PassSoFar(s0, in0, stop)
        invariant consumed <= in0 && Within(wire, FeedHandshake(h, authKey, serverRandom, s0, consumed))
        decreases !stop, |client.inbound|
      {
        ghost var got;
        stop, done, got := HandshakeRound(s0, in0, consumed, wire, now);
        ValidParts();
        Regroup(before, consumed, got);
        consumed := consumed + got;
      }
    }

    // The pass in terms of what is seen.
    lemma PassSeen(before: View, consumed: Bytes, now: nat)
      requires Valid() && rx.Valid() && Sized(h) && handshakeLength <= handshakeBuffer.Length
      requires protocolReady ==> Newborn()
      requires before.client == client && before.key == authKey && before.faults <= client.faults + tx.sealFailures
      requires before.up && !before.Ready() && before.arrived == client.arrived
      requires client.up ==> before.inbound == consumed + client.inbound && received == before.received + consumed
      requires Calm(before, Seen()) ==> PassFate(before.session, before.inbound, before.startedAt, now)
      ensures CallStep(before, Seen(), []) && Fate(h, before, Seen(), now)
    {
      hide ReadStream, DeviceKeys, WellNumbered, Wire, Plain, HeaderOk, LengthOf, SequenceOf, Run, FeedHandshake;
      NoMore(control);
      FedNothing([], Seen().Prefix(), UNUSED, []);
      Regroup(before.received, consumed, client.inbound);
      NoMore(before.received + consumed);
    }

    lemma ValidParts()
      requires Valid()
      ensures Core() && Traced() && rx.Valid() && Sized(h) && handshakeLength < handshakeBuffer.Length
      ensures protocolReady <==> handshakeState == Ready
    {
    }

    lemma OpenToTheEnd(s0: Session, in0: Bytes, consumed: Bytes)
      requires Sized(h) && in0 == consumed + []
      requires Undecided(FeedHandshake(h, authKey, serverRandom, s0, consumed).phase)
      ensures ReadStream(h, authKey, serverRandom, s0, in0)
              == Reading(FeedHandshake(h, authKey, serverRandom, s0, consumed), [])
    {
      FeedLeavesOpen(h, authKey, serverRandom, s0, consumed, []);
    }

    // Where a pass over `in0` from `s0` stands when nothing interferes.
    ghost predicate PassSoFar(s0: Session, in0: Bytes, stop: bool)
      requires Sized(h) && handshakeLength <= handshakeBuffer.Length
      reads this, handshakeBuffer, rx, tx, client
    {
      var r := ReadStream(h, authKey, serverRandom, s0, in0);
      if !client.up then r.session == Session(Closed, client.wire) && !protocolReady
      else if protocolReady then r == Reading(CurrentSession(), client.inbound) && client.wire == control
      else stop ==> client.inbound == []
    }

    // One turn of the loop, with the account of the pass so far.
    method HandshakeRound(ghost s0: Session, ghost in0: Bytes, ghost consumed: Bytes, ghost wire: Bytes, now: nat)
      returns (stop: bool, done: bool, ghost got: Bytes)
      requires Valid() && client.up && !protocolReady && Sized(h) && handshakeLength < handshakeBuffer.Length
      requires in0 == consumed + client.inbound && wire <= client.wire
      requires CurrentSession() == FeedHandshake(h, authKey, serverRandom, s0, consumed)
      modifies this, rx, tx, client, handshakeBuffer
      ensures Valid() && rx.Valid() && SameClient() && NewlyReady() && Clocked(now)
      ensures done ==> stop && (!client.up || protocolReady)
      ensures !done ==> !protocolReady && (Undisturbed() ==> client.up)
      ensures !stop ==> client.up && !protocolReady && |client.inbound| < |old(client.inbound)|
      ensures client.up ==>
                && in0 == consumed + got + client.inbound && received == old(received) + got && taken == old(taken)
                && CurrentSession() == FeedHandshake(h, authKey, serverRandom, s0, consumed + got)
      ensures Undisturbed() ==> PassSoFar(s0, in0, stop)
      ensures consumed + got <= in0
      ensures Within(wire, FeedHandshake(h, authKey, serverRandom, s0, consumed + got))
    {
      hide Valid, Core, ReadStream, FeedHandshake, OnLine;
      ValidParts();
      Opened();
      ghost var random, s, waiting := serverRandom, CurrentSession(), client.inbound;
      stop, done, got := HandshakeStep(now);
      ValidParts();
      if s.phase.AwaitingHello? {
        RandomUnused(h, authKey, random, serverRandom, s0, consumed);
      }
      assert consumed + [] == consumed;
      if got != [] {
        assert got == [got[0]] && waiting == got + waiting[1..];
        FeedMore(h, authKey, serverRandom, s0, consumed, got[0]);
        Regroup(consumed, got, waiting[1..]);
        assert client.up ==> client.inbound == waiting[1..];
        if !Undecided(FeedHandshake(h, authKey, serverRandom, s0, consumed + got).phase) {
          FeedDecidesHere(h, authKey, serverRandom, s0, consumed, got[0], waiting[1..]);
        }
      }
    }

    // One turn of the reading loop; `stop` leaves it and `done` the whole pass.
    method HandshakeStep(now: nat) returns (stop: bool, done: bool, ghost got: Bytes)
      requires Valid() && client.up && !protocolReady
      modifies this, rx, tx, client, handshakeBuffer
      ensures Valid() && SameClient() && NewlyReady() && Clocked(now)
      ensures old(CurrentPhase()).AwaitingHello? || serverRandom == old(serverRandom)
      ensures got == [] || (old(client.inbound) != [] && got == [old(client.inbound)[0]])
      ensures done ==> stop && (!client.up || protocolReady)
      ensures !done ==> !protocolReady && (Undisturbed() ==> client.up)
      ensures !stop ==> client.up && !protocolReady && |client.inbound| < |old(client.inbound)|
      ensures client.up ==>
                && old(client.inbound) == got + client.inbound && received == old(received) + got && taken == old(taken)
                && CurrentSession() == (if got == [] then old(CurrentSession())
                                        else FeedByte(h, authKey, serverRandom, old(CurrentSession()), got[0]))
      ensures Undisturbed() && got == [] ==> client.up && client.inbound == []
      ensures Undisturbed() && got != [] ==>
                && Became(FeedByte(h, authKey, serverRandom, old(CurrentSession()), got[0]))
                && (stop <==> !client.up || protocolReady)
      ensures if got == [] then client.wire == old(client.wire)
              else Within(old(client.wire), FeedByte(h, authKey, serverRandom, old(CurrentSession()), got[0]))
    {
      hide Core, OnLine, Run;
      got := [];
      stop, done := true, false;
      var available := client.Available();
      if available == 0 {
        return;
      }
      ghost var inbound := client.inbound;
      var value := NextByte();
      if value < 0 {
        return;
      }
      got := [inbound[0]];
      assert inbound == got + client.inbound;
      ByteAccounted(old(received), old(taken), got, client.inbound);
      stop := AcceptByte(value, now);
      done := stop;
    }

    // `_client.read()`.
    method NextByte() returns (value: int)
      requires Core() && Traced() && !protocolReady
      modifies client`inbound, client`faults
      ensures Core() && Traced() && taken == [] && client.faults >= old(client.faults)
      ensures value < 0 ==>
                client.inbound == old(client.inbound) && (client.inbound == [] || client.faults > old(client.faults))
      ensures value >= 0 ==>
                && client.faults == old(client.faults) && old(client.inbound) != []
                && value == old(client.inbound)[0] && client.inbound == old(client.inbound)[1..]
    {
      value := client.ReadByte();
    }

    lemma ByteAccounted(before: Bytes, nothing: Bytes, got: Bytes, rest: Bytes)
      requires nothing == []
      ensures before + nothing + (got + rest) == before + got + nothing + rest
    {
      assert before + [] + (got + rest) == before + got + [] + rest;
    }

    twostate predicate SameClient()
      reads this, tx, client
    {
      && client == old(client) && authKey == old(authKey) && started == old(started)
      && tx.trueDroppedBytes == old(tx.trueDroppedBytes) && tx.trueDroppedWrites == old(tx.trueDroppedWrites)
      && tx.sealFailures == old(tx.sealFailures)
      && (tx.txAead == old(tx.txAead) || fresh(tx.txAead))
      && (client.up ==> old(client.up))
      && client.arrived == old(client.arrived) && client.faults >= old(client.faults)
    }

    // `now` and the start time are `millis()` values; a start at zero means no timeout.
    method CheckTimeout(now: nat)
      requires Valid() && !protocolReady
      modifies this, rx, tx, client
      ensures Valid() && Kept() && !protocolReady && serverRandom == old(serverRandom)
      ensures client.up ==> received == old(received) && taken == old(taken) && CurrentSession() == old(CurrentSession())
      ensures Undisturbed() ==>
                if Late(now, old(handshakeStartedAt))
                then !client.up && client.wire == old(control) + Ascii(TIMEOUT) + [LF]
                else client.up && CurrentSession() == old(CurrentSession()) && client.inbound == old(client.inbound)
      ensures client.up ==> !Late(now, old(handshakeStartedAt))
      ensures Said(TIMEOUT, old(client.wire)) && (!old(client.up) ==> client.wire == old(client.wire))
    {
      hide LinesOf, DeviceKeys, DeviceOnHello, DeviceOnAuth, WellNumbered, Wire, Plain;
      Opened();
      if handshakeStartedAt != 0 && (now - handshakeStartedAt) % (UINT32_MAX + 1) >= HANDSHAKE_TIMEOUT_MS {
        Refuse(TIMEOUT);
      }
    }

    // ---- Data --------------------------------------------------------------------------------------

    // Receives what the socket holds; a bad record ends the session.  Outside a ready secure
    // session nothing happens.
    method HandleSecureRx() returns (ghost consumed: Bytes)
      requires Valid()
      modifies this, rx, rx.rxRecordHeader, rx.rxCipher, rx.rxTag, rx.rxPlain, tx, client
      ensures Valid() && SameClient() && PollStep(old(Seen()), Seen()) && client.wire == old(client.wire)
      ensures !old(protocolReady && tx.secureMode && client.up && rx.Unread() == []) ==> consumed == []
      ensures old(protocolReady && tx.secureMode) ==>
                FeedAll(old(rx.rxAead.log), old(rx.rxNoncePrefix), old(rx.State()), consumed)
                == if protocolReady then rx.State() else Failed(old(rx.State()).out)
      ensures protocolReady ==> old(protocolReady) && old(client.inbound) == consumed + client.inbound
      ensures Undisturbed() && old(protocolReady && tx.secureMode && rx.Unread() == [] && client.inbound != []) ==>
                consumed != []
    {
      hide OnWire, Sound, Valid, PollStep, KeepsUnread, DataStep, FeedAll, Seen;
      Sees();
      ghost var before := Seen();
      consumed := [];
      assert [] + client.inbound == client.inbound;
      FedAllNothing();
      if !tx.secureMode || !protocolReady {
        IdlePolls(before, Seen());
        return;
      }
      var live := Live();
      Sees();
      if !live {
        IdlePolls(before, Seen());
        return;
      }
      ghost var there := Seen();
      consumed := ReceiveSecure();
      IdleThenPoll(before, there, Seen());
    }

    lemma FedAllNothing()
      requires Valid()
      ensures FeedAll(rx.rxAead.log, rx.rxNoncePrefix, rx.State(), []) == rx.State()
    {
    }

    // Closes a session that was seen as `before`, with `chunk` lost.  If the environment has done
    // nothing to it, what is waiting does not decode.
    method EndSession(ghost before: View, ghost chunk: Bytes)
      requires Shape() && |serverRandom| == NONCE_SIZE && before.Ready()
      requires SeenHere(before)
      requires before.faults <= client.faults + tx.sealFailures
      requires before.up && before.faults == client.faults + tx.sealFailures ==> before.Spoilt()
      requires OnWire(before, tx.txAead, tx.txAead.log, client.wire, chunk)
      modifies this, rx, tx, client
      ensures Valid() && Kept() && !client.up && !protocolReady && tx.txAead == old(tx.txAead)
      ensures client.faults == old(client.faults) && client.wire == old(client.wire)
      ensures DataStep(before, Seen(), [], chunk) && !Seen().up && !Seen().Ready()
      ensures Seen().faults == old(client.faults + tx.sealFailures)
    {
      hide DataStep, View.Spoilt, DeviceKeys, WellNumbered, Wire, Plain, HeaderOk, LengthOf, SequenceOf, Run;
      CloseProtocolClient();
      ClosedStep(before, Seen(), [], chunk);
    }

    method ReceiveSecure() returns (ghost consumed: Bytes)
      requires Valid() && protocolReady && tx.secureMode && client.up
      modifies this, rx, rx.rxRecordHeader, rx.rxCipher, rx.rxTag, rx.rxPlain, tx, client
      ensures Valid() && SameClient() && PollStep(old(Seen()), Seen()) && client.wire == old(client.wire)
      ensures old(rx.Unread()) != [] ==> consumed == []
      ensures FeedAll(old(rx.rxAead.log), old(rx.rxNoncePrefix), old(rx.State()), consumed)
              == if protocolReady then rx.State() else Failed(old(rx.State()).out)
      ensures protocolReady ==> old(client.inbound) == consumed + client.inbound
      ensures Undisturbed() && old(rx.Unread() == [] && client.inbound != []) ==> consumed != []
    {
      hide PollStep, DataStep, FeedAll, DeviceKeys, WellNumbered, Wire, Plain, HeaderOk, LengthOf, Run, Receiver.Valid,
           Transmitter.Valid;
      ghost var before := Seen();
      Sees();
      var ok;
      ok, consumed := rx.HandleSecureRx(client);
      if !ok {
        Spoils(before, consumed, client.inbound);
        EndSession(before, []);
        ClosedPoll(before, Seen());
        return;
      }
      AccountMoved(received, taken, consumed, client.inbound);
      taken := taken + consumed;
      PolledBy(before, Seen(), consumed);
    }

    // Taking `more` from the front of what is unread keeps the account of what arrived.
    lemma AccountMoved(received: Bytes, taken: Bytes, more: Bytes, rest: Bytes)
      ensures received + taken + (more + rest) == received + (taken + more) + rest
    {
    }

    // At most one send of what is pending.
    method DrainTxPending()
      requires Valid() && protocolReady
      modifies this, rx, tx, client
      ensures Valid() && SameClient() && DrainStep(old(Seen()), Seen())
      ensures tx.txAead == old(tx.txAead)
      ensures protocolReady ==> control == old(control) && client.wire == control + tx.sent && old(tx.sent) <= tx.sent
    {
      hide OnWire, DrainStep, DataStep, Valid, Seen, Shape, SeenHere;
      Sees();
      ghost var before := Seen();
      var close := OfferPending();
      if close {
        EndSession(before, []);
        DrainClosed(before, Seen());
      }
    }

    // The send itself.  `close` asks for the session to end.
    method OfferPending() returns (close: bool)
      requires Valid() && protocolReady
      modifies tx, client`up, client`wire, client`faults, client`sends
      ensures SameClient() && tx.txAead == old(tx.txAead)
      ensures !close ==>
                && Valid() && DrainStep(old(Seen()), Seen())
                && client.wire == control + tx.sent && old(tx.sent) <= tx.sent
      ensures close ==>
                && Shape() && |serverRandom| == NONCE_SIZE && old(Seen()).Ready() && SeenHere(old(Seen()))
                && (old(client.up) ==> client.faults + tx.sealFailures > old(Seen()).faults)
                && OnWire(old(Seen()), tx.txAead, tx.txAead.log, client.wire, [])
    {
      hide DrainStep, DataStep, DeviceKeys, WellNumbered, Wire, Plain, HeaderOk, LengthOf, SequenceOf, Run,
           Receiver.Valid, Transmitter.Due, Transmitter.Handled;
      ghost var before, control0, sent0 := Seen(), control, tx.sent;
      ghost var out;
      close, out := tx.DrainTxPending(client, protocolReady);
      Regroup(control0, sent0, out);
      NoMore(tx.accepted);
      SentSoFar(before, []);
      if !close {
        DrainedBy(before, Seen());
      }
    }

    // `before` was seen on this connection, with this key.
    ghost predicate SeenHere(before: View)
      reads this, client
    {
      && before.client == client && before.key == authKey && before.random == serverRandom
      && before.arrived == client.arrived && (!before.up ==> client.wire == before.wire)
    }

    method RecordDrop(bytes: nat)
      requires Valid()
      modifies tx`txDroppedBytes, tx`txDroppedWrites, tx`trueDroppedBytes, tx`trueDroppedWrites
      ensures Valid() && Seen() == old(Seen())
      ensures tx.trueDroppedBytes == old(tx.trueDroppedBytes) + bytes
      ensures tx.trueDroppedWrites == old(tx.trueDroppedWrites) + if bytes == 0 then 0 else 1
    {
      tx.RecordTxDrop(bytes);
    }

    method ClearTxDropCounters()
      requires Valid()
      modifies tx`txDroppedBytes, tx`txDroppedWrites, tx`trueDroppedBytes, tx`trueDroppedWrites
      ensures Valid() && Seen() == old(Seen()) && tx.trueDroppedBytes == tx.trueDroppedWrites == 0
    {
      tx.ClearTxDropCounters();
    }

    // The loop of `write` on a session that is ready: chunks of at most one record are staged
    // and offered to the socket until one stays pending.  On a session that is left open every
    // byte offered is accepted or counted as dropped.
    method WriteReady(data: Bytes) returns (total: nat)
      requires Valid() && protocolReady && client.up
      modifies this, rx, tx, tx.txPending, tx.txAead, client
      ensures Valid() && total <= |data|
      ensures DataStep(old(Seen()), Seen(), [], data[..total])
      ensures protocolReady && client.up ==>
                && tx.trueDroppedBytes == old(tx.trueDroppedBytes) + |data| - total
                && tx.trueDroppedWrites == old(tx.trueDroppedWrites) + if total < |data| then 1 else 0
      ensures client == old(client) && tx.txAead == old(tx.txAead)
      ensures old(tx.secureMode) ==> |tx.txAead.log| == |old(tx.txAead.log)| + RecordsFor(total)
      ensures Calm(old(Seen()), Seen()) && old(tx.PendingTxBytes()) == 0 ==> total == |data| && protocolReady && client.up
    {
      hide OnWire, Sound, Valid, DataStep, Seen;
      ghost var before := Seen();
      Sees();
      total := 0;
      IdleStep(before, before);
      assert data[..0] == [];
      if tx.PendingTxBytes() != 0 {
        RecordDrop(|data|);
        return;
      }
      var outcome := Clear;
      while total < |data| && outcome == Clear
        invariant Valid() && client == old(client) && tx.txAead == old(tx.txAead)
        invariant total <= |data| && DataStep(before, Seen(), [], data[..total])
        invariant old(tx.secureMode) ==> |tx.txAead.log| == |old(tx.txAead.log)| + RecordsFor(total)
        invariant outcome == Clear ==> (total == |data| || total % 1024 == 0) && tx.secureMode == old(tx.secureMode)
        invariant Calm(before, Seen()) ==> outcome == Clear
        invariant outcome == Clear ==> protocolReady && client.up && tx.PendingTxBytes() == 0
        invariant Accounted(old(tx.trueDroppedBytes), old(tx.trueDroppedWrites), |data| - total, outcome)
        decreases outcome == Clear, |data| - total
      {
        var chunk := data[total..total + Min(|data| - total, MAX_RECORD)];
        ghost var there := Seen();
        SeesWire();
        SeesKey();
        assert data[..total] + chunk == data[..total + |chunk|];
        outcome := WriteChunk(chunk, |data| - total - |chunk|);
        NoMore([]);
        NoMore(data[..total]);
        ghost var written := if outcome == NotStaged then [] else chunk;
        DataThen(before, there, Seen(), [], data[..total], [], written);
        Monotone(before, there, Seen(), data[..total], written);
        SeesKey();
        AfterData(there, Seen(), [], written);
        if outcome != NotStaged {
          total := total + |chunk|;
        }
      }
      SeesWire();
    }

    // After a chunk: nothing dropped while clear, the rest dropped in one go when blocked.
    ghost predicate Accounted(bytes: nat, writes: nat, rest: int, outcome: ChunkOutcome)
      reads this, tx, client
    {
      && (outcome == Clear ==> tx.trueDroppedBytes == bytes && tx.trueDroppedWrites == writes)
      && (outcome == Blocked ==>
            tx.trueDroppedBytes == bytes + rest && tx.trueDroppedWrites == writes + if rest == 0 then 0 else 1)
      && (outcome == NotStaged || outcome == Gone ==> !protocolReady || !client.up)
    }

    // Stages one chunk and drains once; what a still pending chunk leaves behind is dropped.
    method WriteChunk(chunk: Bytes, rest: nat) returns (outcome: ChunkOutcome)
      requires Valid() && protocolReady && client.up && tx.PendingTxBytes() == 0 && 1 <= |chunk| <= MAX_RECORD
      modifies this, rx, tx, tx.txPending, tx.txAead, client
      ensures Valid() && client == old(client) && tx.txAead == old(tx.txAead)
      ensures DataStep(old(Seen()), Seen(), [], if outcome == NotStaged then [] else chunk)
      ensures old(tx.secureMode) ==> |tx.txAead.log| == |old(tx.txAead.log)| + if outcome == NotStaged then 0 else 1
      ensures outcome == NotStaged ==> !protocolReady
      ensures outcome == Clear ==> protocolReady && client.up && tx.PendingTxBytes() == 0
      ensures Accounted(old(tx.trueDroppedBytes), old(tx.trueDroppedWrites), rest, outcome)
      ensures Calm(old(Seen()), Seen()) ==> outcome == Clear
    {
      hide OnWire, Sound, Valid, Idle, Calm, DataStep, Seen;
      ghost var before := Seen();
      Sees();
      var staged := StageChunk(chunk);
      Sees();
      if !staged {
        return NotStaged;
      }
      ghost var there := Seen();
      var live := Offer();
      Sees();
      NoMore(chunk);
      NoMore([]);
      DataThen(before, there, Seen(), [], chunk, [], []);
      Monotone(before, there, Seen(), chunk, []);
      if !live || !protocolReady {
        return Gone;
      }
      if tx.PendingTxBytes() != 0 {
        RecordDrop(rest);
        return Blocked;
      }
      return Clear;
    }

    // One drain, and whether the connection is still there.
    method Offer() returns (live: bool)
      requires Valid() && protocolReady && client.up
      modifies this, rx, tx, client
      ensures Valid() && SameClient() && tx.txAead == old(tx.txAead) && live == client.up
      ensures DataStep(old(Seen()), Seen(), [], [])
      ensures Calm(old(Seen()), Seen()) ==> live && protocolReady && tx.PendingTxBytes() == 0
    {
      hide OnWire, Sound, Valid, DataStep, DrainStep, Idle, Calm, Seen;
      ghost var before := Seen();
      Sees();
      DrainTxPending();
      ghost var there := Seen();
      live := Live();
      Sees();
      Offered(before, there, Seen());
    }

    // Seals the chunk, or takes it as it is; a chunk that cannot be sealed ends the session.
    method StageChunk(chunk: Bytes) returns (ok: bool)
      requires Valid() && protocolReady && client.up && tx.PendingTxBytes() == 0 && 1 <= |chunk| <= MAX_RECORD
      modifies this, rx, tx, tx.txPending, tx.txAead, client
      ensures Valid() && client == old(client) && tx.txAead == old(tx.txAead)
      ensures DataStep(old(Seen()), Seen(), [], if ok then chunk else [])
      ensures old(tx.secureMode) ==> |tx.txAead.log| == |old(tx.txAead.log)| + if ok then 1 else 0
      ensures tx.trueDroppedBytes == old(tx.trueDroppedBytes) && tx.trueDroppedWrites == old(tx.trueDroppedWrites)
      ensures ok ==> protocolReady && client.up && Seen().faults == old(Seen()).faults
      ensures !ok ==> !protocolReady && Seen().faults > old(Seen()).faults
      ensures !ok ==> !Calm(old(Seen()), Seen())
    {
      hide Valid, DataStep, Seen;
      if tx.secureMode {
        ok := StageRecord(chunk);
      } else {
        StagePlain(chunk);
        ok := true;
      }
      Sees();
    }

    method StageRecord(chunk: Bytes) returns (ok: bool)
      requires Valid() && protocolReady && tx.secureMode && client.up && tx.PendingTxBytes() == 0
      requires 1 <= |chunk| <= MAX_RECORD
      modifies this, rx, tx, tx.txPending, tx.txAead, client
      ensures Valid() && client == old(client) && tx.txAead == old(tx.txAead)
      ensures DataStep(old(Seen()), Seen(), [], if ok then chunk else [])
      ensures old(tx.secureMode) ==> |tx.txAead.log| == |old(tx.txAead.log)| + if ok then 1 else 0
      ensures tx.trueDroppedBytes == old(tx.trueDroppedBytes) && tx.trueDroppedWrites == old(tx.trueDroppedWrites)
      ensures ok ==> protocolReady && client.up && Seen().faults == old(Seen()).faults
      ensures !ok ==> !protocolReady && Seen().faults > old(Seen()).faults
    {
      hide DataStep, FeedAll, DeviceKeys, WellNumbered, Wire, Plain, Run, Receiver.Valid;
      ghost var before := Seen();
      Sees();
      ok := tx.StageSecureRecord(chunk);
      if ok {
        SentSoFar(before, chunk);
        StagedBy(before, Seen(), chunk);
      } else {
        EndSession(before, []);
      }
    }

    method StagePlain(chunk: Bytes)
      requires Valid() && protocolReady && !tx.secureMode && tx.PendingTxBytes() == 0 && client.up && |chunk| <= MAX_RECORD
      modifies tx`txPendingLength, tx`txPendingOffset, tx`accepted, tx.txPending
      ensures Valid() && DataStep(old(Seen()), Seen(), [], chunk) && Seen().faults == old(Seen()).faults
    {
      hide DataStep, FeedAll, DeviceKeys, WellNumbered, Wire, Plain, Run, Receiver.Valid;
      ghost var before := Seen();
      Sees();
      tx.StageRaw(chunk);
      SentSoFar(before, chunk);
      StagedBy(before, Seen(), chunk);
    }

    // ---- The public calls --------------------------------------------------------------------------

    // The environment's step: bytes arrive on the connection in place.
    method Receive(bytes: Bytes)
      requires Valid()
      modifies client`inbound, client`arrived
      ensures Valid() && client.arrived == old(client.arrived) + bytes
      ensures Seen() == old(Seen()).(inbound := old(client.inbound) + bytes, arrived := old(client.arrived) + bytes)
    {
      hide DeviceKeys, WellNumbered, Wire, Plain, HeaderOk, LengthOf, SequenceOf, Run;
      Regroup(received + taken, client.inbound, bytes);
      client.Arrive(bytes);
    }

    method Begin()
      requires Valid()
      modifies this`started
      ensures Valid() && started && Seen() == old(Seen())
    {
      started := true;
    }

    method End()
      requires Valid()
      modifies this, rx, tx, client
      ensures Valid() && !started && !client.up && !protocolReady && authKey == old(authKey) && LetGo()
    {
      CloseProtocolClient();
      started := false;
    }

    method DisconnectClient()
      requires Valid()
      modifies this, rx, tx, client
      ensures Valid() && started == old(started) && !client.up && !protocolReady && authKey == old(authKey) && LetGo()
    {
      CloseProtocolClient();
    }

    // The session in place at the start of a call either continues or is replaced by one on a
    // new connection.
    twostate predicate SameOrNew()
      reads this, tx
    {
      && authKey == old(authKey)
      && tx.trueDroppedBytes == old(tx.trueDroppedBytes) && tx.trueDroppedWrites == old(tx.trueDroppedWrites)
      && tx.sealFailures == old(tx.sealFailures)
      && (client == old(client) || fresh(client))
      && (tx.txAead == old(tx.txAead) || fresh(tx.txAead))
    }

    // A started device whose connection is gone asks for another one, once, and takes what it gets.
    twostate predicate Looked()
      reads this, server
    {
      old(started) && !old(client.up) ==>
        && |server.answers| == |old(server.answers)| + 1 && old(server.answers) <= server.answers
        && client == if server.answers[|server.answers| - 1] == null then old(client)
                     else server.answers[|server.answers| - 1]
    }

    // A connection just taken carries the replies to the handshake bytes read from it, and no more.
    ghost predicate NewWire()
      requires Sized(h)
      reads this`client, this`authKey, client`arrived, client`wire
    {
      exists random, read :: read <= client.arrived && Answers(h, authKey, random, START, read, client.wire)
    }

    // What a call that accepts no data leaves of the connection it found, `found`, and of the keys.
    twostate predicate Settled(found: Client)
      requires old(Valid()) && Valid()
      reads this, rx, rx.rxRecordHeader, rx.rxCipher, rx.rxTag, rx.rxPlain, rx.rxAead, tx, tx.txPending, tx.txAead,
            handshakeBuffer, client, found
    {
      && Sized(h) && LastWire(h, old(Seen()), found.wire) && found.arrived == old(found.arrived)
      && (client != found ==> NewWire())
      && NewKeys()
    }

    // What had arrived on a connection just taken decides, with nothing interfering, what has
    // become of it.
    ghost predicate NewClient(now: nat)
      requires Valid()
      reads this, rx, rx.rxRecordHeader, rx.rxCipher, rx.rxTag, rx.rxPlain, rx.rxAead, tx, tx.txPending, tx.txAead,
            handshakeBuffer, client
    {
      && Sized(h) && (client.atFirst && client.faults == 0 ==> Outcome(h, START, client.arrived, now, Seen(), now))
      && NewWire()
    }

    // `candidate` is the connection that was waiting to be accepted, if any: it takes the place of one
    // that is gone, and only then.
    method Handle(now: nat) returns (ghost candidate: Client?)
      requires Valid()
      modifies this, rx, rx.rxRecordHeader, rx.rxCipher, rx.rxTag, rx.rxPlain, tx, handshakeBuffer, client, server
      ensures Valid() && SameOrNew() && Looked()
      ensures CallStep(old(Seen()), Seen(), [])
      ensures old(started) ==> HandleStep(h, old(Seen()), Seen(), now)
      ensures client != old(client) ==> old(started) && !old(client).up && client == candidate && NewClient(now)
      ensures server.answers == old(server.answers) + (if old(started) then [candidate] else [])
      ensures old(started) && candidate != null ==> (client == candidate <==> !old(client).up)
      ensures candidate != null && client != candidate ==> candidate.wire == [] && !candidate.up
      ensures !old(started) ==> Seen() == old(Seen())
      ensures Settled(old(client))
    {
      hide Answers, Outcome, OnWire, Sound, Valid, HandleStep, CallStep, Seen;
      Sees();
      candidate := null;
      if !started {
        SameCall(Seen());
        NothingSaid(h, Seen());
        return;
      }
      Serve(now);
      SeesWire();
      NotUpAgain(old(Seen()), Seen());
      var accepted := server.Accept();
      candidate := accepted;
      if accepted != null {
        ghost var before := old(Seen());
        Meet(accepted, now, before);
      }
    }

    // A new connection is turned away while the client in place is connected, and replaces it
    // otherwise.
    method Meet(candidate: Client, now: nat, ghost before: View)
      requires Valid() && candidate != client && candidate.wire == [] && candidate.arrived == candidate.inbound
      requires candidate.faults == 0 && (candidate.atFirst <==> candidate.up)
      requires before.client == client && HandleStep(h, before, Seen(), now)
      modifies this, rx, tx, handshakeBuffer, client`up, client`faults, candidate
      ensures Valid() && authKey == old(authKey) && (tx.txAead == old(tx.txAead) || fresh(tx.txAead))
      ensures tx.trueDroppedBytes == old(tx.trueDroppedBytes) && tx.trueDroppedWrites == old(tx.trueDroppedWrites)
      ensures tx.sealFailures == old(tx.sealFailures)
      ensures client == old(client) || (client == candidate && !old(client).up && NewClient(now))
      ensures HandleStep(h, before, Seen(), now) && CallStep(before, Seen(), [])
      ensures client != candidate ==> candidate.wire == [] && !candidate.up && client.up
      ensures (client == candidate <==> !old(client).up) && (old(client).up ==> old(client.up))
      ensures LastWire(h, before, old(client).wire) && old(client).arrived == old(client.arrived)
      ensures client != old(client) && protocolReady && tx.secureMode ==> fresh(tx.txAead)
      ensures client == old(client) ==>
                protocolReady == old(protocolReady) && tx.secureMode == old(tx.secureMode) && tx.txAead == old(tx.txAead)
    {
      hide OnWire, Sound, LastWire, Valid, HandleStep, CallStep, Idle, Begun, NewClient, Seen;
      SeesWire();
      ghost var there := Seen();
      var live := Live();
      HandleThenIdle(h, before, there, Seen(), now);
      SeesWire();
      if live {
        candidate.Stop();
        return;
      }
      Adopt(candidate, now);
      SeesWire();
      SeesKey();
      AnotherClient(h, before, Seen(), now);
    }

    // The part of `handle` that looks after the client in place.
    method Serve(now: nat)
      requires Valid()
      modifies this, rx, rx.rxRecordHeader, rx.rxCipher, rx.rxTag, rx.rxPlain, tx, handshakeBuffer, client
      ensures Valid() && SameClient() && HandleStep(h, old(Seen()), Seen(), now) && CallStep(old(Seen()), Seen(), [])
      ensures LastWire(h, old(Seen()), client.wire)
      ensures NewKeys()
    {
      hide OnWire, Sound, LastWire, Valid, DataStep, CallStep, Fate, Served, Seen;
      Sees();
      ghost var v0 := Seen();
      var live := Tidy();
      ghost var v1 := Seen();
      Sees();
      if live && !protocolReady {
        var _ := HandleHandshake(now);
      } else {
        NothingSaid(h, v1);
      }
      ghost var v2 := Seen();
      Sees();
      ServeData();
      Sees();
      TidyServeData(h, v0, v1, v2, Seen(), now);
    }

    // A client object whose connection is gone is let go.
    method Tidy() returns (live: bool)
      requires Valid()
      modifies this, rx, tx, client
      ensures Valid() && SameClient() && live == client.up
      ensures DataStep(old(Seen()), Seen(), [], []) && (client.up ==> Idle(old(Seen()), Seen()))
    {
      hide OnWire, Sound, Valid, Seen, Idle, DataStep;
      ghost var v0 := Seen();
      SeesWire();
      var present := client.Present();
      live := Live();
      ghost var v1 := Seen();
      if present && !live {
        CloseGone();
      }
      ghost var v2 := Seen();
      live := Live();
      SeesWire();
      TidyStep(v0, v1, v2, Seen());
    }

    method CloseGone()
      requires Valid() && !client.up
      modifies this, rx, tx, client
      ensures Valid() && SameClient() && !client.up && !Seen().up && DataStep(old(Seen()), Seen(), [], [])
    {
      hide DataStep, FeedAll, DeviceKeys, WellNumbered, Wire, Plain, HeaderOk, LengthOf, SequenceOf, Run;
      ghost var before := Seen();
      Sees();
      CloseProtocolClient();
      ClosedStep(before, Seen(), [], []);
    }

    // Records in, pending bytes out.
    method ServeData()
      requires Valid()
      modifies this, rx, rx.rxRecordHeader, rx.rxCipher, rx.rxTag, rx.rxPlain, tx, client
      ensures Valid() && SameClient() && DataStep(old(Seen()), Seen(), [], []) && Served(old(Seen()), Seen())
    {
      hide OnWire, Sound, Valid, DataStep, PollStep, DrainStep, Served, Seen;
      ghost var v0 := Seen();
      var _ := PollRecords();
      ghost var v1 := Seen();
      var live := Live();
      ghost var v2 := Seen();
      Sees();
      if live && protocolReady {
        DrainTxPending();
      }
      PollThenDrain(v0, v1, v2, Seen());
    }

    // A new client takes the place of one that is gone.
    method Adopt(candidate: Client, now: nat)
      requires Valid() && candidate.wire == [] && candidate.arrived == candidate.inbound
      requires candidate.faults == 0 && (candidate.atFirst <==> candidate.up)
      modifies this, rx, tx, handshakeBuffer, candidate
      ensures Valid() && client == candidate && authKey == old(authKey)
      ensures tx.txAead == old(tx.txAead) || fresh(tx.txAead)
      ensures tx.trueDroppedBytes == old(tx.trueDroppedBytes) && tx.trueDroppedWrites == old(tx.trueDroppedWrites)
      ensures tx.sealFailures == old(tx.sealFailures)
      ensures (protocolReady ==> Begun(Seen(), [])) && NewClient(now)
      ensures protocolReady && tx.secureMode ==> fresh(tx.txAead)
    {
      hide OnWire, Sound, Valid, Outcome, CallStep, Seen;
      Install(candidate, now);
      Sees();
      ghost var before := Seen();
      var _ := HandleHandshake(now);
      Sees();
      BegunByCall(before, Seen());
      FirstWords(h, before, client.wire);
    }

    method Install(candidate: Client, now: nat)
      requires Valid() && candidate.wire == [] && candidate.arrived == candidate.inbound
      modifies this, rx, tx
      ensures Valid() && client == candidate && authKey == old(authKey) && !protocolReady && unchanged(candidate)
      ensures tx.txAead == old(tx.txAead)
      ensures tx.trueDroppedBytes == old(tx.trueDroppedBytes) && tx.trueDroppedWrites == old(tx.trueDroppedWrites)
      ensures tx.sealFailures == old(tx.sealFailures)
      ensures Seen().session == START && Seen().inbound == client.arrived && Seen().startedAt == now
    {
      hide Run;
      client := candidate;
      ResetProtocolState();
      StartClock(now);
    }

    method StartClock(now: nat)
      requires Valid()
      modifies this`handshakeStartedAt
      ensures Valid() && Seen() == old(Seen()).(startedAt := now)
    {
      hide DeviceKeys, WellNumbered, Wire, Plain, Run, HeaderOk, LengthOf, SequenceOf;
      handshakeStartedAt := now;
    }

    // `met` is what the call found after its own `handle`.  Bytes are accepted only in a session
    // that is ready.
    method Write(data: Bytes, now: nat) returns (total: nat, ghost met: View)
      requires Valid()
      modifies this, rx, rx.rxRecordHeader, rx.rxCipher, rx.rxTag, rx.rxPlain, tx, tx.txPending, tx.txAead,
               handshakeBuffer, client, server
      ensures Valid() && Looked() && total <= |data|
      ensures CallStep(old(Seen()), met, []) && (old(started) ==> Fate(h, old(Seen()), met, now))
      ensures DataStep(met, Seen(), [], data[..total])
      ensures !(met.up && met.Ready()) ==>
                && total == 0 && Seen() == met
                && tx.trueDroppedBytes == old(tx.trueDroppedBytes) && tx.trueDroppedWrites == old(tx.trueDroppedWrites)
      ensures met.up && met.Ready() && protocolReady && client.up ==>
                && tx.trueDroppedBytes == old(tx.trueDroppedBytes) + |data| - total
                && tx.trueDroppedWrites == old(tx.trueDroppedWrites) + if total < |data| then 1 else 0
      ensures old(started) && Calm(old(Seen()), Seen()) && met.Ready() ==> total == |data| && protocolReady && client.up
      ensures LastWire(h, old(Seen()), if met.client == old(client) then met.wire else old(client).wire)
      ensures authKey == old(authKey) && (client == old(client) || fresh(client))
      ensures met.client == client && (met.txAead == old(tx.txAead) || fresh(met.txAead))
      ensures if met.txAead == old(tx.txAead) then met.txLog == old(tx.txAead.log)
              else old(tx.txAead).log == old(tx.txAead.log)
      ensures met.up && met.Secure() ==> |met.txAead.log| == |met.txLog| + RecordsFor(total)
      ensures old(client).arrived == old(client.arrived)
      ensures Sound(met) && (met.up ==> Known(h, met))
      ensures met.Secure() ==>
                if client == old(client) && old(protocolReady) then met.txAead == old(tx.txAead) && old(tx.secureMode)
                else fresh(met.txAead)
      ensures client != old(client) && !(met.up && met.Ready()) ==> NewWire()
    {
      hide RecordsFor, OnWire, Sound, LastWire, Answers, Idle, Calm, Served, Valid, DataStep, HandleStep, CallStep, Fate,
           Seen;
      ghost var before := Seen();
      var live;
      live, met := HandleAndTest(now);
      SeesWire();
      SeesKey();
      SeesLog();
      ghost var last := old(client).wire;
      assert LastWire(h, before, last) && (met.client == old(client) ==> met.wire == last);
      total := WriteFound(data, live);
      SeesWire();
      SeesKey();
      StillCalm(before, met, Seen(), data[..total]);
      assert met.client != old(client) ==> old(client).wire == last;
    }

    method WriteFound(data: Bytes, live: bool) returns (total: nat)
      requires Valid() && live == client.up && Idle(Seen(), Seen())
      modifies this, rx, tx, tx.txPending, tx.txAead, client
      ensures Valid() && total <= |data| && client == old(client) && tx.txAead == old(tx.txAead)
      ensures DataStep(old(Seen()), Seen(), [], data[..total])
      ensures !old(client.up && protocolReady) ==>
                && total == 0 && Seen() == old(Seen())
                && tx.trueDroppedBytes == old(tx.trueDroppedBytes) && tx.trueDroppedWrites == old(tx.trueDroppedWrites)
      ensures old(client.up && protocolReady) && protocolReady && client.up ==>
                && tx.trueDroppedBytes == old(tx.trueDroppedBytes) + |data| - total
                && tx.trueDroppedWrites == old(tx.trueDroppedWrites) + if total < |data| then 1 else 0
      ensures Calm(old(Seen()), Seen()) && old(protocolReady && tx.PendingTxBytes() == 0) ==>
                total == |data| && protocolReady && client.up
      ensures old(protocolReady && tx.secureMode) ==> |tx.txAead.log| == |old(tx.txAead.log)| + RecordsFor(total)
    {
      hide OnWire, Sound, Idle, Valid, DataStep, Seen;
      Sees();
      total := 0;
      IdleStep(Seen(), Seen());
      assert data[..0] == [];
      if live && protocolReady && data != [] {
        total := WriteReady(data);
      }
    }

    // `handle()` and `_client && _client.connected()`.
    method HandleAndTest(now: nat) returns (live: bool, ghost met: View)
      requires Valid()
      modifies this, rx, rx.rxRecordHeader, rx.rxCipher, rx.rxTag, rx.rxPlain, tx, handshakeBuffer, client, server
      ensures Valid() && SameOrNew() && Looked() && met == Seen() && live == client.up && Idle(met, met)
      ensures CallStep(old(Seen()), met, []) && Settled(old(client))
      ensures old(started) ==> Fate(h, old(Seen()), met, now) && Served(old(Seen()), met)
      ensures Sound(met) && (met.up ==> Known(h, met))
    {
      hide OnWire, Sound, LastWire, Valid, HandleStep, CallStep, Fate, Served, Seen;
      ghost var before := Seen();
      ghost var _ := Handle(now);
      Sees();
      ghost var there := Seen();
      live := Live();
      met := Seen();
      Sees();
      SeenKnown();
      AfterHandle(h, before, there, met, now);
    }

    // Whether plaintext is already waiting, so that a read need not look at the socket.
    method HasUnread() returns (has: bool)
      requires Valid()
      modifies client`up, client`faults
      ensures Valid() && Idle(old(Seen()), Seen())
      ensures has ==> tx.secureMode && protocolReady && client.up && rx.Unread() != []
      ensures Calm(old(Seen()), Seen()) && old(Seen()).Secure() && old(Seen()).unread != [] ==> has
    {
      hide Valid;
      Sees();
      if !tx.secureMode || !protocolReady {
        return false;
      }
      var live := Live();
      Sees();
      has := live && rx.rxPlainOffset < rx.rxPlainLength;
      assert |rx.Unread()| == rx.rxPlainLength - rx.rxPlainOffset;
    }

    // `handle`, unless a ready secure session has unread plaintext.
    method HandleUnlessUnread(now: nat)
      requires Valid()
      modifies this, rx, rx.rxRecordHeader, rx.rxCipher, rx.rxTag, rx.rxPlain, tx, handshakeBuffer, client, server
      ensures Valid() && SameOrNew() && Looked()
      ensures CallStep(old(Seen()), Seen(), []) && KeepsUnread(old(Seen()), Seen())
      ensures old(started) ==> Fate(h, old(Seen()), Seen(), now)
      ensures Settled(old(client))
    {
      hide OnWire, Sound, LastWire, Valid, CallStep, Outcome, Seen;
      Sees();
      ghost var before := Seen();
      var unread := HasUnread();
      Sees();
      ghost var there := Seen();
      if unread {
        IdleCall(h, before, there, now);
      } else {
        ghost var _ := Handle(now);
        assert LastWire(h, there, old(client).wire);
        IdleThenCall(h, before, there, Seen(), now);
      }
    }

    // The common start of the reading calls: afterwards a ready secure session has been given
    // the chance to produce plaintext.
    method PrepareRead(now: nat) returns (ready: bool)
      requires Valid()
      modifies this, rx, rx.rxRecordHeader, rx.rxCipher, rx.rxTag, rx.rxPlain, tx, handshakeBuffer, client, server
      ensures Valid() && SameOrNew() && Looked()
      ensures CallStep(old(Seen()), Seen(), []) && KeepsUnread(old(Seen()), Seen())
      ensures old(started) ==> Fate(h, old(Seen()), Seen(), now)
      ensures (ready ==> protocolReady) && (protocolReady && client.up ==> ready)
      ensures Settled(old(client))
    {
      hide OnWire, Sound, LastWire, Valid, CallStep, PollStep, KeepsUnread, Fate, NewWire, Seen;
      SeesWire();
      SeesKey();
      ghost var before := Seen();
      HandleUnlessUnread(now);
      ghost var last := old(client).wire;
      assert LastWire(h, before, last);
      ghost var there := Seen();
      SeesWire();
      SeesKey();
      ready := PollRecords();
      SeesWire();
      SeesKey();
      CallThenPoll(h, before, there, Seen(), now);
      assert client != old(client) ==> old(client).wire == last;
    }

    method PollRecords() returns (ready: bool)
      requires Valid()
      modifies this, rx, rx.rxRecordHeader, rx.rxCipher, rx.rxTag, rx.rxPlain, tx, client
      ensures Valid() && SameClient() && PollStep(old(Seen()), Seen())
      ensures (ready ==> protocolReady) && (protocolReady && client.up ==> ready)
    {
      hide OnWire, Sound, Valid, PollStep, Seen;
      ghost var v0 := Seen();
      ready := Live();
      ready := ready && protocolReady;
      ghost var v1 := Seen();
      Sees();
      if ready && tx.secureMode {
        var _ := HandleSecureRx();
        ready := protocolReady;
        IdleThenPoll(v0, v1, Seen());
      } else {
        IdlePolls(v0, v1);
      }
    }

    // Bulk read.  `met` is what the call found after its own `handle`: in a secure session the bytes
    // returned are the first of the unread plaintext, as many as fit; unencrypted, the first waiting.
    method ReadBulk(buffer: array<byte>, size: nat, now: nat) returns (count: nat, ghost met: View)
      requires Valid() && size <= buffer.Length && Foreign(buffer)
      modifies this, rx, rx.rxRecordHeader, rx.rxCipher, rx.rxTag, rx.rxPlain, tx, handshakeBuffer, client, server, buffer
      ensures Valid() && SameOrNew() && (size > 0 ==> Looked()) && count <= size
      ensures CallStep(old(Seen()), Seen(), buffer[..count])
      ensures old(started) && size > 0 ==> Fate(h, old(Seen()), Seen(), now)
      ensures CallStep(old(Seen()), met, []) && KeepsUnread(old(Seen()), met)
      ensures met.client == client && Handed(met, Seen(), buffer[..count], size)
      ensures Settled(old(client))
    {
      hide OnWire, Sound, LastWire, Answers, Valid, DataStep, CallStep, Fate, KeepsUnread, Handed, NewWire, Seen;
      Sees();
      met := Seen();
      SameCall(met);
      NothingSaid(h, met);
      count := 0;
      if size > 0 {
        ghost var handed;
        count, handed, met := ReadSome(buffer, size, now);
      } else {
        NothingHanded(met, 0);
        assert buffer[..0] == [];
      }
    }

    method ReadSome(buffer: array<byte>, size: nat, now: nat) returns (count: nat, ghost handed: Bytes, ghost met: View)
      requires Valid() && 0 < size <= buffer.Length && Foreign(buffer)
      modifies this, rx, rx.rxRecordHeader, rx.rxCipher, rx.rxTag, rx.rxPlain, tx, handshakeBuffer, client, server, buffer
      ensures Valid() && SameOrNew() && Looked() && count <= size && handed == buffer[..count]
      ensures CallStep(old(Seen()), Seen(), handed)
      ensures old(started) ==> Fate(h, old(Seen()), Seen(), now)
      ensures CallStep(old(Seen()), met, []) && KeepsUnread(old(Seen()), met)
      ensures met.client == client && Handed(met, Seen(), handed, size)
      ensures Settled(old(client))
    {
      hide OnWire, Sound, LastWire, Answers, Valid, DataStep, CallStep, Fate, KeepsUnread, Handed, NewWire, Seen;
      ghost var before := Seen();
      var ready := PrepareRead(now);
      met := Seen();
      SeesWire();
      count, handed := ReadIfReady(ready, buffer, size);
      SeesWire();
      ReadAfter(h, before, met, Seen(), handed, size, now);
    }

    method ReadIfReady(ready: bool, buffer: array<byte>, size: nat) returns (count: nat, ghost handed: Bytes)
      requires Valid() && 0 < size <= buffer.Length && Foreign(buffer)
      requires (ready ==> protocolReady) && (protocolReady && client.up ==> ready)
      modifies this`taken, rx`rxPlainOffset, rx`rxPlainLength, rx`delivered, client`inbound, client`faults, buffer
      ensures Valid() && count <= size && handed == buffer[..count] && Handed(old(Seen()), Seen(), handed, size)
    {
      hide OnWire, Sound, Valid, DataStep, Seen;
      Sees();
      count := 0;
      if ready {
        count := ReadNow(buffer, size);
        Sees();
      } else {
        NothingHanded(Seen(), size);
      }
      handed := buffer[..count];
    }

    // A buffer of the application's, not one of the device's own.
    ghost predicate Foreign(buffer: array<byte>)
    {
      && buffer != rx.rxPlain && buffer != rx.rxRecordHeader && buffer != rx.rxCipher && buffer != rx.rxTag
      && buffer != tx.txPending
    }

    method ReadNow(buffer: array<byte>, size: nat) returns (count: nat)
      requires Valid() && protocolReady && size <= buffer.Length && Foreign(buffer)
      modifies this`taken, rx`rxPlainOffset, rx`rxPlainLength, rx`delivered, client`inbound, client`faults, buffer
      ensures Valid() && count <= size && DataStep(old(Seen()), Seen(), buffer[..count], [])
      ensures tx.secureMode ==> count == Min(size, |old(rx.Unread())|) && buffer[..count] == old(rx.Unread())[..count]
      ensures !tx.secureMode ==>
                count <= |old(client.inbound)| && buffer[..count] == old(client.inbound)[..count]
      ensures Seen().faults == old(Seen()).faults && size > 0 && Next(old(Seen())) != [] ==> count > 0
    {
      Sees();
      if tx.secureMode {
        count := TakePlain(buffer, size);
      } else {
        count := ReadSocket(buffer, size);
      }
    }

    method TakePlain(buffer: array<byte>, size: nat) returns (count: nat)
      requires Valid() && protocolReady && tx.secureMode && size <= buffer.Length && Foreign(buffer)
      modifies rx`rxPlainOffset, rx`rxPlainLength, rx`delivered, buffer
      ensures Valid() && count <= size && DataStep(old(Seen()), Seen(), buffer[..count], [])
      ensures count == Min(size, |old(rx.Unread())|) && buffer[..count] == old(rx.Unread())[..count]
    {
      hide DataStep, WellNumbered, Wire, Plain, HeaderOk, LengthOf, Receiver.Valid, Transmitter.Valid, DeviceKeys, Run;
      ghost var before := Seen();
      Sees();
      count := rx.Take(buffer, size);
      HandedSecure(before, Seen(), buffer[..count]);
    }

    method ReadSocket(buffer: array<byte>, size: nat) returns (count: nat)
      requires Valid() && protocolReady && !tx.secureMode && size <= buffer.Length && Foreign(buffer)
      modifies this`taken, client`inbound, client`faults, buffer
      ensures Valid() && count <= size && DataStep(old(Seen()), Seen(), buffer[..count], [])
      ensures count <= |old(client.inbound)| && buffer[..count] == old(client.inbound)[..count]
      ensures Seen().faults == old(Seen()).faults && size > 0 && old(client.inbound) != [] ==> count > 0
    {
      hide DataStep, WellNumbered, Wire, Plain, HeaderOk, LengthOf, Receiver.Valid, Transmitter.Valid, DeviceKeys, Run;
      ghost var before := Seen();
      Sees();
      count := ReadRaw(buffer, size);
      assert before.inbound == buffer[..count] + client.inbound;
      AccountMoved(received, taken, buffer[..count], client.inbound);
      taken := taken + buffer[..count];
      HandedRaw(before, Seen(), buffer[..count]);
    }

    method ReadRaw(buffer: array<byte>, size: nat) returns (count: nat)
      requires size <= buffer.Length
      modifies client`inbound, client`faults, buffer
      ensures client.faults >= old(client.faults)
      ensures count <= size && count <= |old(client.inbound)| && client.inbound == old(client.inbound)[count..]
      ensures buffer[..count] == old(client.inbound)[..count]
      ensures client.faults == old(client.faults) && size > 0 && old(client.inbound) != [] ==> count > 0
    {
      var available := client.Available();
      var got := client.Read(buffer, 0, Min(available, size));
      count := if got > 0 then got else 0;
    }

    // The next byte, or -1.
    method Read(now: nat) returns (value: int, ghost met: View)
      requires Valid()
      modifies this, rx, rx.rxRecordHeader, rx.rxCipher, rx.rxTag, rx.rxPlain, tx, handshakeBuffer, client, server
      ensures Valid() && SameOrNew() && Looked() && value < 256
      ensures CallStep(old(Seen()), Seen(), ByteOrNone(value))
      ensures old(started) ==> Fate(h, old(Seen()), Seen(), now)
      ensures CallStep(old(Seen()), met, []) && KeepsUnread(old(Seen()), met)
      ensures met.client == client && Handed(met, Seen(), ByteOrNone(value), 1)
      ensures Settled(old(client))
    {
      hide OnWire, Sound, LastWire, Answers, Valid, DataStep, CallStep, Fate, KeepsUnread, Handed, Seen;
      ghost var before := Seen();
      var ready := PrepareRead(now);
      met := Seen();
      SeesWire();
      value := ReadByteIfReady(ready);
      SeesWire();
      ReadAfter(h, before, met, Seen(), ByteOrNone(value), 1, now);
    }

    method ReadByteIfReady(ready: bool) returns (value: int)
      requires Valid()
      requires (ready ==> protocolReady) && (protocolReady && client.up ==> ready)
      modifies this`taken, rx`rxPlainOffset, rx`rxPlainLength, rx`delivered, client`inbound, client`faults
      ensures Valid() && value < 256 && Handed(old(Seen()), Seen(), ByteOrNone(value), 1)
    {
      hide OnWire, Sound, Valid, DataStep, Seen;
      Sees();
      value := -1;
      if ready {
        value := ReadByteNow();
        Sees();
      } else {
        NothingHanded(Seen(), 1);
      }
    }

    method ReadByteNow() returns (value: int)
      requires Valid() && protocolReady
      modifies this`taken, rx`rxPlainOffset, rx`rxPlainLength, rx`delivered, client`inbound, client`faults
      ensures Valid() && value < 256 && DataStep(old(Seen()), Seen(), ByteOrNone(value), [])
      ensures tx.secureMode ==> value == if old(rx.Unread()) == [] then -1 else old(rx.Unread())[0]
      ensures !tx.secureMode && value >= 0 ==> old(client.inbound) != [] && value == old(client.inbound)[0]
      ensures Seen().faults == old(Seen()).faults && Next(old(Seen())) != [] ==> value >= 0
    {
      Sees();
      if tx.secureMode {
        value := TakeUnread();
      } else {
        value := ReadSocketByte();
      }
    }

    method TakeUnread() returns (value: int)
      requires Valid() && protocolReady && tx.secureMode
      modifies rx`rxPlainOffset, rx`rxPlainLength, rx`delivered
      ensures Valid() && value < 256 && DataStep(old(Seen()), Seen(), ByteOrNone(value), [])
      ensures value == if old(rx.Unread()) == [] then -1 else old(rx.Unread())[0]
    {
      hide DataStep, WellNumbered, Wire, Plain, HeaderOk, LengthOf, Receiver.Valid, Transmitter.Valid, DeviceKeys, Run;
      ghost var before := Seen();
      Sees();
      NoMore(rx.delivered);
      value := rx.TakeByte();
      assert before.unread != [] ==> before.unread[..1] == [before.unread[0]];
      HandedSecure(before, Seen(), ByteOrNone(value));
    }

    method ReadSocketByte() returns (value: int)
      requires Valid() && protocolReady && !tx.secureMode
      modifies this`taken, client`inbound, client`faults
      ensures Valid() && value < 256 && DataStep(old(Seen()), Seen(), ByteOrNone(value), [])
      ensures value >= 0 ==> old(client.inbound) != [] && value == old(client.inbound)[0]
      ensures Seen().faults == old(Seen()).faults && old(client.inbound) != [] ==> value >= 0
    {
      hide DataStep, WellNumbered, Wire, Plain, HeaderOk, LengthOf, Receiver.Valid, Transmitter.Valid, DeviceKeys, Run;
      ghost var before := Seen();
      Sees();
      value := client.ReadByte();
      ghost var handed := ByteOrNone(value);
      assert before.inbound == handed + client.inbound;
      AccountMoved(received, taken, handed, client.inbound);
      NoMore(taken);
      taken := taken + handed;
      HandedRaw(before, Seen(), handed);
    }

    method Available(now: nat) returns (count: nat)
      requires Valid()
      modifies this, rx, rx.rxRecordHeader, rx.rxCipher, rx.rxTag, rx.rxPlain, tx, handshakeBuffer, client, server
      ensures Valid() && SameOrNew() && Looked()
      ensures CallStep(old(Seen()), Seen(), []) && KeepsUnread(old(Seen()), Seen())
      ensures old(started) ==> Fate(h, old(Seen()), Seen(), now)
      ensures client.up || count > 0 ==> count == |Next(Seen())|
      ensures Settled(old(client))
    {
      hide CallStep, KeepsUnread, Fate, Valid, Seen;
      var ready := PrepareRead(now);
      Sees();
      if !ready {
        return 0;
      }
      if !tx.secureMode {
        count := client.Available();
      } else {
        count := rx.rxPlainLength - rx.rxPlainOffset;
        assert |rx.Unread()| == count;
      }
    }

    method Peek(now: nat) returns (value: int)
      requires Valid()
      modifies this, rx, rx.rxRecordHeader, rx.rxCipher, rx.rxTag, rx.rxPlain, tx, handshakeBuffer, client, server
      ensures Valid() && SameOrNew() && Looked()
      ensures CallStep(old(Seen()), Seen(), []) && KeepsUnread(old(Seen()), Seen())
      ensures old(started) ==> Fate(h, old(Seen()), Seen(), now)
      ensures value >= 0 ==> Next(Seen()) != [] && value == Next(Seen())[0]
      ensures client.up && Seen().Secure() && Seen().unread != [] ==> value == Seen().unread[0]
      ensures Settled(old(client))
    {
      hide CallStep, KeepsUnread, Fate, Valid, Seen;
      var ready := PrepareRead(now);
      Sees();
      if !ready {
        return -1;
      }
      if !tx.secureMode {
        value := client.PeekByte();
      } else {
        value := rx.PeekByte();
      }
    }

    // A ready session is what reading everything that has arrived makes of it; the rest of that is
    // the data taken and what still waits.
    lemma ReadyByReading()
      requires Valid() && client.up && protocolReady
      ensures ReadStream(h, authKey, serverRandom, START, client.arrived)
              == Reading(CurrentSession(), taken + client.inbound)
    {
      hide ReadStream, OnLine, Core, FeedHandshake;
      ValidParts();
      FeedNone(h, authKey, serverRandom, START);
      var init, b := received[..|received| - 1], received[|received| - 1];
      assert received == init + [b];
      FeedMore(h, authKey, serverRandom, START, init, b);
      Regroup(received, taken, client.inbound);
      FeedDecidesHere(h, authKey, serverRandom, START, init, b, taken + client.inbound);
    }

    method Connected(now: nat) returns (ready: bool)
      requires Valid()
      modifies this, rx, rx.rxRecordHeader, rx.rxCipher, rx.rxTag, rx.rxPlain, tx, handshakeBuffer, client, server
      ensures Valid() && SameOrNew() && Looked() && ready == (client.up && protocolReady)
      ensures CallStep(old(Seen()), Seen(), []) && Settled(old(client))
      ensures old(started) ==> Fate(h, old(Seen()), Seen(), now) && Served(old(Seen()), Seen())
    {
      hide LastWire, Answers, Valid, CallStep, Fate, Served, NewWire, Seen;
      var live, _ := HandleAndTest(now);
      ready := live && protocolReady;
    }

    method Flush(now: nat)
      requires Valid()
      modifies this, rx, rx.rxRecordHeader, rx.rxCipher, rx.rxTag, rx.rxPlain, tx, handshakeBuffer, client, server
      ensures Valid() && SameOrNew() && Looked()
      ensures CallStep(old(Seen()), Seen(), [])
      ensures old(started) ==> HandleStep(h, old(Seen()), Seen(), now)
      ensures Settled(old(client))
    {
      ghost var _ := Handle(now);
    }
  }
}
