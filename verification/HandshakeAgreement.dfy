/** The two implementations joined: the host's account of a whole stream, the device's account of
    a whole stream, and what they agree on when each reads what the other sent. */
module HandshakeAgreement {
  import opened ByteStrings
  import opened ControlFields
  import opened ControlLines
  import opened Hkdf
  import opened Hex
  import opened Handshake
  import opened HandshakeExchange
  import opened HostNegotiation
  import opened DeviceHandshake

  function WithLf(line: string): Bytes {
    Ascii(line) + [LF]
  }

  function EndOfPhase(phase: Phase): DeviceEnd {
    match phase
    case AwaitingHello(_) => DeviceWaiting
    case AwaitingAuth(_, _, _) => DeviceWaiting
    case InRaw => DeviceInRaw
    case InSecure(keys) => DeviceSecure(keys)
    case Closed => DeviceClosed
  }

  // A clean line is read as itself, and reading stops right after it.
  lemma CarriedThen(line: string, rest: Bytes)
    requires CleanLine(line)
    ensures ScanLine("", WithLf(line) + rest) == Line(line, rest)
    ensures TrimSpace(line) == CString(line) == Received(line) == line
  {
    hide CString, TrimSpace, WithoutCR, Ascii;
    Carried(line);
    WithoutCROfAscii(line);
    assert "" + line == line;
    ScanIsLfSplit("", Ascii(line), rest);
  }

  lemma ReadLine(h: Hash, key: Bytes, random: Bytes, s: Session, line: string, rest: Bytes)
    requires Sized(h) && Undecided(s.phase) && s.phase.text == "" && CleanLine(line)
    ensures ReadStream(h, key, random, s, WithLf(line) + rest)
            == ReadStream(h, key, random, OnLine(h, key, random, s, line), rest)
  {
    hide OnLine, WithLf;
    CarriedThen(line, rest);
    ReadIsScan(h, key, random, s, WithLf(line) + rest);
  }

  // Both ends have read everything the other sent.  Data may follow the handshake in either
  // direction, from an end that has reached a mode.
  ghost predicate Joined(h: Hash, auth: AuthSettings, key: Bytes, cn: string, random: Bytes,
                         toDevice: Bytes, toHost: Bytes, hostData: Bytes, deviceData: Bytes)
    requires Sized(h)
  {
    var device := ReadStream(h, key, random, START, toDevice).session;
    && toDevice == SentOn(h, auth, cn, toHost) + hostData
    && toHost == device.control + deviceData
    && (hostData != [] ==> EndOn(h, auth, cn, toHost).end != HostFailed)
    && (deviceData != [] ==> device.phase.InRaw? || device.phase.InSecure?)
  }

  // What the joined ends must have come to.
  ghost predicate Agreed(h: Hash, auth: AuthSettings, key: Bytes, clientRandom: Bytes, random: Bytes,
                         toDevice: Bytes, toHost: Bytes, hostData: Bytes, deviceData: Bytes)
    requires Sized(h)
  {
    var host := EndOn(h, auth, HexEncode(clientRandom), toHost);
    var device := ReadStream(h, key, random, START, toDevice);
    && (host.end, EndOfPhase(device.session.phase)) == Exchange(h, auth, key, clientRandom, random)
    && (host.end != HostFailed ==> host.rest == deviceData)
    && (device.session.phase.InRaw? || device.session.phase.InSecure? ==> device.rest == hostData)
  }

  // The host's HELLO reaches the device as its first line.
  lemma HelloServed(h: Hash, key: Bytes, clientRandom: Bytes, random: Bytes, rest: Bytes)
    requires Sized(h) && |clientRandom| == NONCE_SIZE
    ensures var hello := HelloLine(HexEncode(clientRandom));
            && CString(Received(hello)) == CString(hello)
            && ReadStream(h, key, random, START, WithLf(hello) + rest)
               == ReadStream(h, key, random, Decide(START, DeviceOnHello(h, key, CString(hello), random)), rest)
  {
    hide DeviceOnHello, CString, HelloLine, WithLf, Decide;
    var cn := HexEncode(clientRandom);
    HexPrintable(clientRandom);
    HelloClean(cn);
    CarriedThen(HelloLine(cn), rest);
    ReadLine(h, key, random, START, HelloLine(cn), rest);
  }

  // Host against a device that answered with `reply` and whose later bytes are `rest`.
  lemma HostReads(h: Hash, auth: AuthSettings, cn: string, reply: string, rest: Bytes)
    requires Sized(h) && CleanLine(reply)
    ensures var step := HostOnFirst(h, auth, cn, TrimSpace(Received(reply)));
            && EndOn(h, auth, cn, WithLf(reply) + rest)
               == (match step
                   case HostRefuses => Ended(HostFailed, rest)
                   case HostRaw => Ended(HostInRaw, rest)
                   case HostSendsAuth(_, sn) => EndAfterAuth(h, auth, cn, sn, rest))
            && SentOn(h, auth, cn, WithLf(reply) + rest)
               == WithLf(HelloLine(cn)) + (if step.HostSendsAuth? then WithLf(step.line) else [])
  {
    hide HostOnFirst, EndAfterAuth, TrimSpace, Received, HelloLine;
    CarriedThen(reply, rest);
  }

  lemma RawJoined(h: Hash, auth: AuthSettings, clientRandom: Bytes, random: Bytes,
                  toDevice: Bytes, toHost: Bytes, hostData: Bytes, deviceData: Bytes)
    requires Sized(h) && |clientRandom| == |random| == NONCE_SIZE
    requires Joined(h, auth, [], HexEncode(clientRandom), random, toDevice, toHost, hostData, deviceData)
    ensures Agreed(h, auth, [], clientRandom, random, toDevice, toHost, hostData, deviceData)
  {
    hide HostOnFirst, EndAfterAuth, TrimSpace, Received, CString, HelloLine, EndOn, SentOn, HexEncode;
    var cn := HexEncode(clientRandom);
    HexPrintable(clientRandom);
    HelloClean(cn);
    Carried(HelloLine(cn));
    Commands(cn, "");
    assert DeviceOnHello(h, [], CString(HelloLine(cn)), random) == DeviceStep(OK_RAW, ReadyRaw);
    RawSession(h, auth, clientRandom, random, toDevice, toHost);
    OkRawClean();
    HostAcceptsRaw(h, auth, cn);
    HostReads(h, auth, cn, OK_RAW, deviceData);
    RawExchange(h, auth, clientRandom, random);
    assert WithLf(HelloLine(cn)) + [] + hostData == WithLf(HelloLine(cn)) + hostData;
    HelloServed(h, [], clientRandom, random, hostData);
  }

  // Whatever follows the HELLO, a keyless device has answered and left it.
  lemma RawSession(h: Hash, auth: AuthSettings, clientRandom: Bytes, random: Bytes, toDevice: Bytes, toHost: Bytes)
    requires Sized(h) && |clientRandom| == NONCE_SIZE
    requires var hello := HelloLine(HexEncode(clientRandom));
             && DeviceOnHello(h, [], CString(hello), random) == DeviceStep(OK_RAW, ReadyRaw)
             && SentOn(h, auth, HexEncode(clientRandom), toHost) <= toDevice
    ensures ReadStream(h, [], random, START, toDevice).session == Session(InRaw, WithLf(OK_RAW))
  {
    hide HostOnFirst, TrimSpace, CString, HelloLine, DeviceOnHello;
    var hello := HelloLine(HexEncode(clientRandom));
    var rest := toDevice[|WithLf(hello)|..];
    assert toDevice == WithLf(hello) + rest;
    HelloServed(h, [], clientRandom, random, rest);
    assert [] + Ascii(OK_RAW) + [LF] == WithLf(OK_RAW);
  }

  lemma {:induction false} ControlGrows(h: Hash, key: Bytes, random: Bytes, s: Session, stream: Bytes)
    requires Sized(h)
    ensures s.control <= ReadStream(h, key, random, s, stream).session.control
    decreases |stream|
  {
    hide DeviceOnHello, DeviceOnAuth;
    if Undecided(s.phase) && stream != [] {
      ControlGrows(h, key, random, FeedByte(h, key, random, s, stream[0]), stream[1..]);
    }
  }

  // The challenge a keyed device answers the HELLO with, and the session that leaves.
  function Challenge(h: Hash, key: Bytes, cn: string, sn: string): string {
    ChallengeLine(sn, HexEncode(Proof(h, key, "SERVER", cn, sn)))
  }

  function Challenging(h: Hash, key: Bytes, cn: string, sn: string): Session {
    Session(AwaitingAuth(cn, sn, ""), WithLf(Challenge(h, key, cn, sn)))
  }

  lemma ChallengeServed(h: Hash, key: Bytes, clientRandom: Bytes, random: Bytes, rest: Bytes)
    requires Sized(h) && |clientRandom| == |random| == NONCE_SIZE && key != []
    ensures var cn, sn := HexEncode(clientRandom), HexEncode(random);
            && ReadStream(h, key, random, START, WithLf(HelloLine(cn)) + rest)
               == ReadStream(h, key, random, Challenging(h, key, cn, sn), rest)
            && CleanLine(Challenge(h, key, cn, sn))
  {
    hide DeviceOnHello, CString, HelloLine, Received, ChallengeLine, HexEncode;
    var cn, sn := HexEncode(clientRandom), HexEncode(random);
    HelloServed(h, key, clientRandom, random, rest);
    DeviceChallenges(h, key, clientRandom, random);
    assert [] + Ascii(Challenge(h, key, cn, sn)) + [LF] == WithLf(Challenge(h, key, cn, sn));
    HexPrintable(random);
    HexPrintable(Proof(h, key, "SERVER", cn, sn));
    ChallengeLineClean(sn, HexEncode(Proof(h, key, "SERVER", cn, sn)));
  }

  // The two ways the AUTH line can end.
  lemma AuthServed(h: Hash, hostKey: Bytes, key: Bytes, clientRandom: Bytes, random: Bytes, rest: Bytes)
    requires Sized(h) && |clientRandom| == |random| == NONCE_SIZE
    ensures var cn, sn := HexEncode(clientRandom), HexEncode(random);
            var auth := AuthLine(HexEncode(Proof(h, hostKey, "CLIENT", cn, sn)));
            var s := Challenging(h, key, cn, sn);
            ReadStream(h, key, random, s, WithLf(auth) + rest)
            == if Proof(h, hostKey, "CLIENT", cn, sn) == Proof(h, key, "CLIENT", cn, sn)
               then Reading(Sending(s, InSecure(DeriveKeys(h, key, clientRandom, random)), OK_SECURE), rest)
               else Reading(Sending(s, Closed, "ESPNS/1 ERR auth_failed"), rest)
  {
    hide DeviceOnAuth, CString, Received, ChallengeLine, HexEncode, DeriveKeys, AuthLine;
    var cn, sn := HexEncode(clientRandom), HexEncode(random);
    var mac := Proof(h, hostKey, "CLIENT", cn, sn);
    HexPrintable(mac);
    AuthClean(HexEncode(mac));
    CarriedThen(AuthLine(HexEncode(mac)), rest);
    ReadLine(h, key, random, Challenging(h, key, cn, sn), AuthLine(HexEncode(mac)), rest);
    DeviceVerifies(h, hostKey, key, clientRandom, random);
  }

  lemma FinalRead(h: Hash, auth: AuthSettings, cn: string, sn: string, reply: string, rest: Bytes)
    requires Sized(h) && (reply == OK_SECURE || reply == "ESPNS/1 ERR auth_failed")
    ensures EndAfterAuth(h, auth, cn, sn, WithLf(reply) + rest)
            == Ended(if reply == OK_SECURE then HostKeys(h, auth.key, cn, sn) else HostFailed, rest)
  {
    hide TrimSpace, Received, HostAcceptsFinal, CString, HostKeys;
    OkSecureClean();
    AuthFailedClean();
    FinalLines();
    CarriedThen(reply, rest);
  }

  lemma KeyedExchange(h: Hash, auth: AuthSettings, key: Bytes, clientRandom: Bytes, random: Bytes)
    requires Sized(h) && |clientRandom| == |random| == NONCE_SIZE && key != []
    ensures var cn, sn := HexEncode(clientRandom), HexEncode(random);
            Exchange(h, auth, key, clientRandom, random)
            == if auth.key == [] || Proof(h, auth.key, "SERVER", cn, sn) != Proof(h, key, "SERVER", cn, sn)
               then (HostFailed, DeviceWaiting)
               else if Proof(h, auth.key, "CLIENT", cn, sn) == Proof(h, key, "CLIENT", cn, sn)
               then (HostKeys(h, auth.key, cn, sn), DeviceSecure(DeriveKeys(h, key, clientRandom, random)))
               else (HostFailed, DeviceClosed)
  {
    hide DeviceOnHello, HostOnFirst, DeviceOnAuth, HostAcceptsFinal, CString, Received, TrimSpace;
    hide HelloLine, ChallengeLine, AuthLine, Proof, HexEncode, DeriveKeys, HostKeys;
    DeviceChallenges(h, key, clientRandom, random);
    HostAnswers(h, auth, key, clientRandom, random);
    DeviceVerifies(h, auth.key, key, clientRandom, random);
    FinalLines();
  }

  // What the host gets starts with the challenge.
  lemma LaterToHost(h: Hash, auth: AuthSettings, key: Bytes, clientRandom: Bytes, random: Bytes,
                    toDevice: Bytes, toHost: Bytes, hostData: Bytes, deviceData: Bytes)
    returns (later: Bytes)
    requires Sized(h) && |clientRandom| == |random| == NONCE_SIZE && key != []
    requires Joined(h, auth, key, HexEncode(clientRandom), random, toDevice, toHost, hostData, deviceData)
    ensures toHost == WithLf(Challenge(h, key, HexEncode(clientRandom), HexEncode(random))) + later
  {
    hide HostOnFirst, TrimSpace, HelloLine, Challenge, EndOn, HexEncode;
    var cn, sn := HexEncode(clientRandom), HexEncode(random);
    var rest := toDevice[|WithLf(HelloLine(cn))|..];
    assert toDevice == WithLf(HelloLine(cn)) + rest;
    ChallengeServed(h, key, clientRandom, random, rest);
    ControlGrows(h, key, random, Challenging(h, key, cn, sn), rest);
    later := toHost[|WithLf(Challenge(h, key, cn, sn))|..];
  }

  lemma KeyedRefused(h: Hash, auth: AuthSettings, key: Bytes, clientRandom: Bytes, random: Bytes,
                     toDevice: Bytes, toHost: Bytes, hostData: Bytes, deviceData: Bytes, later: Bytes)
    requires Sized(h) && |clientRandom| == |random| == NONCE_SIZE && key != []
    requires Joined(h, auth, key, HexEncode(clientRandom), random, toDevice, toHost, hostData, deviceData)
    requires toHost == WithLf(Challenge(h, key, HexEncode(clientRandom), HexEncode(random))) + later
    requires var cn, sn := HexEncode(clientRandom), HexEncode(random);
             auth.key == [] || Proof(h, auth.key, "SERVER", cn, sn) != Proof(h, key, "SERVER", cn, sn)
    ensures Agreed(h, auth, key, clientRandom, random, toDevice, toHost, hostData, deviceData)
  {
    hide HostOnFirst, TrimSpace, Received, HelloLine, ChallengeLine, Proof, EndOn, SentOn, HexEncode, Exchange;
    var cn, sn := HexEncode(clientRandom), HexEncode(random);
    ChallengeServed(h, key, clientRandom, random, []);
    HostAnswers(h, auth, key, clientRandom, random);
    HostReads(h, auth, cn, Challenge(h, key, cn, sn), later);
    KeyedExchange(h, auth, key, clientRandom, random);
    assert toDevice == WithLf(HelloLine(cn)) + [] + [];
    assert toDevice == WithLf(HelloLine(cn)) + [];
  }

  lemma KeyedAnswered(h: Hash, auth: AuthSettings, key: Bytes, clientRandom: Bytes, random: Bytes,
                      toDevice: Bytes, toHost: Bytes, hostData: Bytes, deviceData: Bytes, later: Bytes)
    requires Sized(h) && |clientRandom| == |random| == NONCE_SIZE && key != []
    requires Joined(h, auth, key, HexEncode(clientRandom), random, toDevice, toHost, hostData, deviceData)
    requires toHost == WithLf(Challenge(h, key, HexEncode(clientRandom), HexEncode(random))) + later
    requires var cn, sn := HexEncode(clientRandom), HexEncode(random);
             auth.key != [] && Proof(h, auth.key, "SERVER", cn, sn) == Proof(h, key, "SERVER", cn, sn)
    ensures Agreed(h, auth, key, clientRandom, random, toDevice, toHost, hostData, deviceData)
  {
    hide HostOnFirst, TrimSpace, Received, HelloLine, ChallengeLine, AuthLine, Proof, EndOn, SentOn, HexEncode;
    hide Exchange, HostKeys, DeriveKeys, EndAfterAuth;
    var cn, sn := HexEncode(clientRandom), HexEncode(random);
    var challenge, answer := Challenge(h, key, cn, sn), AuthLine(HexEncode(Proof(h, auth.key, "CLIENT", cn, sn)));
    HostAnswers(h, auth, key, clientRandom, random);
    ChallengeServed(h, key, clientRandom, random, WithLf(answer) + hostData);
    HostReads(h, auth, cn, challenge, later);
    Regroup(WithLf(HelloLine(cn)), WithLf(answer), hostData);
    AuthServed(h, auth.key, key, clientRandom, random, hostData);
    KeyedExchange(h, auth, key, clientRandom, random);
    var same := Proof(h, auth.key, "CLIENT", cn, sn) == Proof(h, key, "CLIENT", cn, sn);
    var reply := if same then OK_SECURE else "ESPNS/1 ERR auth_failed";
    AfterChallenge(WithLf(challenge), reply, deviceData, later);
    FinalRead(h, auth, cn, sn, reply, deviceData);
  }

  lemma AfterChallenge(sent: Bytes, reply: string, data: Bytes, later: Bytes)
    requires sent + Ascii(reply) + [LF] + data == sent + later
    ensures later == WithLf(reply) + data
  {
    assert sent + Ascii(reply) + [LF] + data == sent + (WithLf(reply) + data);
    assert later == (sent + later)[|sent|..] == WithLf(reply) + data;
  }

  // Whatever data follows the handshake, host and device end as `Exchange` says, and each leaves
  // exactly the other's data unread.
  lemma JoinedEndsAgree(h: Hash, auth: AuthSettings, key: Bytes, clientRandom: Bytes, random: Bytes,
                        toDevice: Bytes, toHost: Bytes, hostData: Bytes, deviceData: Bytes)
    requires Sized(h) && |clientRandom| == |random| == NONCE_SIZE
    requires Joined(h, auth, key, HexEncode(clientRandom), random, toDevice, toHost, hostData, deviceData)
    ensures Agreed(h, auth, key, clientRandom, random, toDevice, toHost, hostData, deviceData)
  {
    hide Joined, Agreed;
    if key == [] {
      RawJoined(h, auth, clientRandom, random, toDevice, toHost, hostData, deviceData);
    } else {
      var later := LaterToHost(h, auth, key, clientRandom, random, toDevice, toHost, hostData, deviceData);
      var cn, sn := HexEncode(clientRandom), HexEncode(random);
      if auth.key != [] && Proof(h, auth.key, "SERVER", cn, sn) == Proof(h, key, "SERVER", cn, sn) {
        KeyedAnswered(h, auth, key, clientRandom, random, toDevice, toHost, hostData, deviceData, later);
      } else {
        KeyedRefused(h, auth, key, clientRandom, random, toDevice, toHost, hostData, deviceData, later);
      }
    }
  }

  // There is such a joint run for all data that the ends may send.
  lemma JoinedExists(h: Hash, auth: AuthSettings, key: Bytes, clientRandom: Bytes, random: Bytes,
                     hostData: Bytes, deviceData: Bytes)
    returns (toDevice: Bytes, toHost: Bytes)
    requires Sized(h) && |clientRandom| == |random| == NONCE_SIZE
    requires var (host, device) := Exchange(h, auth, key, clientRandom, random);
             && (hostData != [] ==> host != HostFailed)
             && (deviceData != [] ==> device.DeviceInRaw? || device.DeviceSecure?)
    ensures Joined(h, auth, key, HexEncode(clientRandom), random, toDevice, toHost, hostData, deviceData)
  {
    if key == [] {
      toDevice, toHost := RawExists(h, auth, clientRandom, random, hostData, deviceData);
    } else {
      toDevice, toHost := KeyedExists(h, auth, key, clientRandom, random, hostData, deviceData);
    }
  }

  lemma RawExists(h: Hash, auth: AuthSettings, clientRandom: Bytes, random: Bytes, hostData: Bytes, deviceData: Bytes)
    returns (toDevice: Bytes, toHost: Bytes)
    requires Sized(h) && |clientRandom| == |random| == NONCE_SIZE
    requires hostData != [] ==> Exchange(h, auth, [], clientRandom, random).0 != HostFailed
    ensures Joined(h, auth, [], HexEncode(clientRandom), random, toDevice, toHost, hostData, deviceData)
  {
    hide HostOnFirst, EndAfterAuth, TrimSpace, Received, CString, HelloLine, EndOn, SentOn, HexEncode, Exchange;
    var cn := HexEncode(clientRandom);
    toDevice, toHost := WithLf(HelloLine(cn)) + hostData, WithLf(OK_RAW) + deviceData;
    HexPrintable(clientRandom);
    HelloClean(cn);
    Carried(HelloLine(cn));
    Commands(cn, "");
    assert DeviceOnHello(h, [], CString(HelloLine(cn)), random) == DeviceStep(OK_RAW, ReadyRaw);
    OkRawClean();
    HostAcceptsRaw(h, auth, cn);
    HostReads(h, auth, cn, OK_RAW, deviceData);
    RawExchange(h, auth, clientRandom, random);
    assert WithLf(HelloLine(cn)) + [] == WithLf(HelloLine(cn));
    RawSession(h, auth, clientRandom, random, toDevice, toHost);
  }

  lemma KeyedExists(h: Hash, auth: AuthSettings, key: Bytes, clientRandom: Bytes, random: Bytes,
                    hostData: Bytes, deviceData: Bytes)
    returns (toDevice: Bytes, toHost: Bytes)
    requires Sized(h) && |clientRandom| == |random| == NONCE_SIZE && key != []
    requires var (host, device) := Exchange(h, auth, key, clientRandom, random);
             && (hostData != [] ==> host != HostFailed)
             && (deviceData != [] ==> device.DeviceInRaw? || device.DeviceSecure?)
    ensures Joined(h, auth, key, HexEncode(clientRandom), random, toDevice, toHost, hostData, deviceData)
  {
    hide HostOnFirst, TrimSpace, Received, HelloLine, ChallengeLine, AuthLine, Proof, EndOn, SentOn, HexEncode;
    hide Exchange, HostKeys, DeriveKeys, EndAfterAuth;
    var cn, sn := HexEncode(clientRandom), HexEncode(random);
    var challenge, answer := Challenge(h, key, cn, sn), AuthLine(HexEncode(Proof(h, auth.key, "CLIENT", cn, sn)));
    HostAnswers(h, auth, key, clientRandom, random);
    KeyedExchange(h, auth, key, clientRandom, random);
    if auth.key != [] && Proof(h, auth.key, "SERVER", cn, sn) == Proof(h, key, "SERVER", cn, sn) {
      var same := Proof(h, auth.key, "CLIENT", cn, sn) == Proof(h, key, "CLIENT", cn, sn);
      var reply := if same then OK_SECURE else "ESPNS/1 ERR auth_failed";
      toDevice := WithLf(HelloLine(cn)) + WithLf(answer) + hostData;
      toHost := WithLf(challenge) + (WithLf(reply) + deviceData);
      Regroup(WithLf(HelloLine(cn)), WithLf(answer), hostData);
      ChallengeServed(h, key, clientRandom, random, WithLf(answer) + hostData);
      AuthServed(h, auth.key, key, clientRandom, random, hostData);
      HostReads(h, auth, cn, challenge, WithLf(reply) + deviceData);
      FinalRead(h, auth, cn, sn, reply, deviceData);
      assert toHost == WithLf(challenge) + Ascii(reply) + [LF] + deviceData;
    } else {
      toDevice, toHost := WithLf(HelloLine(cn)) + [], WithLf(challenge) + [];
      ChallengeServed(h, key, clientRandom, random, []);
      HostReads(h, auth, cn, challenge, []);
    }
  }

  // ---- At every moment --------------------------------------------------------------------------

  // A host that has seen only part of what the device sends fails or ends as it would on all of it.
  lemma HostOnPart(h: Hash, auth: AuthSettings, cn: string, part: Bytes, more: Bytes)
    requires Sized(h)
    ensures EndOn(h, auth, cn, part).end == HostFailed
            || EndOn(h, auth, cn, part).end == EndOn(h, auth, cn, part + more).end
  {
    hide HostOnFirst, HostAcceptsFinal, HostKeys, TrimSpace;
    ScanSegments("", part, more);
    match ScanLine("", part) {
      case Line(first, rest) =>
        if HostOnFirst(h, auth, cn, TrimSpace(first)).HostSendsAuth? {
          ScanSegments("", rest, more);
        }
      case _ =>
    }
  }

  // At every moment of a run, a host and a device that have each reached a mode have reached the
  // modes of the finished exchange.
  lemma NeverInDifferentModes(h: Hash, auth: AuthSettings, key: Bytes, clientRandom: Bytes, random: Bytes,
                              toDevice: Bytes, toHost: Bytes, hostData: Bytes, deviceData: Bytes, m: nat, n: nat)
    requires Sized(h) && |clientRandom| == |random| == NONCE_SIZE && m <= |toDevice| && n <= |toHost|
    requires Joined(h, auth, key, HexEncode(clientRandom), random, toDevice, toHost, hostData, deviceData)
    ensures var (host, device) := Exchange(h, auth, key, clientRandom, random);
            var hostNow := EndOn(h, auth, HexEncode(clientRandom), toHost[..n]).end;
            var deviceNow := EndOfPhase(ReadStream(h, key, random, START, toDevice[..m]).session.phase);
            && (hostNow == HostFailed || hostNow == host)
            && (deviceNow == DeviceWaiting || deviceNow == device)
  {
    hide Joined, EndOn, Exchange, DeviceOnHello, DeviceOnAuth;
    JoinedEndsAgree(h, auth, key, clientRandom, random, toDevice, toHost, hostData, deviceData);
    assert toHost == toHost[..n] + toHost[n..] && toDevice == toDevice[..m] + toDevice[m..];
    HostOnPart(h, auth, HexEncode(clientRandom), toHost[..n], toHost[n..]);
    ReadConcat(h, key, random, START, toDevice[..m], toDevice[m..]);
  }

  // Mode agreement of the two stream readers.  The hypothesis says that different keys give
  // different SERVER proofs here.
  lemma ImplementationsAgree(h: Hash, auth: AuthSettings, key: Bytes, clientRandom: Bytes, random: Bytes,
                             toDevice: Bytes, toHost: Bytes, hostData: Bytes, deviceData: Bytes)
    requires Sized(h) && |clientRandom| == |random| == NONCE_SIZE
    requires Joined(h, auth, key, HexEncode(clientRandom), random, toDevice, toHost, hostData, deviceData)
    requires auth.key != [] && key != [] && auth.key != key ==>
               var cn, sn := HexEncode(clientRandom), HexEncode(random);
               Proof(h, auth.key, "SERVER", cn, sn) != Proof(h, key, "SERVER", cn, sn)
    ensures var host := EndOn(h, auth, HexEncode(clientRandom), toHost);
            var device := ReadStream(h, key, random, START, toDevice);
            && (host.end.HostSecure? <==> device.session.phase.InSecure?)
            && (host.end.HostSecure? <==> key != [] && auth.key == key)
            && (host.end.HostSecure? ==> host.end.keys == device.session.phase.keys)
            && (device.session.phase.InRaw? <==> key == [])
            && (host.end.HostInRaw? <==> key == [] && (auth.key == [] || auth.allowUnauthenticated))
            && (host.end != HostFailed ==> host.rest == deviceData && device.rest == hostData)
  {
    hide Joined, EndOn, Exchange, DeviceOnHello, DeviceOnAuth, ReadStream, Proof;
    JoinedEndsAgree(h, auth, key, clientRandom, random, toDevice, toHost, hostData, deviceData);
    ModesAgree(h, auth, key, clientRandom, random);
  }

  // ---- However the stream to the device is cut ---------------------------------------------------

  // One call per piece; what a decided session leaves piles up for the data path.
  ghost function ReadPieces(h: Hash, key: Bytes, random: Bytes, pieces: seq<Bytes>): Reading
    requires Sized(h)
  {
    if pieces == [] then Reading(START, [])
    else
      var before := ReadPieces(h, key, random, pieces[..|pieces| - 1]);
      var piece := pieces[|pieces| - 1];
      ReadStream(h, key, random, before.session, before.rest + piece)
  }

  lemma {:induction false} PiecesMakeNoDifference(h: Hash, key: Bytes, random: Bytes, pieces: seq<Bytes>)
    requires Sized(h)
    ensures ReadPieces(h, key, random, pieces) == ReadStream(h, key, random, START, Concat(pieces))
    ensures Undecided(ReadPieces(h, key, random, pieces).session.phase) ==>
              ReadPieces(h, key, random, pieces).rest == []
  {
    if pieces != [] {
      var init, piece := pieces[..|pieces| - 1], pieces[|pieces| - 1];
      PiecesMakeNoDifference(h, key, random, init);
      var before := ReadPieces(h, key, random, init);
      ReadConcat(h, key, random, START, Concat(init), piece);
      assert [] + piece == piece;
    }
    UndecidedReadsAll(h, key, random, START, Concat(pieces));
  }

  lemma {:induction false} UndecidedReadsAll(h: Hash, key: Bytes, random: Bytes, s: Session, stream: Bytes)
    requires Sized(h)
    ensures var served := ReadStream(h, key, random, s, stream);
            Undecided(served.session.phase) ==> served.rest == []
    decreases |stream|
  {
    hide DeviceOnHello, DeviceOnAuth;
    if Undecided(s.phase) && stream != [] {
      UndecidedReadsAll(h, key, random, FeedByte(h, key, random, s, stream[0]), stream[1..]);
    }
  }
}
