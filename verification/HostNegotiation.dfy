/** The host's side of the handshake, driving a connection. */
module HostNegotiation {
  import opened ByteStrings
  import opened ControlFields
  import opened ControlLines
  import opened Sockets
  import opened Hkdf
  import opened Hex
  import opened Handshake
  import opened HandshakeExchange

  datatype Ended = Ended(end: HostEnd, rest: Bytes)

  // What the host decides on everything the device will send, and what it leaves unread.
  ghost function EndOn(h: Hash, auth: AuthSettings, cn: string, stream: Bytes): Ended
    requires Sized(h)
  {
    match ScanLine("", stream)
    case More(_) => Ended(HostFailed, [])
    case TooLong(rest) => Ended(HostFailed, rest)
    case Line(first, rest) =>
      match HostOnFirst(h, auth, cn, TrimSpace(first))
      case HostRefuses => Ended(HostFailed, rest)
      case HostRaw => Ended(HostInRaw, rest)
      case HostSendsAuth(_, sn) => EndAfterAuth(h, auth, cn, sn, rest)
  }

  ghost function EndAfterAuth(h: Hash, auth: AuthSettings, cn: string, sn: string, stream: Bytes): Ended
    requires Sized(h)
  {
    match ScanLine("", stream)
    case More(_) => Ended(HostFailed, [])
    case TooLong(rest) => Ended(HostFailed, rest)
    case Line(final, rest) =>
      Ended(if HostAcceptsFinal(TrimSpace(final)) then HostKeys(h, auth.key, cn, sn) else HostFailed, rest)
  }

  // What the host sends on it: its HELLO, and its AUTH when the first line calls for one.
  ghost function SentOn(h: Hash, auth: AuthSettings, cn: string, stream: Bytes): Bytes {
    Ascii(HelloLine(cn)) + [LF]
    + match ScanLine("", stream)
      case Line(first, _) => (
        match HostOnFirst(h, auth, cn, TrimSpace(first))
        case HostSendsAuth(line, _) => Ascii(line) + [LF]
        case _ => []
      )
      case _ => []
  }

  method CommandWord(line: string, command: string) returns (b: bool)
    ensures b == CommandIs(line, command)
  {
    b := line == command || command + " " <= line;
    if CommandIs(line, command) && line != command {
      assert line[..|command| + 1] == command + " ";
    }
  }

  predicate Is(fields: map<string, string>, name: string, value: string) {
    value == if name in fields then fields[name] else ""
  }

  method SendLine(conn: Conn, line: string) returns (ok: bool)
    modifies conn`wire, conn`faults
    ensures old(conn.wire) <= conn.wire <= old(conn.wire) + (Ascii(line) + [LF])
    ensures ok ==> conn.wire == old(conn.wire) + Ascii(line) + [LF]
    ensures conn.faults >= old(conn.faults) && (!ok ==> conn.faults > old(conn.faults))
  {
    var data := Ascii(line) + [LF];
    var count, written := conn.Write(data);
    ok := written && count == |data|;
    if ok {
      assert conn.wire == old(conn.wire) + data;
      assert old(conn.wire) + data == old(conn.wire) + Ascii(line) + [LF];
    }
  }

  // The first response: raw, a challenge worth answering, or neither.
  method DecideFirst(h: Hash, auth: AuthSettings, clientNonce: string, line: string) returns (step: HostStep)
    requires Sized(h)
    ensures step == HostOnFirst(h, auth, clientNonce, line)
  {
    var isOk := CommandWord(line, OK);
    var fields := ParseEspnsFields(line);
    if isOk {
      if auth.key != [] && !auth.allowUnauthenticated {
        return HostRefuses;
      }
      if !Is(fields, "auth", "none") || !Is(fields, "mode", "raw") {
        return HostRefuses;
      }
      return HostRaw;
    }
    var isChallenge := CommandWord(line, CHALLENGE);
    if !isChallenge || !Is(fields, "auth", "hmac-sha256") || !Is(fields, "mode", SECURE_MODE) || auth.key == [] {
      return HostRefuses;
    }
    var serverNonce := if "nonce" in fields then fields["nonce"] else "";
    if NonceBytes(serverNonce).None? {
      return HostRefuses;
    }
    var serverProof := HexDecode(if "proof" in fields then fields["proof"] else "");
    var expected := Proof(h, auth.key, "SERVER", clientNonce, serverNonce);
    if serverProof.None? || |serverProof.value| != HASH_SIZE || serverProof.value != expected {
      return HostRefuses;
    }
    var clientProof := Proof(h, auth.key, "CLIENT", clientNonce, serverNonce);
    return HostSendsAuth(AuthLine(HexEncode(clientProof)), serverNonce);
  }

  method DecideFinal(line: string) returns (accepted: bool)
    ensures accepted == HostAcceptsFinal(line)
  {
    var isOk := CommandWord(line, OK);
    var fields := ParseEspnsFields(line);
    accepted := isOk && Is(fields, "auth", "hmac-sha256") && Is(fields, "mode", SECURE_MODE);
  }

  // Answers a challenge and reads the result.
  method AnswerChallenge(h: Hash, conn: Conn, auth: AuthSettings, clientRandom: Bytes, line: string, serverNonce: string)
    returns (end: HostEnd, writesOk: bool)
    requires Sized(h) && |clientRandom| == NONCE_SIZE && NonceBytes(serverNonce).Some?
    modifies conn`inbound, conn`wire, conn`faults
    ensures old(conn.wire) <= conn.wire <= old(conn.wire) + (Ascii(line) + [LF])
    ensures conn.faults >= old(conn.faults)
    ensures !writesOk ==> conn.faults > old(conn.faults) && end == HostFailed
    ensures writesOk ==> conn.wire == old(conn.wire) + Ascii(line) + [LF]
    ensures writesOk ==>
              Ended(end, conn.inbound) == EndAfterAuth(h, auth, HexEncode(clientRandom), serverNonce, old(conn.inbound))
  {
    hide HexEncode, NonceBytes, Sized, TrimSpace, ScanLine;
    Regroup(conn.wire, Ascii(line), [LF]);
    writesOk := SendLine(conn, line);
    if !writesOk {
      return HostFailed, false;
    }
    var response := ReadControlLine(conn);
    if response.None? {
      return HostFailed, true;
    }
    var accepted := DecideFinal(response.value);
    if !accepted {
      return HostFailed, true;
    }
    HexNonce(clientRandom);
    var keys := DeriveOnHost(h, auth.key, clientRandom, NonceBytes(serverNonce).value);
    end := HostSecure(keys);
  }

  // `writesOk` is whether every write went through; any error ends in HostFailed.  What follows
  // the deciding line stays unread: it is the first data byte.
  method NegotiateHandshake(h: Hash, conn: Conn, auth: AuthSettings, clientRandom: Bytes)
    returns (end: HostEnd, writesOk: bool)
    requires Sized(h) && |clientRandom| == NONCE_SIZE
    modifies conn`inbound, conn`wire, conn`faults
    ensures old(conn.wire) <= conn.wire <= old(conn.wire) + SentOn(h, auth, HexEncode(clientRandom), old(conn.inbound))
    ensures conn.faults >= old(conn.faults) && (!writesOk ==> conn.faults > old(conn.faults))
    ensures writesOk ==> conn.wire == old(conn.wire) + SentOn(h, auth, HexEncode(clientRandom), old(conn.inbound))
    ensures writesOk ==> Ended(end, conn.inbound) == EndOn(h, auth, HexEncode(clientRandom), old(conn.inbound))
    ensures !writesOk ==> end == HostFailed
  {
    hide HexEncode, HelloLine, NonceBytes, Sized, TrimSpace, ScanLine;
    var clientNonce := HexEncode(clientRandom);
    ghost var wire, hello := conn.wire, Ascii(HelloLine(clientNonce)) + [LF];
    ghost var due := SentOn(h, auth, clientNonce, conn.inbound);
    assert hello <= due;
    LongerStill(wire, hello, due);
    var sent := SendLine(conn, HelloLine(clientNonce));
    if !sent {
      return HostFailed, false;
    }
    assert hello + [] == hello;
    Regroup(wire, Ascii(HelloLine(clientNonce)), [LF]);
    var response := ReadControlLine(conn);
    if response.None? {
      return HostFailed, true;
    }
    var step := DecideFirst(h, auth, clientNonce, response.value);
    match step
    case HostRefuses =>
      return HostFailed, true;
    case HostRaw =>
      return HostInRaw, true;
    case HostSendsAuth(line, serverNonce) =>
      end, writesOk := AnswerChallenge(h, conn, auth, clientRandom, line, serverNonce);
      assert due == hello + (Ascii(line) + [LF]);
      Regroup(wire, hello, Ascii(line) + [LF]);
      Regroup(wire + hello, Ascii(line), [LF]);
  }
  lemma LongerStill(before: Bytes, part: Bytes, whole: Bytes)
    requires part <= whole
    ensures before + part <= before + whole
  {
  }
}
