/** Host and device joined by a faithful byte channel: what mode each ends in, and with which
    keys.  This is one line at a time; HandshakeAgreement does the same for whole streams. */
module HandshakeExchange {
  import opened ByteStrings
  import opened ControlFields
  import opened ControlLines
  import opened Sockets
  import opened Hkdf
  import opened Hex
  import opened Handshake

  // ---- Carrying a line ---------------------------------------------------------------------------

  ghost predicate Printable(s: string) {
    forall i :: 0 <= i < |s| ==> 32 <= s[i] as int < 127
  }

  ghost predicate CleanLine(s: string) {
    Printable(s) && 0 < |s| < LINE_LIMIT && s[0] != ' ' && s[|s| - 1] != ' '
  }

  lemma PrintableConcat(a: string, b: string)
    requires Printable(a) && Printable(b)
    ensures Printable(a + b)
  {
  }

  lemma {:induction false} WithoutCROfAscii(s: string)
    requires Printable(s)
    ensures WithoutCR(Ascii(s)) == s && LF !in Ascii(s)
  {
    if s != "" {
      assert Ascii(s)[1..] == Ascii(s[1..]);
      assert forall i :: 0 <= i < |s| ==> Ascii(s)[i] == s[i] as int;
      WithoutCROfAscii(s[1..]);
      assert s == [s[0]] + s[1..];
    }
  }

  lemma {:induction false} CStringOfPrintable(s: string)
    requires Printable(s)
    ensures CString(s) == s
  {
    if s != "" {
      CStringOfPrintable(s[1..]);
    }
  }

  // What the other end makes of a line sent with its LF.
  function Received(line: string): string {
    match ScanLine("", Ascii(line) + [LF])
    case Line(text, _) => text
    case _ => ""
  }

  lemma Carried(line: string)
    requires CleanLine(line)
    ensures Received(line) == TrimSpace(Received(line)) == CString(Received(line)) == line
  {
    hide CString, TrimSpace, WithoutCR, Ascii;
    WithoutCROfAscii(line);
    NothingToTrim(line);
    CStringOfPrintable(line);
    assert "" + line == line;
    ScanIsLfSplit("", Ascii(line), []);
    assert Ascii(line) + [LF] + [] == Ascii(line) + [LF];
  }

  lemma NothingToTrim(line: string)
    requires CleanLine(line)
    ensures TrimSpace(line) == line
  {
    assert !IsSeparator(White, line[0]) && !IsSeparator(White, line[|line| - 1]);
  }

  // ---- The exchange --------------------------------------------------------------------------------

  datatype HostEnd = HostFailed | HostInRaw | HostSecure(keys: SessionKeys)
  datatype DeviceEnd = DeviceClosed | DeviceWaiting | DeviceInRaw | DeviceSecure(keys: SessionKeys)

  function After(verdict: Verdict): DeviceEnd {
    match verdict
    case Refused => DeviceClosed
    case ReadyRaw => DeviceInRaw
    case Challenged(_, _) => DeviceWaiting
    case ReadySecure(keys) => DeviceSecure(keys)
  }

  ghost function HostKeys(h: Hash, key: Bytes, clientNonce: string, serverNonce: string): HostEnd
    requires Sized(h)
  {
    match DeviceKeys(h, key, clientNonce, serverNonce)
    case None => HostFailed
    case Some(keys) => HostSecure(keys)
  }

  ghost function Exchange(h: Hash, auth: AuthSettings, deviceKey: Bytes, clientRandom: Bytes, serverRandom: Bytes)
    : (HostEnd, DeviceEnd)
    requires Sized(h)
  {
    var cn := HexEncode(clientRandom);
    var d1 := DeviceOnHello(h, deviceKey, CString(Received(HelloLine(cn))), serverRandom);
    match HostOnFirst(h, auth, cn, TrimSpace(Received(d1.reply)))
    case HostRefuses => (HostFailed, After(d1.verdict))
    case HostRaw => (HostInRaw, After(d1.verdict))
    case HostSendsAuth(line, sn) =>
      match d1.verdict
      case Challenged(c, s) =>
        var d2 := DeviceOnAuth(h, deviceKey, CString(Received(line)), c, s);
        (if HostAcceptsFinal(TrimSpace(Received(d2.reply))) then HostKeys(h, auth.key, cn, sn) else HostFailed,
         After(d2.verdict))
      case _ => (HostFailed, After(d1.verdict))
  }

  // Both proofs computed with the two keys coincide.
  ghost predicate ProofsCoincide(h: Hash, a: Bytes, b: Bytes, cn: string, sn: string) {
    && Proof(h, a, "SERVER", cn, sn) == Proof(h, b, "SERVER", cn, sn)
    && Proof(h, a, "CLIENT", cn, sn) == Proof(h, b, "CLIENT", cn, sn)
  }

  lemma HexNonce(random: Bytes)
    requires |random| == NONCE_SIZE
    ensures NonceBytes(HexEncode(random)) == Some(random)
    ensures NoSeparator(White, HexEncode(random)) && Printable(HexEncode(random))
  {
    HexRoundTrip(random);
    HexPrintable(random);
  }

  lemma {:induction false} HexPrintable(bytes: Bytes)
    ensures Printable(HexEncode(bytes)) && NoSeparator(White, HexEncode(bytes))
    ensures forall i :: 0 <= i < |HexEncode(bytes)| ==> HexEncode(bytes)[i] != ' '
  {
    if bytes != [] {
      HexPrintable(bytes[1..]);
      assert forall v: nat :: v < 16 ==> 48 <= HexDigit(v) as int < 127;
    }
  }

  lemma HelloClean(cn: string)
    requires Printable(cn) && |cn| == 32 && cn[31] != ' '
    ensures CleanLine(HelloLine(cn))
  {
    PrintableConcat("ESPNS/1 HELLO nonce=", cn);
  }

  lemma AuthClean(proof: string)
    requires Printable(proof) && |proof| == 64 && proof[63] != ' '
    ensures CleanLine(AuthLine(proof))
  {
    PrintableConcat("ESPNS/1 AUTH proof=", proof);
  }

  lemma ChallengePiecesPrintable()
    ensures Printable("ESPNS/1 CHALLENGE auth=hmac-sha256 nonce=") && Printable(" proof=") && Printable(" mode=aes256-gcm")
  {
  }

  lemma ChallengeLineClean(sn: string, proof: string)
    requires Printable(sn) && |sn| == 32 && Printable(proof) && |proof| == 64
    ensures CleanLine(ChallengeLine(sn, proof))
  {
    ChallengePiecesPrintable();
    hide Printable;
    var a, b, c := "ESPNS/1 CHALLENGE auth=hmac-sha256 nonce=", " proof=", " mode=aes256-gcm";
    PrintableConcat(a, sn);
    PrintableConcat(a + sn, b);
    PrintableConcat(a + sn + b, proof);
    PrintableConcat(a + sn + b + proof, c);
    var line := a + sn + b + proof + c;
    assert line[0] == a[0] && line[|line| - 1] == c[|c| - 1];
  }

  lemma OkRawClean()
    ensures CleanLine(OK_RAW)
  {
  }

  lemma OkSecureClean()
    ensures CleanLine(OK_SECURE)
  {
  }

  lemma AuthFailedClean()
    ensures CleanLine("ESPNS/1 ERR auth_failed")
  {
  }

  // A device without a key answers raw; a host with a key takes that only when told to.
  lemma RawExchange(h: Hash, auth: AuthSettings, clientRandom: Bytes, serverRandom: Bytes)
    requires Sized(h) && |clientRandom| == |serverRandom| == NONCE_SIZE
    ensures Exchange(h, auth, [], clientRandom, serverRandom)
            == (if auth.key == [] || auth.allowUnauthenticated then HostInRaw else HostFailed, DeviceInRaw)
  {
    var cn := HexEncode(clientRandom);
    HexPrintable(clientRandom);
    HelloClean(cn);
    Carried(HelloLine(cn));
    Commands(cn, "");
    HostAcceptsRaw(h, auth, cn);
  }

  lemma HostAcceptsRaw(h: Hash, auth: AuthSettings, cn: string)
    ensures HostOnFirst(h, auth, cn, TrimSpace(Received(OK_RAW)))
            == if auth.key == [] || auth.allowUnauthenticated then HostRaw else HostRefuses
  {
    OkRawClean();
    OkRawFields();
    Carried(OK_RAW);
  }

  lemma OkRawFields()
    ensures CommandIs(OK_RAW, OK)
    ensures HostField(Tokens(White, OK_RAW), "auth") == "none" && HostField(Tokens(White, OK_RAW), "mode") == "raw"
  {
    OkRawText();
    OkFields(OK_RAW, "none", "raw");
  }

  lemma OkRawText()
    ensures OK_RAW == "ESPNS/1 OK auth=" + "none" + " mode=" + "raw"
  {
  }

  lemma OkFields(line: string, auth: string, mode: string)
    requires line == "ESPNS/1 OK auth=" + auth + " mode=" + mode
    requires NoSeparator(White, auth) && NoSeparator(White, mode)
    ensures CommandIs(line, OK)
    ensures HostField(Tokens(White, line), "auth") == auth && HostField(Tokens(White, line), "mode") == mode
  {
    OkParses(auth, mode);
  }

  lemma DeviceChallenges(h: Hash, deviceKey: Bytes, clientRandom: Bytes, serverRandom: Bytes)
    requires Sized(h) && |clientRandom| == |serverRandom| == NONCE_SIZE && deviceKey != []
    ensures var cn, sn := HexEncode(clientRandom), HexEncode(serverRandom);
            DeviceOnHello(h, deviceKey, CString(Received(HelloLine(cn))), serverRandom)
            == DeviceStep(ChallengeLine(sn, HexEncode(Proof(h, deviceKey, "SERVER", cn, sn))), Challenged(cn, sn))
  {
    var cn := HexEncode(clientRandom);
    HexNonce(clientRandom);
    HexPrintable(clientRandom);
    HelloClean(cn);
    Carried(HelloLine(cn));
    Commands(cn, "");
    HelloParses(Space, cn);
    SingleValue([cn]);
  }

  lemma HostAnswers(h: Hash, auth: AuthSettings, deviceKey: Bytes, clientRandom: Bytes, serverRandom: Bytes)
    requires Sized(h) && |clientRandom| == |serverRandom| == NONCE_SIZE
    ensures var cn, sn := HexEncode(clientRandom), HexEncode(serverRandom);
            var line := ChallengeLine(sn, HexEncode(Proof(h, deviceKey, "SERVER", cn, sn)));
            HostOnFirst(h, auth, cn, TrimSpace(Received(line)))
            == if auth.key != [] && Proof(h, auth.key, "SERVER", cn, sn) == Proof(h, deviceKey, "SERVER", cn, sn)
               then HostSendsAuth(AuthLine(HexEncode(Proof(h, auth.key, "CLIENT", cn, sn))), sn) else HostRefuses
  {
    var cn, sn := HexEncode(clientRandom), HexEncode(serverRandom);
    var mac := Proof(h, deviceKey, "SERVER", cn, sn);
    var proof := HexEncode(mac);
    HexNonce(clientRandom);
    HexNonce(serverRandom);
    HexPrintable(clientRandom);
    HexPrintable(mac);
    HexRoundTrip(mac);
    ChallengeLineClean(sn, proof);
    Carried(ChallengeLine(sn, proof));
    Commands(sn, proof);
    ChallengeParses(White, sn, proof);
    ChallengeFields(sn, proof);
  }

  lemma DeviceVerifies(h: Hash, hostKey: Bytes, deviceKey: Bytes, clientRandom: Bytes, serverRandom: Bytes)
    requires Sized(h) && |clientRandom| == |serverRandom| == NONCE_SIZE
    ensures var cn, sn := HexEncode(clientRandom), HexEncode(serverRandom);
            var line := AuthLine(HexEncode(Proof(h, hostKey, "CLIENT", cn, sn)));
            DeviceOnAuth(h, deviceKey, CString(Received(line)), cn, sn)
            == if Proof(h, hostKey, "CLIENT", cn, sn) == Proof(h, deviceKey, "CLIENT", cn, sn)
               then DeviceStep(OK_SECURE, ReadySecure(DeriveKeys(h, deviceKey, clientRandom, serverRandom)))
               else DeviceStep("ESPNS/1 ERR auth_failed", Refused)
  {
    var cn, sn := HexEncode(clientRandom), HexEncode(serverRandom);
    var mac := Proof(h, hostKey, "CLIENT", cn, sn);
    var proof := HexEncode(mac);
    HexNonce(clientRandom);
    HexNonce(serverRandom);
    HexPrintable(clientRandom);
    HexPrintable(mac);
    HexRoundTrip(mac);
    AuthClean(proof);
    Carried(AuthLine(proof));
    Commands(proof, "");
    AuthParses(Space, proof);
    SingleValue([proof]);
  }

  lemma FinalLines()
    ensures HostAcceptsFinal(TrimSpace(Received(OK_SECURE)))
    ensures !HostAcceptsFinal(TrimSpace(Received("ESPNS/1 ERR auth_failed")))
  {
    OkSecureClean();
    OkSecureFields();
    Carried(OK_SECURE);
    AuthFailedClean();
    Carried("ESPNS/1 ERR auth_failed");
    AuthFailedIsNotOk();
  }

  lemma AuthFailedIsNotOk()
    ensures !CommandIs("ESPNS/1 ERR auth_failed", OK)
  {
  }

  lemma OkSecureFields()
    ensures CommandIs(OK_SECURE, OK)
    ensures HostField(Tokens(White, OK_SECURE), "auth") == "hmac-sha256"
    ensures HostField(Tokens(White, OK_SECURE), "mode") == SECURE_MODE
  {
    OkSecureText();
    OkFields(OK_SECURE, "hmac-sha256", "aes256-gcm");
  }

  lemma OkSecureText()
    ensures OK_SECURE == "ESPNS/1 OK auth=" + "hmac-sha256" + " mode=" + "aes256-gcm"
  {
  }

  // A device with a key: both end secure exactly when the host has a key whose proofs are the
  // device's, and then each holds the keys its own key derives; otherwise neither gets a mode.
  lemma SecureExchange(h: Hash, auth: AuthSettings, deviceKey: Bytes, clientRandom: Bytes, serverRandom: Bytes)
    requires Sized(h) && |clientRandom| == |serverRandom| == NONCE_SIZE && deviceKey != []
    ensures var (host, device) := Exchange(h, auth, deviceKey, clientRandom, serverRandom);
            var cn, sn := HexEncode(clientRandom), HexEncode(serverRandom);
            if auth.key != [] && ProofsCoincide(h, auth.key, deviceKey, cn, sn)
            then host == HostSecure(DeriveKeys(h, auth.key, clientRandom, serverRandom))
              && device == DeviceSecure(DeriveKeys(h, deviceKey, clientRandom, serverRandom))
            else host == HostFailed && (device == DeviceClosed || device == DeviceWaiting)
  {
    hide DeviceOnHello, HostOnFirst, DeviceOnAuth, HostAcceptsFinal, CString, Received, TrimSpace;
    hide HelloLine, ChallengeLine, AuthLine, Proof, HexEncode, DeriveKeys, NonceBytes;
    DeviceChallenges(h, deviceKey, clientRandom, serverRandom);
    HostAnswers(h, auth, deviceKey, clientRandom, serverRandom);
    DeviceVerifies(h, auth.key, deviceKey, clientRandom, serverRandom);
    FinalLines();
    HexNonce(clientRandom);
    HexNonce(serverRandom);
  }

  // The lines of an authenticated handshake, letter by letter, as each end takes what it receives.
  lemma SecureTranscript(h: Hash, key: Bytes, downgrades: bool, clientRandom: Bytes, serverRandom: Bytes)
    requires Sized(h) && |clientRandom| == |serverRandom| == 16 && key != []
    ensures var cn, sn := HexEncode(clientRandom), HexEncode(serverRandom);
            var server := HexEncode(h.hmac(key, Ascii("ESPNS/1 SERVER " + cn + " " + sn + " aes256-gcm")));
            var client := HexEncode(h.hmac(key, Ascii("ESPNS/1 CLIENT " + cn + " " + sn + " aes256-gcm")));
            var challenge := "ESPNS/1 CHALLENGE auth=hmac-sha256 nonce=" + sn + " proof=" + server + " mode=aes256-gcm";
            var answer, ok := "ESPNS/1 AUTH proof=" + client, "ESPNS/1 OK auth=hmac-sha256 mode=aes256-gcm";
            && DeviceOnHello(h, key, CString(Received("ESPNS/1 HELLO nonce=" + cn)), serverRandom)
               == DeviceStep(challenge, Challenged(cn, sn))
            && HostOnFirst(h, AuthSettings(key, downgrades), cn, TrimSpace(Received(challenge))) == HostSendsAuth(answer, sn)
            && DeviceOnAuth(h, key, CString(Received(answer)), cn, sn)
               == DeviceStep(ok, ReadySecure(DeriveKeys(h, key, clientRandom, serverRandom)))
            && HostAcceptsFinal(TrimSpace(Received(ok)))
  {
    hide HexEncode, Ascii, DeviceOnHello, HostOnFirst, DeviceOnAuth, HostAcceptsFinal, Received, TrimSpace, CString,
         DeriveKeys, Proof, ChallengeLine, AuthLine, HelloLine;
    var cn, sn := HexEncode(clientRandom), HexEncode(serverRandom);
    ProofWords(h, key, cn, sn);
    LineWords(cn, sn, HexEncode(Proof(h, key, "SERVER", cn, sn)), HexEncode(Proof(h, key, "CLIENT", cn, sn)));
    DeviceChallenges(h, key, clientRandom, serverRandom);
    HostAnswers(h, AuthSettings(key, downgrades), key, clientRandom, serverRandom);
    DeviceVerifies(h, key, key, clientRandom, serverRandom);
    FinalLines();
  }

  lemma ProofWords(h: Hash, key: Bytes, cn: string, sn: string)
    ensures Proof(h, key, "SERVER", cn, sn) == h.hmac(key, Ascii("ESPNS/1 SERVER " + cn + " " + sn + " aes256-gcm"))
    ensures Proof(h, key, "CLIENT", cn, sn) == h.hmac(key, Ascii("ESPNS/1 CLIENT " + cn + " " + sn + " aes256-gcm"))
  {
    hide Ascii;
    MacWords("SERVER", "ESPNS/1 SERVER ", cn, sn);
    MacWords("CLIENT", "ESPNS/1 CLIENT ", cn, sn);
  }

  lemma MacWords(role: string, start: string, cn: string, sn: string)
    requires start == "ESPNS/1 " + role + " "
    ensures MacText(role, cn, sn, SECURE_MODE) == start + cn + " " + sn + " aes256-gcm"
  {
    assert " " + SECURE_MODE == " aes256-gcm";
  }

  lemma LineWords(cn: string, sn: string, server: string, client: string)
    ensures HelloLine(cn) == "ESPNS/1 HELLO nonce=" + cn && AuthLine(client) == "ESPNS/1 AUTH proof=" + client
    ensures ChallengeLine(sn, server)
            == "ESPNS/1 CHALLENGE auth=hmac-sha256 nonce=" + sn + " proof=" + server + " mode=aes256-gcm"
    ensures OK_SECURE == "ESPNS/1 OK auth=hmac-sha256 mode=aes256-gcm"
  {
  }

  // Mode agreement.  `noCollision` says that different keys give different SERVER proofs here.
  lemma ModesAgree(h: Hash, auth: AuthSettings, deviceKey: Bytes, clientRandom: Bytes, serverRandom: Bytes)
    requires Sized(h) && |clientRandom| == |serverRandom| == NONCE_SIZE
    requires auth.key != [] && deviceKey != [] && auth.key != deviceKey ==>
               var cn, sn := HexEncode(clientRandom), HexEncode(serverRandom);
               Proof(h, auth.key, "SERVER", cn, sn) != Proof(h, deviceKey, "SERVER", cn, sn)
    ensures var (host, device) := Exchange(h, auth, deviceKey, clientRandom, serverRandom);
            && (host.HostSecure? <==> device.DeviceSecure?)
            && (host.HostSecure? <==> deviceKey != [] && auth.key == deviceKey)
            && (host.HostSecure? ==> host.keys == device.keys)
            && (device.DeviceInRaw? <==> deviceKey == [])
            && (host.HostInRaw? <==> deviceKey == [] && (auth.key == [] || auth.allowUnauthenticated))
  {
    if deviceKey == [] {
      RawExchange(h, auth, clientRandom, serverRandom);
    } else {
      SecureExchange(h, auth, deviceKey, clientRandom, serverRandom);
    }
  }
}
