/** The ESPNS/1 handshake as both ends decide it, line by line, and the exchange between them. */
module Handshake {
  import opened ByteStrings
  import opened ControlFields
  import opened ControlLines
  import opened Hkdf
  import opened Hex

  // ---- Lines -----------------------------------------------------------------------------------

  const AUTH_KEY_MIN: nat := 16
  const AUTH_KEY_MAX: nat := 128

  const HELLO: string := "ESPNS/1 HELLO"
  const AUTH: string := "ESPNS/1 AUTH"
  const OK: string := "ESPNS/1 OK"
  const CHALLENGE: string := "ESPNS/1 CHALLENGE"
  const OK_RAW: string := "ESPNS/1 OK auth=none mode=raw"
  const OK_SECURE: string := "ESPNS/1 OK auth=hmac-sha256 mode=aes256-gcm"
  const SECURE_MODE: string := "aes256-gcm"

  function HelloLine(nonce: string): string {
    "ESPNS/1 HELLO nonce=" + nonce
  }

  function ChallengeLine(nonce: string, proof: string): string {
    "ESPNS/1 CHALLENGE auth=hmac-sha256 nonce=" + nonce + " proof=" + proof + " mode=aes256-gcm"
  }

  function AuthLine(proof: string): string {
    "ESPNS/1 AUTH proof=" + proof
  }

  // The command word, alone or followed by a space.
  predicate CommandIs(line: string, command: string) {
    command <= line && (|line| == |command| || line[|command|] == ' ')
  }

  // ---- Proofs ----------------------------------------------------------------------------------

  function MacText(role: string, clientNonce: string, serverNonce: string, mode: string): string {
    "ESPNS/1 " + role + " " + clientNonce + " " + serverNonce + " " + mode
  }

  function Proof(h: Hash, key: Bytes, role: string, clientNonce: string, serverNonce: string): Bytes {
    h.hmac(key, Ascii(MacText(role, clientNonce, serverNonce, SECURE_MODE)))
  }

  ghost predicate AsciiText(s: string) {
    forall i :: 0 <= i < |s| ==> s[i] as int < 128
  }

  lemma AsciiInjective(a: string, b: string)
    requires AsciiText(a) && AsciiText(b) && Ascii(a) == Ascii(b)
    ensures a == b
  {
    forall i | 0 <= i < |a| ensures a[i] == b[i] {
      assert Ascii(a)[i] == Ascii(b)[i];
      assert a[i] as int == b[i] as int;
    }
  }

  lemma {:induction false} FirstWord(a: string, x: string, b: string, y: string)
    requires ' ' !in a && ' ' !in b && a + " " + x == b + " " + y
    ensures a == b && x == y
  {
    var s := a + " " + x;
    assert s[|a|] == ' ' && s[|b|] == ' ';
    assert forall i :: 0 <= i < |a| ==> s[i] == a[i];
    assert forall i :: 0 <= i < |b| ==> s[i] == b[i];
    assert |a| == |b|;
    assert a == s[..|a|] && b == s[..|b|] && x == s[|a| + 1..] && y == s[|b| + 1..];
  }

  // The authenticated text determines the role, both nonces and the mode.
  lemma MacTextInjective(role: string, cn: string, sn: string, mode: string,
                         role': string, cn': string, sn': string, mode': string)
    requires ' ' !in role && ' ' !in cn && ' ' !in sn && ' ' !in role' && ' ' !in cn' && ' ' !in sn'
    requires AsciiText(MacText(role, cn, sn, mode)) && AsciiText(MacText(role', cn', sn', mode'))
    requires Ascii(MacText(role, cn, sn, mode)) == Ascii(MacText(role', cn', sn', mode'))
    ensures role == role' && cn == cn' && sn == sn' && mode == mode'
  {
    AsciiInjective(MacText(role, cn, sn, mode), MacText(role', cn', sn', mode'));
    var tail, tail' := sn + " " + mode, sn' + " " + mode';
    var rest, rest' := cn + " " + tail, cn' + " " + tail';
    assert MacText(role, cn, sn, mode)[8..] == role + " " + rest;
    assert MacText(role', cn', sn', mode')[8..] == role' + " " + rest';
    FirstWord(role, rest, role', rest');
    FirstWord(cn, tail, cn', tail');
    FirstWord(sn, mode, sn', mode');
  }

  // ---- Device ----------------------------------------------------------------------------------

  datatype Verdict =
    | Refused
    | ReadyRaw
    | Challenged(clientNonce: string, serverNonce: string)
    | ReadySecure(keys: SessionKeys)

  datatype DeviceStep = DeviceStep(reply: string, verdict: Verdict)

  function CString(s: string): string {
    if s == "" || s[0] == '\0' then "" else [s[0]] + CString(s[1..])
  }

  function NonceBytes(hex: string): Option<Bytes> {
    if |hex| != 2 * NONCE_SIZE then None else HexDecode(hex)
  }

  ghost function DeviceKeys(h: Hash, authKey: Bytes, clientNonce: string, serverNonce: string): Option<SessionKeys>
    requires Sized(h)
  {
    match (NonceBytes(clientNonce), NonceBytes(serverNonce))
    case (Some(c), Some(s)) => Some(DeriveKeys(h, authKey, c, s))
    case _ => None
  }

  ghost function DeviceOnHello(h: Hash, authKey: Bytes, line: string, fresh_: Bytes): DeviceStep {
    if !CommandIs(line, HELLO) then DeviceStep("ESPNS/1 ERR bad_hello", Refused)
    else if authKey == [] then DeviceStep(OK_RAW, ReadyRaw)
    else
      match DeviceField(Tokens(Space, line), "nonce", 2 * NONCE_SIZE + 1)
      case None => DeviceStep("ESPNS/1 ERR nonce_required", Refused)
      case Some(clientNonce) =>
        if NonceBytes(clientNonce).None? then DeviceStep("ESPNS/1 ERR invalid_nonce", Refused)
        else
          var serverNonce := HexEncode(fresh_);
          var proof := HexEncode(Proof(h, authKey, "SERVER", clientNonce, serverNonce));
          DeviceStep(ChallengeLine(serverNonce, proof), Challenged(clientNonce, serverNonce))
  }

  ghost predicate ClientProofOk(h: Hash, authKey: Bytes, line: string, clientNonce: string, serverNonce: string) {
    match DeviceField(Tokens(Space, line), "proof", 2 * HASH_SIZE + 1)
    case None => false
    case Some(hex) =>
      |hex| == 2 * HASH_SIZE && HexDecode(hex) == Some(Proof(h, authKey, "CLIENT", clientNonce, serverNonce))
  }

  ghost function DeviceOnAuth(h: Hash, authKey: Bytes, line: string, clientNonce: string, serverNonce: string): DeviceStep
    requires Sized(h)
  {
    if !CommandIs(line, AUTH) then DeviceStep("ESPNS/1 ERR bad_auth", Refused)
    else if !ClientProofOk(h, authKey, line, clientNonce, serverNonce) then DeviceStep("ESPNS/1 ERR auth_failed", Refused)
    else
      match DeviceKeys(h, authKey, clientNonce, serverNonce)
      case None => DeviceStep("ESPNS/1 ERR secure_internal", Refused)
      case Some(keys) => DeviceStep(OK_SECURE, ReadySecure(keys))
  }

  // ---- Host ------------------------------------------------------------------------------------

  datatype AuthSettings = AuthSettings(key: Bytes, allowUnauthenticated: bool)

  datatype HostStep = HostRefuses | HostRaw | HostSendsAuth(line: string, serverNonce: string)

  ghost function HostOnFirst(h: Hash, auth: AuthSettings, clientNonce: string, line: string): HostStep {
    var tokens := Tokens(White, line);
    if CommandIs(line, OK) then
      if auth.key != [] && !auth.allowUnauthenticated then HostRefuses
      else if HostField(tokens, "auth") != "none" || HostField(tokens, "mode") != "raw" then HostRefuses
      else HostRaw
    else if !CommandIs(line, CHALLENGE) then HostRefuses
    else if HostField(tokens, "auth") != "hmac-sha256" || HostField(tokens, "mode") != SECURE_MODE then HostRefuses
    else if auth.key == [] then HostRefuses
    else
      var serverNonce := HostField(tokens, "nonce");
      if NonceBytes(serverNonce).None? then HostRefuses
      else if HexDecode(HostField(tokens, "proof")) != Some(Proof(h, auth.key, "SERVER", clientNonce, serverNonce))
      then HostRefuses
      else HostSendsAuth(AuthLine(HexEncode(Proof(h, auth.key, "CLIENT", clientNonce, serverNonce))), serverNonce)
  }

  ghost predicate HostAcceptsFinal(line: string) {
    var tokens := Tokens(White, line);
    CommandIs(line, OK) && HostField(tokens, "auth") == "hmac-sha256" && HostField(tokens, "mode") == SECURE_MODE
  }

  // ---- Lines that were emitted parse back --------------------------------------------------------

  function Join(tokens: seq<string>): string {
    if tokens == [] then "" else if |tokens| == 1 then tokens[0] else tokens[0] + " " + Join(tokens[1..])
  }

  ghost predicate CleanTokens(tokens: seq<string>) {
    forall i :: 0 <= i < |tokens| ==> tokens[i] != "" && NoSeparator(White, tokens[i])
  }

  lemma {:induction false} TokensOfJoin(seps: Separators, tokens: seq<string>)
    requires CleanTokens(tokens)
    ensures Tokens(seps, Join(tokens)) == tokens
  {
    if tokens != [] {
      var s, first := Join(tokens), tokens[0];
      assert s[..|first|] == first && s[0] == first[0];
      assert NoSeparator(seps, s[..|first|]) by {
        forall i | 0 <= i < |first| ensures !IsSeparator(seps, s[..|first|][i]) {
          assert s[..|first|][i] == first[i] && !IsSeparator(White, first[i]);
        }
      }
      WordIs(seps, s, |first|);
      if |tokens| == 1 {
        assert s[|first|..] == "" && tokens == [first];
      } else {
        assert s[|first|..][1..] == Join(tokens[1..]);
        TokensOfJoin(seps, tokens[1..]);
        assert tokens == [first] + tokens[1..];
      }
    }
  }

  function HelloTokens(nonce: string): seq<string> {
    ["ESPNS/1", "HELLO", "nonce=" + nonce]
  }

  function ChallengeTokens(nonce: string, proof: string): seq<string> {
    ["ESPNS/1", "CHALLENGE", "auth=hmac-sha256", "nonce=" + nonce, "proof=" + proof, "mode=aes256-gcm"]
  }

  lemma PrefixClean(prefix: string, value: string)
    requires NoSeparator(White, prefix) && NoSeparator(White, value)
    ensures NoSeparator(White, prefix + value)
  {
  }

  lemma JoinStep(first: string, rest: seq<string>)
    requires rest != []
    ensures Join([first] + rest) == first + " " + Join(rest)
  {
    assert ([first] + rest)[1..] == rest;
  }

  lemma {:induction false} Unnamed(tokens: seq<string>, name: string)
    requires forall i :: 0 <= i < |tokens| ==> !Names(tokens[i], name)
    ensures Values(tokens, name) == []
  {
    if tokens != [] {
      Unnamed(tokens[..|tokens| - 1], name);
    }
  }

  ghost predicate StartOtherwise(tokens: seq<string>, name: string)
    requires name != ""
  {
    forall i :: 0 <= i < |tokens| ==> tokens[i] != "" && tokens[i][0] != name[0]
  }

  // A field given once, among tokens that start with another letter.
  lemma OnlyField(before: seq<string>, name: string, value: string, after: seq<string>)
    requires FieldName(name) && StartOtherwise(before, name) && StartOtherwise(after, name)
    ensures var t := before + [name + "=" + value] + after;
            Values(t, name) == [value] && HostField(t, name) == value
  {
    var token := name + "=" + value;
    forall t: string | Names(t, name) ensures t != "" && t[0] == name[0] {
      assert t[0] == (name + "=")[0];
    }
    Unnamed(before, name);
    Unnamed(after, name);
    AddToken(before, token, after, name);
    ValuesConcat(before + [token], after, name);
    assert token[|name| + 1..] == value && Values(before + [token] + after, name) == [value];
    HostTakesLast(before + [token] + after, name);
  }

  lemma HelloIsJoin(nonce: string)
    ensures Join(HelloTokens(nonce)) == HelloLine(nonce)
  {
    var t := HelloTokens(nonce);
    JoinStep("HELLO", [t[2]]);
    JoinStep("ESPNS/1", ["HELLO", t[2]]);
    assert t == ["ESPNS/1"] + ["HELLO", t[2]] && ["HELLO", t[2]] == ["HELLO"] + [t[2]];
  }

  lemma HelloParses(seps: Separators, nonce: string)
    requires NoSeparator(White, nonce)
    ensures Tokens(seps, HelloLine(nonce)) == HelloTokens(nonce)
    ensures Values(HelloTokens(nonce), "nonce") == [nonce]
  {
    hide Tokens, Join, Values, HostField, HelloLine;
    PrefixClean("nonce=", nonce);
    HelloIsJoin(nonce);
    TokensOfJoin(seps, HelloTokens(nonce));
    OnlyField(["ESPNS/1", "HELLO"], "nonce", nonce, []);
    assert "nonce" + "=" == "nonce=";
    assert ["ESPNS/1", "HELLO"] + ["nonce" + "=" + nonce] + [] == HelloTokens(nonce);
  }

  lemma ChallengeText(a: string, b: string)
    ensures "ESPNS/1" + " " + ("CHALLENGE" + " " + ("auth=hmac-sha256" + " " + (a + " " + (b + " " + "mode=aes256-gcm"))))
            == "ESPNS/1 CHALLENGE auth=hmac-sha256 " + a + " " + b + " mode=aes256-gcm"
  {
  }

  lemma ChallengeIsJoin(nonce: string, proof: string)
    ensures Join(ChallengeTokens(nonce, proof)) == ChallengeLine(nonce, proof)
  {
    var a, b, mode := "nonce=" + nonce, "proof=" + proof, "mode=aes256-gcm";
    JoinStep(b, [mode]);
    JoinStep(a, [b, mode]);
    JoinStep("auth=hmac-sha256", [a, b, mode]);
    JoinStep("CHALLENGE", ["auth=hmac-sha256", a, b, mode]);
    JoinStep("ESPNS/1", ["CHALLENGE", "auth=hmac-sha256", a, b, mode]);
    Prepend5("ESPNS/1", "CHALLENGE", "auth=hmac-sha256", a, b, mode);
    ChallengeText(a, b);
    ChallengeFieldsText(nonce, proof);
  }

  lemma ChallengeFieldsText(nonce: string, proof: string)
    ensures "ESPNS/1 CHALLENGE auth=hmac-sha256 " + ("nonce=" + nonce) + " " + ("proof=" + proof) + " mode=aes256-gcm"
            == ChallengeLine(nonce, proof)
  {
    var text := "ESPNS/1 CHALLENGE auth=hmac-sha256 nonce=" + nonce;
    assert "ESPNS/1 CHALLENGE auth=hmac-sha256 " + ("nonce=" + nonce) == text;
    assert text + " " + ("proof=" + proof) == text + " proof=" + proof;
  }

  lemma Prepend5(s0: string, s1: string, s2: string, s3: string, s4: string, s5: string)
    ensures [s0, s1, s2, s3, s4, s5] == [s0] + [s1, s2, s3, s4, s5]
    ensures [s1, s2, s3, s4, s5] == [s1] + [s2, s3, s4, s5] && [s2, s3, s4, s5] == [s2] + [s3, s4, s5]
    ensures [s3, s4, s5] == [s3] + [s4, s5] && [s4, s5] == [s4] + [s5]
  {
  }

  lemma ChallengeParses(seps: Separators, nonce: string, proof: string)
    requires NoSeparator(White, nonce) && NoSeparator(White, proof)
    ensures Tokens(seps, ChallengeLine(nonce, proof)) == ChallengeTokens(nonce, proof)
  {
    hide ChallengeTokens, ChallengeLine, NoSeparator, CleanTokens, Join;
    ChallengeClean(nonce, proof);
    ChallengeIsJoin(nonce, proof);
    TokensOfJoin(seps, ChallengeTokens(nonce, proof));
  }

  lemma ChallengeClean(nonce: string, proof: string)
    requires NoSeparator(White, nonce) && NoSeparator(White, proof)
    ensures CleanTokens(ChallengeTokens(nonce, proof))
  {
    PrefixClean("nonce=", nonce);
    PrefixClean("proof=", proof);
  }

  // The command word of each emitted line.
  lemma Commands(a: string, b: string)
    ensures CommandIs(HelloLine(a), HELLO) && CommandIs(AuthLine(a), AUTH)
    ensures CommandIs(ChallengeLine(a, b), CHALLENGE) && !CommandIs(ChallengeLine(a, b), OK)
  {
  }

  lemma ChallengeFields(nonce: string, proof: string)
    ensures var t := ChallengeTokens(nonce, proof);
            && HostField(t, "auth") == "hmac-sha256" && HostField(t, "nonce") == nonce
            && HostField(t, "proof") == proof && HostField(t, "mode") == SECURE_MODE
  {
    ChallengeAuth(nonce, proof);
    ChallengeMode(nonce, proof);
    ChallengeNonce(nonce, proof);
    ChallengeProof(nonce, proof);
  }

  lemma ChallengeAuth(nonce: string, proof: string)
    ensures HostField(ChallengeTokens(nonce, proof), "auth") == "hmac-sha256"
  {
    FieldAt(ChallengeTokens(nonce, proof), 2, "auth", "hmac-sha256");
  }

  lemma ChallengeMode(nonce: string, proof: string)
    ensures HostField(ChallengeTokens(nonce, proof), "mode") == SECURE_MODE
  {
    FieldAt(ChallengeTokens(nonce, proof), 5, "mode", SECURE_MODE);
  }

  lemma ChallengeNonce(nonce: string, proof: string)
    ensures HostField(ChallengeTokens(nonce, proof), "nonce") == nonce
  {
    assert "nonce" + "=" == "nonce=";
    FieldAt(ChallengeTokens(nonce, proof), 3, "nonce", nonce);
  }

  lemma ChallengeProof(nonce: string, proof: string)
    ensures HostField(ChallengeTokens(nonce, proof), "proof") == proof
  {
    assert "proof" + "=" == "proof=";
    FieldAt(ChallengeTokens(nonce, proof), 4, "proof", proof);
  }

  lemma FieldAt(tokens: seq<string>, k: nat, name: string, value: string)
    requires FieldName(name) && k < |tokens| && tokens[k] == name + "=" + value
    requires forall i :: 0 <= i < |tokens| && i != k ==> tokens[i] != "" && tokens[i][0] != name[0]
    ensures Values(tokens, name) == [value] && HostField(tokens, name) == value
  {
    OnlyField(tokens[..k], name, value, tokens[k + 1..]);
    assert tokens == tokens[..k] + [tokens[k]] + tokens[k + 1..];
  }

  lemma AuthParses(seps: Separators, proof: string)
    requires NoSeparator(White, proof)
    ensures Values(Tokens(seps, AuthLine(proof)), "proof") == [proof]
  {
    var t := ["ESPNS/1", "AUTH", "proof=" + proof];
    AuthIsJoin(proof);
    PrefixClean("proof=", proof);
    TokensOfJoin(seps, t);
    OnlyField(["ESPNS/1", "AUTH"], "proof", proof, []);
    assert "proof" + "=" == "proof=";
    assert ["ESPNS/1", "AUTH"] + ["proof" + "=" + proof] + [] == t;
  }

  lemma AuthIsJoin(proof: string)
    ensures Join(["ESPNS/1", "AUTH", "proof=" + proof]) == AuthLine(proof)
  {
    var t := ["ESPNS/1", "AUTH", "proof=" + proof];
    JoinStep("AUTH", [t[2]]);
    JoinStep("ESPNS/1", ["AUTH", t[2]]);
    assert t == ["ESPNS/1"] + ["AUTH", t[2]] && ["AUTH", t[2]] == ["AUTH"] + [t[2]];
  }

  lemma OkIsJoin(auth: string, mode: string)
    ensures Join(["ESPNS/1", "OK", "auth=" + auth, "mode=" + mode]) == "ESPNS/1 OK auth=" + auth + " mode=" + mode
  {
    var a, m := "auth=" + auth, "mode=" + mode;
    JoinStep(a, [m]);
    JoinStep("OK", [a, m]);
    JoinStep("ESPNS/1", ["OK", a, m]);
    assert ["ESPNS/1", "OK", a, m] == ["ESPNS/1"] + ["OK", a, m];
    assert ["OK", a, m] == ["OK"] + [a, m] && [a, m] == [a] + [m];
  }

  lemma OkParses(auth: string, mode: string)
    requires NoSeparator(White, auth) && NoSeparator(White, mode)
    ensures var line := "ESPNS/1 OK auth=" + auth + " mode=" + mode;
            && CommandIs(line, OK)
            && HostField(Tokens(White, line), "auth") == auth && HostField(Tokens(White, line), "mode") == mode
  {
    var t := ["ESPNS/1", "OK", "auth=" + auth, "mode=" + mode];
    OkIsJoin(auth, mode);
    PrefixClean("auth=", auth);
    PrefixClean("mode=", mode);
    TokensOfJoin(White, t);
    assert "auth" + "=" == "auth=" && "mode" + "=" == "mode=";
    FieldAt(t, 2, "auth", auth);
    FieldAt(t, 3, "mode", mode);
  }
}
