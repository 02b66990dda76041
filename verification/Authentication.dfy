/** Many handshakes under one shared key while an attacker relays, alters, replays and mixes
    lines.  HMAC is symbolic: a proof is accepted only for a text some honest end has authenticated. */
module Authentication {
  import opened ByteStrings
  import opened ControlFields
  import opened Hkdf
  import opened Hex
  import opened Handshake

  datatype Role = Server | Client

  datatype Term = Term(role: Role, cn: string, sn: string)

  function RoleWord(role: Role): string {
    if role == Server then "SERVER" else "CLIENT"
  }

  // The bytes under the HMAC.
  function TextOf(t: Term): Bytes {
    Ascii(MacText(RoleWord(t.role), t.cn, t.sn, SECURE_MODE))
  }

  // `secure` is set by the final OK line, which carries no proof.
  datatype Host = Host(cn: string, answer: Option<string>, secure: bool, failed: bool)
  datatype Device = Device(cn: string, sn: string, secure: bool, closed: bool)
  datatype State = State(proved: set<Term>, hosts: seq<Host>, devices: seq<Device>)

  datatype Event =
    | HostHello(random: Bytes)
    | DeviceHello(cn: string, random: Bytes)
    | HostChallenge(host: nat, sn: string)
    | DeviceAuth(device: nat)
    | HostOk(host: nat)

  predicate ValidNonce(nonce: string) {
    NonceBytes(nonce).Some?
  }

  // Some honest end has computed the HMAC of these bytes.
  ghost predicate Available(s: State, text: Bytes) {
    exists t :: t in s.proved && TextOf(t) == text
  }

  ghost predicate NewClientNonce(s: State, cn: string) {
    forall i :: 0 <= i < |s.hosts| ==> s.hosts[i].cn != cn
  }

  ghost predicate NewServerNonce(s: State, sn: string) {
    forall j :: 0 <= j < |s.devices| ==> s.devices[j].sn != sn
  }

  // The events of the honest ends; what the attacker sends appears as the arguments.
  ghost function Step(s: State, e: Event): State {
    match e
    case HostHello(random) =>
      if |random| == NONCE_SIZE && NewClientNonce(s, HexEncode(random)) then
        s.(hosts := s.hosts + [Host(HexEncode(random), None, false, false)])
      else s
    case DeviceHello(cn, random) =>
      var sn := HexEncode(random);
      if |random| == NONCE_SIZE && NewServerNonce(s, sn) && ValidNonce(cn) then
        s.(devices := s.devices + [Device(cn, sn, false, false)], proved := s.proved + {Term(Server, cn, sn)})
      else s
    case HostChallenge(i, sn) =>
      if i >= |s.hosts| || s.hosts[i].answer.Some? || s.hosts[i].failed then s
      else if ValidNonce(sn) && Available(s, TextOf(Term(Server, s.hosts[i].cn, sn))) then
        s.(hosts := s.hosts[i := s.hosts[i].(answer := Some(sn))],
           proved := s.proved + {Term(Client, s.hosts[i].cn, sn)})
      else s.(hosts := s.hosts[i := s.hosts[i].(failed := true)])
    case DeviceAuth(j) =>
      if j >= |s.devices| || s.devices[j].secure || s.devices[j].closed then s
      else if Available(s, TextOf(Term(Client, s.devices[j].cn, s.devices[j].sn))) then
        s.(devices := s.devices[j := s.devices[j].(secure := true)])
      else s.(devices := s.devices[j := s.devices[j].(closed := true)])
    case HostOk(i) =>
      if i < |s.hosts| && s.hosts[i].answer.Some? then s.(hosts := s.hosts[i := s.hosts[i].(secure := true)]) else s
  }

  ghost function Run(events: seq<Event>): State {
    if events == [] then State({}, [], []) else Step(Run(events[..|events| - 1]), events[|events| - 1])
  }

  ghost predicate Answered(s: State, cn: string, sn: string) {
    exists i :: 0 <= i < |s.hosts| && s.hosts[i].cn == cn && s.hosts[i].answer == Some(sn)
  }

  ghost predicate Asked(s: State, cn: string, sn: string) {
    exists j :: 0 <= j < |s.devices| && s.devices[j].cn == cn && s.devices[j].sn == sn
  }

  ghost predicate Proper(s: State, t: Term) {
    && ValidNonce(t.cn) && ValidNonce(t.sn)
    && (if t.role == Server then Asked(s, t.cn, t.sn) else Answered(s, t.cn, t.sn))
  }

  ghost predicate Proofs(s: State) {
    forall t :: t in s.proved ==> Proper(s, t)
  }

  ghost predicate Hosts(s: State) {
    && (forall i :: 0 <= i < |s.hosts| ==>
          && ValidNonce(s.hosts[i].cn) && (s.hosts[i].secure ==> s.hosts[i].answer.Some?)
          && (s.hosts[i].answer.Some? ==> Asked(s, s.hosts[i].cn, s.hosts[i].answer.value)))
    && (forall i, k :: 0 <= i < k < |s.hosts| ==> s.hosts[i].cn != s.hosts[k].cn)
  }

  ghost predicate Devices(s: State) {
    && (forall j :: 0 <= j < |s.devices| ==>
          && ValidNonce(s.devices[j].cn) && ValidNonce(s.devices[j].sn)
          && (s.devices[j].secure ==> Answered(s, s.devices[j].cn, s.devices[j].sn)))
    && (forall j, k :: 0 <= j < k < |s.devices| ==> s.devices[j].sn != s.devices[k].sn)
  }

  ghost predicate Invariant(s: State) {
    Proofs(s) && Hosts(s) && Devices(s)
  }

  // ---- Symbolic terms lose nothing: with valid nonces the bytes determine the term -------------

  lemma {:induction false} HexTextPlain(s: string)
    requires HexDecode(s).Some?
    ensures ' ' !in s && AsciiText(s)
    decreases |s|
  {
    if s != "" {
      HexTextPlain(s[2..]);
      assert s == [s[0], s[1]] + s[2..];
    }
  }

  lemma FreshNonceValid(random: Bytes)
    requires |random| == NONCE_SIZE
    ensures ValidNonce(HexEncode(random))
  {
    HexRoundTrip(random);
  }

  lemma TermPlain(t: Term)
    requires ValidNonce(t.cn) && ValidNonce(t.sn)
    ensures ' ' !in RoleWord(t.role) && ' ' !in t.cn && ' ' !in t.sn
    ensures AsciiText(MacText(RoleWord(t.role), t.cn, t.sn, SECURE_MODE))
  {
    hide HexDecode;
    HexTextPlain(t.cn);
    HexTextPlain(t.sn);
  }

  lemma TermsFaithful(a: Term, b: Term)
    requires ValidNonce(a.cn) && ValidNonce(a.sn) && ValidNonce(b.cn) && ValidNonce(b.sn)
    requires TextOf(a) == TextOf(b)
    ensures a == b
  {
    hide HexDecode, Ascii, AsciiText, MacText;
    TermPlain(a);
    TermPlain(b);
    MacTextInjective(RoleWord(a.role), a.cn, a.sn, SECURE_MODE, RoleWord(b.role), b.cn, b.sn, SECURE_MODE);
  }

  lemma AvailableIsProved(s: State, t: Term)
    requires Proofs(s) && ValidNonce(t.cn) && ValidNonce(t.sn) && Available(s, TextOf(t))
    ensures t in s.proved
  {
    var u :| u in s.proved && TextOf(u) == TextOf(t);
    assert Proper(s, u);
    TermsFaithful(u, t);
  }

  // ---- Every step keeps the invariant ------------------------------------------------------------

  // Sessions are never forgotten: what was asked or answered stays so.
  lemma StepGrows(s: State, e: Event, cn: string, sn: string)
    ensures Asked(s, cn, sn) ==> Asked(Step(s, e), cn, sn)
    ensures Answered(s, cn, sn) ==> Answered(Step(s, e), cn, sn)
  {
    var after := Step(s, e);
    if Asked(s, cn, sn) {
      var j :| 0 <= j < |s.devices| && s.devices[j].cn == cn && s.devices[j].sn == sn;
      assert after.devices[j].cn == cn && after.devices[j].sn == sn;
    }
    if Answered(s, cn, sn) {
      var i :| 0 <= i < |s.hosts| && s.hosts[i].cn == cn && s.hosts[i].answer == Some(sn);
      assert after.hosts[i].cn == cn && after.hosts[i].answer == Some(sn);
    }
  }

  lemma StepProofs(s: State, e: Event)
    requires Invariant(s)
    ensures Proofs(Step(s, e))
  {
    var after := Step(s, e);
    forall t | t in after.proved ensures Proper(after, t) {
      if t in s.proved {
        assert Proper(s, t);
        StepGrows(s, e, t.cn, t.sn);
      } else {
        match e {
          case DeviceHello(cn, random) =>
            HexRoundTrip(random);
            assert after.devices[|s.devices|].cn == t.cn && after.devices[|s.devices|].sn == t.sn;
          case HostChallenge(i, sn) =>
            assert after.hosts[i].cn == t.cn && after.hosts[i].answer == Some(t.sn);
          case _ =>
        }
      }
    }
  }

  lemma StepHosts(s: State, e: Event)
    requires Invariant(s)
    ensures Hosts(Step(s, e))
  {
    hide TextOf, NonceBytes, Answered, Devices, HexEncode;
    var after := Step(s, e);
    forall i | 0 <= i < |after.hosts|
      ensures ValidNonce(after.hosts[i].cn) && (after.hosts[i].secure ==> after.hosts[i].answer.Some?)
      ensures after.hosts[i].answer.Some? ==> Asked(after, after.hosts[i].cn, after.hosts[i].answer.value)
    {
      if i == |s.hosts| {
        FreshNonceValid(e.random);
      } else if after.hosts[i].answer.Some? {
        var sn := after.hosts[i].answer.value;
        if s.hosts[i].answer.None? {
          AvailableIsProved(s, Term(Server, s.hosts[i].cn, sn));
          assert Proper(s, Term(Server, s.hosts[i].cn, sn));
        }
        StepGrows(s, e, after.hosts[i].cn, sn);
      }
    }
  }

  lemma StepDevices(s: State, e: Event)
    requires Invariant(s)
    ensures Devices(Step(s, e))
  {
    hide TextOf, NonceBytes, Asked, Hosts, HexEncode;
    var after := Step(s, e);
    forall j | 0 <= j < |after.devices|
      ensures ValidNonce(after.devices[j].cn) && ValidNonce(after.devices[j].sn)
      ensures after.devices[j].secure ==> Answered(after, after.devices[j].cn, after.devices[j].sn)
    {
      if j == |s.devices| {
        FreshNonceValid(e.random);
      } else if after.devices[j].secure {
        var d := s.devices[j];
        if !d.secure {
          AvailableIsProved(s, Term(Client, d.cn, d.sn));
          assert Proper(s, Term(Client, d.cn, d.sn));
        }
        StepGrows(s, e, d.cn, d.sn);
      }
    }
  }

  lemma {:induction false} Reachable(events: seq<Event>)
    ensures Invariant(Run(events))
  {
    if events != [] {
      var s, e := Run(events[..|events| - 1]), events[|events| - 1];
      Reachable(events[..|events| - 1]);
      StepProofs(s, e);
      StepHosts(s, e);
      StepDevices(s, e);
    }
  }

  // ---- Agreement ---------------------------------------------------------------------------------

  // A device session that ends secure has exactly one host session with its nonces, and no other
  // device session has those nonces: nothing replayed was accepted.
  lemma SecureDeviceHasOneHost(events: seq<Event>, j: nat) returns (i: nat)
    requires j < |Run(events).devices| && Run(events).devices[j].secure
    ensures var s := Run(events);
            && i < |s.hosts| && s.hosts[i].cn == s.devices[j].cn && s.hosts[i].answer == Some(s.devices[j].sn)
            && (forall k :: 0 <= k < |s.hosts| && k != i ==> s.hosts[k].cn != s.devices[j].cn)
            && (forall k :: 0 <= k < |s.devices| && k != j ==> s.devices[k].sn != s.devices[j].sn)
  {
    Reachable(events);
    var s := Run(events);
    var d := s.devices[j];
    assert Answered(s, d.cn, d.sn);
    i :| 0 <= i < |s.hosts| && s.hosts[i].cn == d.cn && s.hosts[i].answer == Some(d.sn);
  }

  // A host that accepts has exactly one device session with its nonces, whose session keys are
  // therefore its own.
  lemma SecureHostHasOneDevice(h: Hash, key: Bytes, events: seq<Event>, i: nat) returns (j: nat)
    requires Sized(h) && i < |Run(events).hosts| && Run(events).hosts[i].secure
    ensures var s := Run(events);
            && j < |s.devices| && s.hosts[i].answer == Some(s.devices[j].sn) && s.devices[j].cn == s.hosts[i].cn
            && (forall k :: 0 <= k < |s.devices| && k != j ==> s.devices[k].sn != s.devices[j].sn)
            && DeviceKeys(h, key, s.hosts[i].cn, s.hosts[i].answer.value).Some?
            && DeviceKeys(h, key, s.hosts[i].cn, s.hosts[i].answer.value)
               == DeviceKeys(h, key, s.devices[j].cn, s.devices[j].sn)
  {
    Reachable(events);
    var s := Run(events);
    assert Asked(s, s.hosts[i].cn, s.hosts[i].answer.value);
    j :| 0 <= j < |s.devices| && s.devices[j].cn == s.hosts[i].cn && s.devices[j].sn == s.hosts[i].answer.value;
    assert ValidNonce(s.devices[j].sn);
  }

  // ---- Honest ends get through ---------------------------------------------------------------------

  // After any run, one more host and one more device with new nonces, whose lines are carried unchanged,
  // both end secure, and nothing else is touched.
  lemma HonestHandshake(events: seq<Event>, clientRandom: Bytes, serverRandom: Bytes)
    requires |clientRandom| == |serverRandom| == NONCE_SIZE
    requires NewClientNonce(Run(events), HexEncode(clientRandom)) && NewServerNonce(Run(events), HexEncode(serverRandom))
    ensures var s, cn, sn := Run(events), HexEncode(clientRandom), HexEncode(serverRandom);
            var after := Run(events + [HostHello(clientRandom), DeviceHello(cn, serverRandom), HostChallenge(|s.hosts|, sn),
                                       DeviceAuth(|s.devices|), HostOk(|s.hosts|)]);
            && after.hosts == s.hosts + [Host(cn, Some(sn), true, false)]
            && after.devices == s.devices + [Device(cn, sn, true, false)]
  {
    var s, cn, sn := Run(events), HexEncode(clientRandom), HexEncode(serverRandom);
    var e1, e2, e3 := HostHello(clientRandom), DeviceHello(cn, serverRandom), HostChallenge(|s.hosts|, sn);
    var e4, e5 := DeviceAuth(|s.devices|), HostOk(|s.hosts|);
    hide HexEncode, TextOf, ValidNonce, Step, Available;
    FiveMore(events, e1, e2, e3, e4, e5);
    HellosStep(s, clientRandom, serverRandom);
    var s2 := Step(Step(s, e1), e2);
    ProofsStep(s2, |s.hosts|, |s.devices|, cn, sn);
    OkStep(Step(Step(s2, e3), e4), |s.hosts|);
    LastReplaced(s.hosts, Host(cn, None, false, false), Host(cn, Some(sn), false, false));
    LastReplaced(s.hosts, Host(cn, Some(sn), false, false), Host(cn, Some(sn), true, false));
    LastReplaced(s.devices, Device(cn, sn, false, false), Device(cn, sn, true, false));
  }

  lemma LastReplaced<T>(xs: seq<T>, a: T, b: T)
    ensures (xs + [a])[|xs| := b] == xs + [b]
  {
  }

  lemma FiveMore(events: seq<Event>, e1: Event, e2: Event, e3: Event, e4: Event, e5: Event)
    ensures Run(events + [e1, e2, e3, e4, e5]) == Step(Step(Step(Step(Step(Run(events), e1), e2), e3), e4), e5)
  {
    hide Step;
    OneMore(events, e1);
    OneMore(events + [e1], e2);
    OneMore(events + [e1] + [e2], e3);
    OneMore(events + [e1] + [e2] + [e3], e4);
    OneMore(events + [e1] + [e2] + [e3] + [e4], e5);
    assert events + [e1] + [e2] + [e3] + [e4] + [e5] == events + [e1, e2, e3, e4, e5];
  }

  lemma HellosStep(s: State, clientRandom: Bytes, serverRandom: Bytes)
    requires |clientRandom| == |serverRandom| == NONCE_SIZE
    requires NewClientNonce(s, HexEncode(clientRandom)) && NewServerNonce(s, HexEncode(serverRandom))
    ensures var cn, sn := HexEncode(clientRandom), HexEncode(serverRandom);
            && ValidNonce(sn)
            && Step(Step(s, HostHello(clientRandom)), DeviceHello(cn, serverRandom))
               == State(s.proved + {Term(Server, cn, sn)}, s.hosts + [Host(cn, None, false, false)],
                        s.devices + [Device(cn, sn, false, false)])
  {
    FreshNonceValid(clientRandom);
    FreshNonceValid(serverRandom);
    hide HexEncode, ValidNonce;
  }

  // Each end has computed the proof the other one asks for.
  lemma ProofsStep(s: State, i: nat, j: nat, cn: string, sn: string)
    requires i < |s.hosts| && s.hosts[i] == Host(cn, None, false, false)
    requires j < |s.devices| && s.devices[j] == Device(cn, sn, false, false)
    requires ValidNonce(sn) && Term(Server, cn, sn) in s.proved
    ensures var after := Step(Step(s, HostChallenge(i, sn)), DeviceAuth(j));
            && after.hosts == s.hosts[i := Host(cn, Some(sn), false, false)]
            && after.devices == s.devices[j := Device(cn, sn, true, false)]
  {
    hide TextOf, ValidNonce;
    assert Available(s, TextOf(Term(Server, cn, sn)));
    var s3 := Step(s, HostChallenge(i, sn));
    assert Available(s3, TextOf(Term(Client, cn, sn)));
  }

  lemma OkStep(s: State, i: nat)
    requires i < |s.hosts| && s.hosts[i].answer.Some?
    ensures Step(s, HostOk(i)) == s.(hosts := s.hosts[i := s.hosts[i].(secure := true)])
  {
  }

  lemma OneMore(events: seq<Event>, e: Event)
    ensures Run(events + [e]) == Step(Run(events), e)
  {
    assert (events + [e])[..|events|] == events;
  }
}
