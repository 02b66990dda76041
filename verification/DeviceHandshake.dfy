/** The device's side of the handshake as a function of the bytes it reads: byte by byte, and
    line by line. */
module DeviceHandshake {
  import opened ByteStrings
  import opened ControlLines
  import opened Hkdf
  import opened Handshake

  // `text` is what the open line holds so far.
  datatype Phase =
    | AwaitingHello(text: string)
    | AwaitingAuth(clientNonce: string, serverNonce: string, text: string)
    | InRaw
    | InSecure(keys: SessionKeys)
    | Closed

  // `control` is everything sent during the handshake.
  datatype Session = Session(phase: Phase, control: Bytes)

  const START: Session := Session(AwaitingHello(""), [])

  const LINE_TOO_LONG: string := "ESPNS/1 ERR line_too_long"

  predicate Undecided(phase: Phase) {
    phase.AwaitingHello? || phase.AwaitingAuth?
  }

  function Sending(s: Session, phase: Phase, line: string): Session {
    Session(phase, s.control + Ascii(line) + [LF])
  }

  function Decide(s: Session, step: DeviceStep): Session {
    Sending(s,
      match step.verdict
      case Refused => Closed
      case ReadyRaw => InRaw
      case Challenged(cn, sn) => AwaitingAuth(cn, sn, "")
      case ReadySecure(keys) => InSecure(keys),
      step.reply)
  }

  function WithText(phase: Phase, text: string): Phase
    requires Undecided(phase)
  {
    match phase
    case AwaitingHello(_) => AwaitingHello(text)
    case AwaitingAuth(cn, sn, _) => AwaitingAuth(cn, sn, text)
  }

  // What a finished line leads to.
  ghost function OnLine(h: Hash, key: Bytes, random: Bytes, s: Session, line: string): Session
    requires Sized(h) && Undecided(s.phase)
  {
    Decide(s,
      match s.phase
      case AwaitingHello(_) => DeviceOnHello(h, key, CString(line), random)
      case AwaitingAuth(cn, sn, _) => DeviceOnAuth(h, key, CString(line), cn, sn))
  }

  // One handshake byte.  A decided session takes no more of them.
  ghost function FeedByte(h: Hash, key: Bytes, random: Bytes, s: Session, b: byte): Session
    requires Sized(h)
  {
    if !Undecided(s.phase) then Session(Closed, s.control)
    else if b == CR then s
    else if b == LF then OnLine(h, key, random, s, s.phase.text)
    else if |s.phase.text| + 1 >= LINE_LIMIT then Sending(s, Closed, LINE_TOO_LONG)
    else s.(phase := WithText(s.phase, s.phase.text + [b as char]))
  }

  ghost function FeedHandshake(h: Hash, key: Bytes, random: Bytes, s: Session, bytes: Bytes): Session
    requires Sized(h)
  {
    if bytes == [] then s
    else FeedByte(h, key, random, FeedHandshake(h, key, random, s, bytes[..|bytes| - 1]), bytes[|bytes| - 1])
  }

  // The session after exactly these handshake bytes.
  ghost function Run(h: Hash, key: Bytes, random: Bytes, received: Bytes): Session
    requires Sized(h)
  {
    FeedHandshake(h, key, random, START, received)
  }

  lemma FeedMore(h: Hash, key: Bytes, random: Bytes, s: Session, bytes: Bytes, b: byte)
    requires Sized(h)
    ensures FeedHandshake(h, key, random, s, bytes + [b])
            == FeedByte(h, key, random, FeedHandshake(h, key, random, s, bytes), b)
  {
    assert (bytes + [b])[..|bytes|] == bytes;
  }

  lemma FeedNone(h: Hash, key: Bytes, random: Bytes, s: Session)
    requires Sized(h)
    ensures FeedHandshake(h, key, random, s, []) == s
  {
  }

  // The server nonce plays no part before the challenge is issued.
  lemma {:induction false} RandomUnused(h: Hash, key: Bytes, r: Bytes, r': Bytes, s: Session, bytes: Bytes)
    requires Sized(h) && FeedHandshake(h, key, r, s, bytes).phase.AwaitingHello?
    ensures FeedHandshake(h, key, r', s, bytes) == FeedHandshake(h, key, r, s, bytes)
  {
    if bytes != [] {
      var before := FeedHandshake(h, key, r, s, bytes[..|bytes| - 1]);
      assert before.phase.AwaitingHello?;
      RandomUnused(h, key, r, r', s, bytes[..|bytes| - 1]);
    }
  }

  // Nor after it: the challenge has fixed the two nonces.
  lemma {:induction false} RandomUnusedLater(h: Hash, key: Bytes, r: Bytes, r': Bytes, s: Session, bytes: Bytes)
    requires Sized(h) && !s.phase.AwaitingHello?
    ensures FeedHandshake(h, key, r', s, bytes) == FeedHandshake(h, key, r, s, bytes)
    ensures !FeedHandshake(h, key, r, s, bytes).phase.AwaitingHello?
  {
    hide CString, DeviceOnHello, DeviceOnAuth;
    if bytes != [] {
      RandomUnusedLater(h, key, r, r', s, bytes[..|bytes| - 1]);
    }
  }

  // ---- What being in a phase means -------------------------------------------------------------

  // In terms of the finished lines of what was read.
  ghost predicate Means(h: Hash, key: Bytes, random: Bytes, s: Session, l: Lines)
    requires Sized(h)
  {
    match s.phase
    case AwaitingHello(text) => l == Lines([], text, false) && s.control == []
    case AwaitingAuth(cn, sn, text) =>
      && |l.done| == 1 && l == Lines(l.done, text, false)
      && var step := DeviceOnHello(h, key, CString(l.done[0]), random);
         step.verdict == Challenged(cn, sn) && s.control == Ascii(step.reply) + [LF]
    case InRaw =>
      && |l.done| == 1 && l == Lines(l.done, "", false)
      && DeviceOnHello(h, key, CString(l.done[0]), random) == DeviceStep(OK_RAW, ReadyRaw)
      && s.control == Ascii(OK_RAW) + [LF]
    case InSecure(keys) =>
      && |l.done| == 2 && l == Lines(l.done, "", false)
      && var hello := DeviceOnHello(h, key, CString(l.done[0]), random);
         && hello.verdict.Challenged?
         && ClientProofOk(h, key, CString(l.done[1]), hello.verdict.clientNonce, hello.verdict.serverNonce)
         && DeviceKeys(h, key, hello.verdict.clientNonce, hello.verdict.serverNonce) == Some(keys)
         && s.control == Ascii(hello.reply) + [LF] + Ascii(OK_SECURE) + [LF]
    case Closed => true
  }

  lemma {:induction false} RunMeans(h: Hash, key: Bytes, random: Bytes, received: Bytes)
    requires Sized(h)
    ensures Means(h, key, random, Run(h, key, random, received), LinesOf(received))
  {
    if received != [] {
      var init, b := received[..|received| - 1], received[|received| - 1];
      assert received == init + [b];
      RunMeans(h, key, random, init);
      LineStep(init, b);
      FeedMeans(h, key, random, Run(h, key, random, init), LinesOf(init), b);
    }
  }

  lemma FeedMeans(h: Hash, key: Bytes, random: Bytes, s: Session, l: Lines, b: byte)
    requires Sized(h) && Means(h, key, random, s, l)
    ensures Means(h, key, random, FeedByte(h, key, random, s, b), FeedLine(l, b))
  {
    if Undecided(s.phase) && b == LF {
      if s.phase.AwaitingHello? {
        HelloMeans(h, key, random, s, l);
      } else {
        AuthMeans(h, key, random, s, l);
      }
    }
  }

  lemma HelloMeans(h: Hash, key: Bytes, random: Bytes, s: Session, l: Lines)
    requires Sized(h) && s.phase.AwaitingHello? && Means(h, key, random, s, l)
    ensures Means(h, key, random, OnLine(h, key, random, s, s.phase.text), FeedLine(l, LF))
  {
    hide CString, DeviceOnAuth;
    var step := DeviceOnHello(h, key, CString(s.phase.text), random);
    assert [] + Ascii(step.reply) == Ascii(step.reply);
    HelloVerdicts(h, key, CString(s.phase.text), random);
  }

  lemma HelloVerdicts(h: Hash, key: Bytes, line: string, random: Bytes)
    ensures var step := DeviceOnHello(h, key, line, random);
            && !step.verdict.ReadySecure?
            && (step.verdict.ReadyRaw? ==> step == DeviceStep(OK_RAW, ReadyRaw) && key == [])
            && (step.verdict.Challenged? ==> key != [])
  {
  }

  lemma AuthMeans(h: Hash, key: Bytes, random: Bytes, s: Session, l: Lines)
    requires Sized(h) && s.phase.AwaitingAuth? && Means(h, key, random, s, l)
    ensures Means(h, key, random, OnLine(h, key, random, s, s.phase.text), FeedLine(l, LF))
  {
    hide CString, DeviceOnHello, ClientProofOk, DeviceKeys;
  }

  // A ready session is encrypted exactly when the device has a key.
  lemma ReadyModes(h: Hash, key: Bytes, random: Bytes, received: Bytes)
    requires Sized(h)
    ensures var phase := Run(h, key, random, received).phase;
            (phase.InRaw? ==> key == []) && (phase.InSecure? || phase.AwaitingAuth? ==> key != [])
  {
    RunMeans(h, key, random, received);
    var l := LinesOf(received);
    if |l.done| > 0 {
      HelloVerdicts(h, key, CString(l.done[0]), random);
    }
  }

  // ---- Whole streams ---------------------------------------------------------------------------

  datatype Reading = Reading(session: Session, rest: Bytes)

  // Reads until decided; `rest` is left for the data path.
  ghost function ReadStream(h: Hash, key: Bytes, random: Bytes, s: Session, stream: Bytes): Reading
    requires Sized(h)
    decreases |stream|
  {
    if !Undecided(s.phase) || stream == [] then Reading(s, stream)
    else ReadStream(h, key, random, FeedByte(h, key, random, s, stream[0]), stream[1..])
  }

  // How the stream is cut over calls does not matter.
  lemma {:induction false} ReadConcat(h: Hash, key: Bytes, random: Bytes, s: Session, a: Bytes, b: Bytes)
    requires Sized(h)
    ensures ReadStream(h, key, random, s, a + b)
            == var first := ReadStream(h, key, random, s, a);
               if Undecided(first.session.phase) then ReadStream(h, key, random, first.session, b)
               else Reading(first.session, first.rest + b)
    decreases |a|
  {
    if a == [] {
      assert a + b == b;
    } else if Undecided(s.phase) {
      assert (a + b)[1..] == a[1..] + b;
      ReadConcat(h, key, random, FeedByte(h, key, random, s, a[0]), a[1..], b);
    }
  }

  lemma ReadOne(h: Hash, key: Bytes, random: Bytes, s: Session, b: byte, rest: Bytes)
    requires Sized(h) && Undecided(s.phase)
    ensures ReadStream(h, key, random, s, [b] + rest) == ReadStream(h, key, random, FeedByte(h, key, random, s, b), rest)
  {
    assert ([b] + rest)[1..] == rest;
  }

  // Serving is scanning lines and deciding each.
  lemma {:induction false} ReadIsScan(h: Hash, key: Bytes, random: Bytes, s: Session, stream: Bytes)
    requires Sized(h) && Undecided(s.phase)
    ensures ReadStream(h, key, random, s, stream)
            == match ScanLine(s.phase.text, stream)
               case More(text) => Reading(s.(phase := WithText(s.phase, text)), [])
               case Line(line, rest) => ReadStream(h, key, random, OnLine(h, key, random, s, line), rest)
               case TooLong(rest) => Reading(Sending(s, Closed, LINE_TOO_LONG), rest)
    decreases |stream|
  {
    if stream != [] {
      var b := stream[0];
      if b == CR || (b != LF && |s.phase.text| + 1 < LINE_LIMIT) {
        var next := FeedByte(h, key, random, s, b);
        ReadIsScan(h, key, random, next, stream[1..]);
        SameOnLine(h, key, random, s, next);
      }
    }
  }

  lemma SameOnLine(h: Hash, key: Bytes, random: Bytes, s: Session, t: Session)
    requires Sized(h) && Undecided(s.phase) && Undecided(t.phase)
    requires t == s.(phase := WithText(s.phase, t.phase.text))
    ensures forall line :: OnLine(h, key, random, t, line) == OnLine(h, key, random, s, line)
    ensures forall text :: WithText(t.phase, text) == WithText(s.phase, text)
    ensures Sending(t, Closed, LINE_TOO_LONG) == Sending(s, Closed, LINE_TOO_LONG)
  {
  }

  lemma {:induction false} FeedLeavesOpen(h: Hash, key: Bytes, random: Bytes, s: Session, bytes: Bytes, rest: Bytes)
    requires Sized(h) && Undecided(FeedHandshake(h, key, random, s, bytes).phase)
    ensures ReadStream(h, key, random, s, bytes + rest)
            == ReadStream(h, key, random, FeedHandshake(h, key, random, s, bytes), rest)
    decreases |bytes|
  {
    hide DeviceOnHello, DeviceOnAuth;
    if bytes == [] {
      assert bytes + rest == rest;
    } else {
      var init, b := bytes[..|bytes| - 1], bytes[|bytes| - 1];
      assert bytes + rest == init + ([b] + rest);
      FeedLeavesOpen(h, key, random, s, init, [b] + rest);
      ReadOne(h, key, random, FeedHandshake(h, key, random, s, init), b, rest);
    }
  }

  // The byte that decides is the last one read.
  lemma FeedDecidesHere(h: Hash, key: Bytes, random: Bytes, s: Session, bytes: Bytes, b: byte, rest: Bytes)
    requires Sized(h) && Undecided(FeedHandshake(h, key, random, s, bytes).phase)
    requires !Undecided(FeedHandshake(h, key, random, s, bytes + [b]).phase)
    ensures ReadStream(h, key, random, s, bytes + [b] + rest)
            == Reading(FeedHandshake(h, key, random, s, bytes + [b]), rest)
  {
    assert bytes + [b] + rest == bytes + ([b] + rest);
    FeedLeavesOpen(h, key, random, s, bytes, [b] + rest);
    FeedMore(h, key, random, s, bytes, b);
    ReadOne(h, key, random, FeedHandshake(h, key, random, s, bytes), b, rest);
  }

  lemma {:induction false} FeedConcat(h: Hash, key: Bytes, random: Bytes, s: Session, a: Bytes, b: Bytes)
    requires Sized(h)
    ensures FeedHandshake(h, key, random, s, a + b)
            == FeedHandshake(h, key, random, FeedHandshake(h, key, random, s, a), b)
  {
    if b == [] {
      assert a + b == a;
    } else {
      var init := b[..|b| - 1];
      assert (a + b)[..|a + b| - 1] == a + init;
      FeedConcat(h, key, random, s, a, init);
    }
  }
}
