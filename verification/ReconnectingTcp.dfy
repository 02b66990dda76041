/** The connection that survives reconnects, as one thread sees it: between its own steps other
    threads may close it, forget the current connection or install a new one.  The interleavings
    themselves are the subject of ConnectionOwnership. */
module ReconnectingTcp {
  import opened ByteStrings
  import opened Aead
  import opened RecordLayer
  import opened Sockets
  import opened NonceUse
  import opened HostSecureConn

  // Milliseconds.
  const DIAL_TIMEOUT: nat := 4000
  const HANDSHAKE_TIMEOUT: nat := 2500
  const RECONNECT_GRACE: nat := 15000
  const RECONNECT_INTERVAL: nat := 250

  // The longest time from one dial to the next while redialling.
  const DIAL_GAP: nat := DIAL_TIMEOUT + HANDSHAKE_TIMEOUT + RECONNECT_INTERVAL

  // From `from` to `until` there was no longer time than that without a dial.
  ghost predicate NoPause(dials: seq<nat>, from: nat, until: nat) {
    if dials == [] then until <= from + DIAL_GAP
    else
      && dials[0] <= from + DIAL_GAP && until <= dials[|dials| - 1] + DIAL_GAP
      && forall k :: 0 < k < |dials| ==> dials[k] <= dials[k - 1] + DIAL_GAP
  }

  lemma DialAgain(dials: seq<nat>, from: nat, now: nat, until: nat)
    requires NoPause(dials, from, now) && until <= now + DIAL_GAP
    ensures NoPause(dials + [now], from, until)
  {
  }

  lemma NoPauseThen(a: seq<nat>, b: seq<nat>, from: nat, mid: nat, until: nat)
    requires NoPause(a, from, mid) && NoPause(b, mid, until)
    requires if b == [] then until == mid else b[0] == mid
    ensures NoPause(a + b, from, until)
  {
    if b == [] {
      assert a + b == a;
    }
  }

  // What dialling yields: an encrypted connection or, where the device has no key, a plain one.
  class BoardConn {
    const raw: Conn
    const secure: SecureConn?
    ghost const base: Bytes     // on the wire before the session
    ghost const stream: Bytes   // what arrives before reads fail, if it is not closed earlier
    ghost var accepted: Bytes   // counted in the results of Write
    ghost var received: Bytes   // handed out by Read
    ghost var broken: bool      // a write on it failed
    ghost var ended: bool       // a read on it failed
    ghost var cut: bool         // closed before a read failed

    ghost function Repr(): set<object> {
      {this, raw} + if secure == null then {} else {secure, secure.txAead, secure.rxAead}
    }

    // What the device sent on it, as far as it arrives and can be decoded.
    ghost function Carried(): Bytes
      reads Repr()
    {
      if secure == null then stream else Decode(secure.rxAead.log, secure.rxNoncePrefix, 0, stream).plain
    }

    // The part of it that is still to come.
    ghost function Left(): Bytes
      reads Repr()
    {
      if secure == null then raw.inbound
      else secure.rxPlain + Decode(secure.rxAead.log, secure.rxNoncePrefix, secure.rxSequence, raw.inbound).plain
    }

    // What was accepted is on the wire, and no nonce was used twice.
    ghost predicate Sends()
      reads Repr()
    {
      if secure == null then raw.wire == base + accepted
      else
        && secure.conn == raw && secure.Valid() && secure.base == base && secure.accepted == accepted
        && (!broken ==> secure.Status() == Clean) && secure.Status() != Reused
    }

    // What was handed out is what the device sent, from the start and without a gap; all of it,
    // once a read has failed.
    ghost predicate Receives()
      reads Repr()
    {
      var given := if ended then received else received + Left();
      && given <= Carried() && (!cut ==> given == Carried())
      && (secure != null ==> secure.delivered == received)
    }

    ghost predicate Valid()
      reads Repr()
    {
      Sends() && Receives()
    }

    lemma NotOwned(o: object)
      requires !(o is BoardConn || o is Conn || o is SecureConn || o is IdealAead)
      ensures o !in Repr()
    {
    }

    lemma OnlyRaw()
      ensures forall r: Conn :: r in Repr() ==> r == raw
    {
    }

    lemma Owned()
      ensures this in Repr() && raw in Repr()
      ensures secure != null ==> secure in Repr() && secure.txAead in Repr()
    {
    }

    constructor Plain(raw: Conn)
      ensures Valid() && this.raw == raw && secure == null && accepted == [] && received == [] && !broken && !ended
    {
      this.raw, secure, base, stream := raw, null, raw.wire, raw.inbound;
      accepted, received, broken, ended, cut := [], [], false, false, false;
      new;
      assert [] + raw.inbound == raw.inbound;
    }

    constructor Secured(raw: Conn, secure: SecureConn)
      requires secure.Valid() && secure.conn == raw && secure.Status() == Clean && secure.accepted == []
      requires secure.delivered == [] && secure.Rx() == HostRx(0, [])
      ensures Valid() && this.raw == raw && this.secure == secure
      ensures accepted == [] && received == [] && !broken && !ended
    {
      hide SecureConn.Valid, Decode;
      this.raw, this.secure, base, stream := raw, secure, secure.base, raw.inbound;
      accepted, received, broken, ended, cut := [], [], false, false, false;
      new;
      assert [] + Left() == Left() == Carried();
    }

    method Write(p: Bytes) returns (n: nat, ok: bool)
      requires Valid() && !broken
      modifies this`accepted, this`broken, raw`wire, raw`faults
      modifies if secure == null then {} else {secure, secure.txAead}
      ensures Valid() && n <= |p| && broken == !ok
      ensures accepted == old(accepted) + p[..n]
      ensures n < |p| ==> raw.faults > old(raw.faults) || (secure != null && secure.txSequence == UINT64_MAX)
      ensures raw.faults >= old(raw.faults) && (ok && n < |p| ==> secure == null && raw.faults > old(raw.faults))
    {
      hide SecureConn.Valid, StatusOf, Decode;
      if secure == null {
        n, ok := raw.Write(p);
        Regroup(base, accepted, p[..n]);
      } else {
        Halves();
        n, ok := secure.Write(p);
      }
      accepted := accepted + p[..n];
      broken := !ok;
    }

    lemma Halves()
      requires secure != null && secure.Valid()
      ensures secure.txAead != secure.rxAead
    {
    }

    // A read touches nothing that `Write` depends on.  It hands out the next of what is left, and
    // fails exactly when nothing is.
    method Read(cap: nat) returns (data: Bytes, ok: bool)
      requires Valid() && !ended
      modifies this`received, this`ended, raw`inbound
      modifies if secure == null then {} else {secure}
      ensures Valid() && received == old(received) + data && ended == !ok && |data| <= cap
      ensures ok ==> old(Left()) == data + Left()
      ensures !ok ==> data == [] && old(Left()) == []
      ensures secure != null ==>
                && secure.outcomes == old(secure.outcomes)
                && HostRead(secure.rxAead.log, secure.rxNoncePrefix, old(secure.Rx()), old(raw.inbound), cap)
                   == ReadResult(secure.Rx(), data, ok, raw.inbound)
      ensures ok && cap > 0 ==> data != []
      ensures secure == null && cap > 0 ==> ok == (old(raw.inbound) != [])
    {
      hide SecureConn.Valid, StatusOf, Decode, HostRead;
      if secure != null {
        ghost var log, st, stream := secure.rxAead.log, secure.Rx(), raw.inbound;
        Halves();
        data, ok := secure.Read(cap);
        HostReadIsDecode(log, secure.rxNoncePrefix, st, stream, cap);
        HostReadFits(log, secure.rxNoncePrefix, st, stream, cap);
        if cap > 0 {
          HostReadGives(log, secure.rxNoncePrefix, st, stream, cap);
        }
      } else if cap == 0 {
        data, ok := [], true;
        assert [] + raw.inbound == raw.inbound;
      } else {
        data, ok := raw.Read(cap);
      }
      Regroup(received, data, Left());
      received := received + data;
      ended := !ok;
    }

    method Close()
      requires Valid()
      modifies this`cut, raw`inbound, raw`closed
      ensures Valid() && raw.closed
    {
      hide SecureConn.Valid, StatusOf, Decode;
      ghost var inbound := raw.inbound;
      raw.Close();
      if secure != null {
        LessArrives(secure.rxAead.log, secure.rxNoncePrefix, secure.rxSequence, secure.rxPlain, inbound);
        PrefixOf(received, Left(),
                 secure.rxPlain + Decode(secure.rxAead.log, secure.rxNoncePrefix, secure.rxSequence, inbound).plain);
      } else {
        PrefixOf(received, [], inbound);
      }
      cut := cut || !ended;
    }
  }

  // Nothing decodes from nothing.
  lemma LessArrives(log: Log, prefix: Bytes, next: nat, buffered: Bytes, stream: Bytes)
    ensures buffered + Decode(log, prefix, next, []).plain <= buffered + Decode(log, prefix, next, stream).plain
  {
    assert buffered + [] == buffered;
  }

  lemma PrefixOf(a: Bytes, b: Bytes, c: Bytes)
    requires b <= c
    ensures a + b <= a + c
  {
  }

  lemma HostReadFits(log: Log, prefix: Bytes, st: HostRx, stream: Bytes, cap: nat)
    ensures |HostRead(log, prefix, st, stream, cap).data| <= cap
  {
  }

  // The clock and the board.  `supply` is how many more connections the board will grant; any
  // finite run has some such number.
  class Board {
    var now: nat
    var supply: nat
    ghost var dials: seq<nat>    // when each dial began

    // One dial and one handshake, each within its own time limit.
    method Dial(timeout: nat) returns (conn: BoardConn?)
      modifies this
      ensures old(now) <= now <= old(now) + timeout + HANDSHAKE_TIMEOUT && dials == old(dials) + [old(now)]
      ensures conn == null ==> supply == old(supply)
      ensures conn != null ==> supply + 1 == old(supply)
      ensures conn != null ==>
                && conn.Valid() && fresh(conn.Repr()) && conn.accepted == [] && conn.received == []
                && !conn.broken && !conn.ended
    {
      hide SecureConn.Valid, BoardConn.Valid, StatusOf;
      var took: int := *;
      dials := dials + [now];
      now := now + if 0 <= took <= timeout + HANDSHAKE_TIMEOUT then took else timeout + HANDSHAKE_TIMEOUT;
      var granted, keyed: bool := *, *;
      if !granted || supply == 0 {
        return null;
      }
      supply := supply - 1;
      var inbound: Bytes := *;
      var raw := new Conn(inbound);
      if keyed {
        var tx := new IdealAead();
        var rx := new IdealAead();
        var txPrefix: Bytes, rxPrefix: Bytes := *, *;
        var secure := new SecureConn(raw, tx, rx, txPrefix, rxPrefix);
        conn := new BoardConn.Secured(raw, secure);
      } else {
        conn := new BoardConn.Plain(raw);
      }
    }

    method Sleep(duration: nat)
      modifies this`now
      ensures now == old(now) + duration
    {
      now := now + duration;
    }
  }

  ghost predicate Apart(a: BoardConn, b: BoardConn) {
    a.Repr() !! b.Repr()
  }

  ghost function Raws(sessions: seq<BoardConn>): set<Conn> {
    set c | c in sessions :: c.raw
  }

  ghost function Ends(sessions: seq<BoardConn>): set<BoardConn> {
    set c | c in sessions
  }

  datatype Side = Out | In

  ghost function Traffic(c: BoardConn, side: Side): Bytes
    reads c
  {
    if side == Out then c.accepted else c.received
  }

  // What each session carried, oldest first.
  ghost function Flows(sessions: seq<BoardConn>, side: Side): (flows: seq<Bytes>)
    reads sessions
    ensures |flows| == |sessions|
  {
    if sessions == [] then []
    else Flows(sessions[..|sessions| - 1], side) + [Traffic(sessions[|sessions| - 1], side)]
  }

  // What the sessions carried, in session order.
  ghost function Total(sessions: seq<BoardConn>, side: Side): Bytes
    reads sessions
  {
    Concat(Flows(sessions, side))
  }

  lemma {:induction false} FlowsGive(sessions: seq<BoardConn>, side: Side)
    ensures forall i :: 0 <= i < |sessions| ==> Flows(sessions, side)[i] == Traffic(sessions[i], side)
  {
    if sessions != [] {
      FlowsGive(sessions[..|sessions| - 1], side);
    }
  }

  lemma FlowsAre(sessions: seq<BoardConn>, side: Side, flows: seq<Bytes>)
    requires |flows| == |sessions|
    requires forall i :: 0 <= i < |sessions| ==> Traffic(sessions[i], side) == flows[i]
    ensures Flows(sessions, side) == flows
  {
    FlowsGive(sessions, side);
  }

  // Sessions that have carried nothing yet add nothing.
  lemma {:induction false} SilentTail(flows: seq<Bytes>, k: nat)
    requires k <= |flows| && forall i :: k <= i < |flows| ==> flows[i] == []
    ensures Concat(flows) == Concat(flows[..k])
  {
    if k == |flows| {
      assert flows[..k] == flows;
    } else {
      var init := flows[..|flows| - 1];
      SilentTail(init, k);
      assert init[..k] == flows[..k];
      assert Concat(init) + [] == Concat(init);
    }
  }

  // What the last session that has carried anything carries comes last.
  lemma GrowsAt(flows: seq<Bytes>, k: nat, more: Bytes)
    requires k < |flows| && forall i :: k < i < |flows| ==> flows[i] == []
    ensures Concat(flows[k := flows[k] + more]) == Concat(flows) + more
  {
    var after := flows[k := flows[k] + more];
    SilentTail(flows, k + 1);
    SilentTail(after, k + 1);
    assert flows[..k + 1][..k] == flows[..k] == after[..k + 1][..k];
    Regroup(Concat(flows[..k]), flows[k], more);
  }

  datatype WriteError = NoError | Unavailable | ShortWrite

  lemma PrefixGrows(before: Bytes, p: Bytes, total: nat, n: nat)
    requires total + n <= |p|
    ensures before + p[..total] + p[total..][..n] == before + p[..total + n]
  {
    assert p[..total] + p[total..][..n] == p[..total + n];
  }

  // A reconnect loop that began at `start`, each of its dials having failed: the first one at once, then
  // neither too fast nor with a pause, and not past the deadline.
  ghost predicate Paced(tried: seq<nat>, start: nat, now: nat, deadline: int) {
    && (if tried == [] then now == start else tried[0] == start)
    && NoPause(tried, start, now) && now - start <= |tried| * DIAL_GAP
    && (tried != [] ==> (|tried| - 1) * RECONNECT_INTERVAL < deadline - start)
    && (|tried| * RECONNECT_INTERVAL <= now - start || now >= deadline)
    && start <= now && (now == start || now <= deadline + HANDSHAKE_TIMEOUT + RECONNECT_INTERVAL)
  }

  lemma NotStarted(start: nat, deadline: int)
    ensures Paced([], start, start, deadline)
  {
  }

  lemma PacedGives(tried: seq<nat>, start: nat, now: nat, deadline: int)
    requires Paced(tried, start, now, deadline)
    ensures if tried == [] then now == start else tried[0] == start
    ensures NoPause(tried, start, now) && now - start <= |tried| * DIAL_GAP
    ensures tried != [] ==> (|tried| - 1) * RECONNECT_INTERVAL < deadline - start
    ensures |tried| * RECONNECT_INTERVAL <= now - start || now >= deadline
    ensures start <= now && (now == start || now <= deadline + HANDSHAKE_TIMEOUT + RECONNECT_INTERVAL)
  {
  }

  // One more dial, which was granted.
  lemma PacedLast(tried: seq<nat>, start: nat, now: nat, deadline: int, later: nat)
    requires Paced(tried, start, now, deadline) && now < deadline && now <= later
    requires later <= now + Min(DIAL_TIMEOUT, deadline - now) + HANDSHAKE_TIMEOUT
    ensures NoPause(tried + [now], start, later) && later - start <= (|tried| + 1) * DIAL_GAP
    ensures (tried + [now])[0] == start && |tried| * RECONNECT_INTERVAL < deadline - start
    ensures |tried| * RECONNECT_INTERVAL <= later - start && later <= deadline + HANDSHAKE_TIMEOUT
  {
    DialAgain(tried, start, now, later);
  }

  // One more that failed, and the sleep after it.
  lemma PacedRound(tried: seq<nat>, start: nat, now: nat, deadline: int, later: nat)
    requires Paced(tried, start, now, deadline) && now < deadline
    requires now + Min(RECONNECT_INTERVAL, deadline - now) <= later
    requires later <= now + Min(DIAL_TIMEOUT, deadline - now) + HANDSHAKE_TIMEOUT + Min(RECONNECT_INTERVAL, deadline - now)
    ensures Paced(tried + [now], start, later, deadline)
  {
    DialAgain(tried, start, now, later);
    assert |tried + [now]| == |tried| + 1;
  }

  class ReconnectingTCP {
    const board: Board
    const reconnectGrace: nat
    var conn: BoardConn?
    var closed: bool
    ghost var sessions: seq<BoardConn>   // every connection that was ever `conn`, oldest first
    ghost var failing: BoardConn?        // between a failed call on it and forgetting it
    ghost var footprint: set<object>     // what the sessions are made of

    // Every session, the current one and those superseded, has on its wire what it accepted and has
    // handed out what arrived on it; only the current one is open.
    ghost predicate Valid()
      reads this, footprint
    {
      && (closed ==> conn == null)
      && (conn != null ==> sessions != [] && conn == sessions[|sessions| - 1])
      && this !in footprint && board !in footprint && Covers(footprint, sessions)
      && Separate(sessions) && AllValid(sessions, footprint) && AllKept(sessions, footprint, conn, failing)
    }

    static ghost predicate Covers(footprint: set<object>, sessions: seq<BoardConn>) {
      forall i :: 0 <= i < |sessions| ==> sessions[i].Repr() <= footprint
    }

    static ghost predicate AllValid(sessions: seq<BoardConn>, footprint: set<object>)
      requires Covers(footprint, sessions)
      reads footprint
    {
      forall i :: 0 <= i < |sessions| ==> sessions[i].Valid()
    }

    // Closed once superseded, and superseded once it has failed.
    static ghost predicate Kept(c: BoardConn, current: BoardConn?, failing: BoardConn?)
      reads c.Repr()
    {
      (c != current ==> c.raw.closed) && (c == current && (c.broken || c.ended) ==> c == failing)
    }

    static ghost predicate AllKept(sessions: seq<BoardConn>, footprint: set<object>, current: BoardConn?,
                                   failing: BoardConn?)
      requires Covers(footprint, sessions)
      reads footprint
    {
      forall i :: 0 <= i < |sessions| ==> Kept(sessions[i], current, failing)
    }

    static ghost predicate Separate(sessions: seq<BoardConn>) {
      forall i, j :: 0 <= i < j < |sessions| ==>
        Apart(sessions[i], sessions[j])
    }

    // The connections granted and to be granted.
    ghost function Granted(): nat
      reads this, board
    {
      board.supply + |sessions|
    }

    // How many connections can still be used up.
    ghost function Budget(): nat
      reads this, board
    {
      board.supply + if conn == null then 0 else 1
    }

    constructor (board: Board, initial: BoardConn, grace: nat)
      requires initial.Valid() && !initial.broken && !initial.ended
      ensures Valid() && this.board == board && reconnectGrace == grace && footprint == initial.Repr()
      ensures conn == initial && !closed && sessions == [initial] && failing == null
    {
      this.board, reconnectGrace := board, grace;
      hide BoardConn.Valid, BoardConn.Repr;
      conn, closed, sessions, failing, footprint := initial, false, [initial], null, initial.Repr();
      new;
      initial.NotOwned(this);
      initial.NotOwned(board);
    }

    method Install(c: BoardConn)
      requires Valid() && !closed && conn == null && c.Valid() && !c.broken && !c.ended
      requires c.Repr() !! footprint + {this, board}
      modifies this`conn, this`sessions, this`footprint
      ensures Valid() && conn == c && sessions == old(sessions) + [c] && footprint == old(footprint) + c.Repr()
    {
      hide BoardConn.Valid;
      ghost var before := sessions;
      conn, sessions, footprint := c, sessions + [c], footprint + c.Repr();
      forall i, j | 0 <= i < j < |sessions| ensures Apart(sessions[i], sessions[j]) {
        assert sessions[i] == before[i] && sessions[i].Repr() <= old(footprint);
      }
      forall i | 0 <= i < |sessions| ensures sessions[i].Valid() && Kept(sessions[i], conn, failing) {
        assert i < |before| ==> sessions[i] == before[i] && Kept(before[i], null, failing);
      }
    }

    // A session that has carried nothing yet.
    static twostate predicate Unused(new c: BoardConn)
      reads c
    {
      fresh(c.Repr()) && c.accepted == c.received == [] && !c.broken && !c.ended
    }

    lemma Covered()
      requires Valid()
      ensures this !in footprint && board !in footprint
      ensures Raws(sessions) <= footprint && Ends(sessions) <= footprint
      ensures forall c :: c in sessions ==> c.Repr() <= footprint
    {
      forall c | c in sessions ensures c.Repr() <= footprint && c in footprint && c.raw in footprint {
        assert c in c.Repr() && c.raw in c.Repr();
      }
    }

    lemma LastIsCurrent()
      requires Valid() && conn != null
      ensures sessions != [] && conn == sessions[|sessions| - 1] && !closed
      ensures failing == null ==> !conn.broken && !conn.ended
    {
      var i := |sessions| - 1;
      assert Kept(sessions[i], conn, failing);
    }

    // What is new in the footprint is new altogether.
    twostate predicate Grown()
      reads this
    {
      fresh(footprint - old(footprint)) && old(footprint) <= footprint
    }

    // Other threads, while none of them holds this thread's reconnectMu.
    method Elsewhere()
      requires Valid()
      modifies this`conn, this`closed, this`sessions, this`footprint, board
      modifies Raws(sessions)`inbound, Raws(sessions)`closed, Ends(sessions)`cut
      ensures Valid() && old(sessions) <= sessions && (old(closed) ==> closed)
      ensures forall i :: |old(sessions)| <= i < |sessions| ==> Unused(sessions[i])
      ensures Grown()
      ensures Budget() <= old(Budget()) && (old(conn) != null && conn != old(conn) ==> Budget() < old(Budget()))
      ensures board.now >= old(board.now) && old(board.dials) <= board.dials && (!closed ==> Granted() == old(Granted()))
    {
      hide BoardConn.Valid, Separate, Kept, AllKept, AllValid, Covers;
      var steps: int := *;
      while steps > 0
        invariant Valid() && old(sessions) <= sessions && (old(closed) ==> closed)
        invariant forall i :: |old(sessions)| <= i < |sessions| ==> Unused(sessions[i])
        invariant Grown()
        invariant Budget() <= old(Budget()) && (old(conn) != null && conn != old(conn) ==> Budget() < old(Budget()))
        invariant board.now >= old(board.now) && old(board.dials) <= board.dials
        invariant !closed ==> Granted() == old(Granted())
      {
        OneElsewhere();
        steps := steps - 1;
      }
    }

    method OneElsewhere()
      requires Valid()
      modifies this`conn, this`closed, this`sessions, this`footprint, board
      modifies Raws(sessions)`inbound, Raws(sessions)`closed, Ends(sessions)`cut
      ensures Grown()
      ensures Valid() && (old(closed) ==> closed) && board.now >= old(board.now)
      ensures || (sessions == old(sessions) && conn in {null, old(conn)})
              || (old(conn) == null && conn != null && sessions == old(sessions) + [conn] && Unused(conn))
      ensures Budget() <= old(Budget()) && (old(conn) != null && conn != old(conn) ==> Budget() < old(Budget()))
      ensures old(board.dials) <= board.dials && (!closed ==> Granted() == old(Granted()))
    {
      hide BoardConn.Valid, Separate, Kept;
      var waits: int := *;
      board.Sleep(if waits < 0 then 0 else waits);
      OneRound();
    }

    // Another thread closes, forgets the connection, or, with none in place, dials and then waits.
    method OneRound()
      requires Valid()
      modifies this`conn, this`closed, this`sessions, this`footprint, board
      modifies Raws(sessions)`inbound, Raws(sessions)`closed, Ends(sessions)`cut
      ensures Grown()
      ensures Valid() && (old(closed) ==> closed)
      ensures || (sessions == old(sessions) && conn in {null, old(conn)})
              || (old(conn) == null && conn != null && sessions == old(sessions) + [conn] && Unused(conn))
      ensures Budget() <= old(Budget()) && (old(conn) != null && conn != old(conn) ==> Budget() < old(Budget()))
      ensures !closed ==> Granted() == old(Granted())
      ensures || (board.dials == old(board.dials) && board.now == old(board.now))
              || (board.dials == old(board.dials) + [old(board.now)]
                  && old(board.now) <= board.now <= old(board.now) + DIAL_GAP)
    {
      hide BoardConn.Valid, Separate, Kept;
      var closes, forgets: bool := *, *;
      if closes {
        LetGo();
        closed := true;
      } else if forgets {
        LetGo();
      } else if conn == null && !closed {
        var c := board.Dial(DIAL_TIMEOUT);
        if c != null {
          Install(c);
        } else {
          var waits: int := *;
          board.Sleep(if 0 <= waits <= RECONNECT_INTERVAL then waits else RECONNECT_INTERVAL);
        }
      }
    }

    // Waiting for reconnectMu: its holder is redialling, so no long time passes without a dial.
    method AwaitLock()
      requires Valid()
      modifies this`conn, this`closed, this`sessions, this`footprint, board
      modifies Raws(sessions)`inbound, Raws(sessions)`closed, Ends(sessions)`cut
      ensures Valid() && old(sessions) <= sessions && (old(closed) ==> closed)
      ensures forall i :: |old(sessions)| <= i < |sessions| ==> Unused(sessions[i])
      ensures Grown()
      ensures Budget() <= old(Budget()) && (old(conn) != null && conn != old(conn) ==> Budget() < old(Budget()))
      ensures board.now >= old(board.now) && DialledSince() && (!closed ==> Granted() == old(Granted()))
      ensures old(conn) == null && conn != null ==> |sessions| > |old(sessions)|
    {
      hide BoardConn.Valid, Valid, NoPause, Raws, Ends;
      Covered();
      var rest: int := *;
      ghost var n, began := |board.dials|, board.now;
      board.Sleep(if 0 <= rest <= DIAL_GAP then rest else 0);
      NotYetDialled(began, board.now);
      assert board.dials[n..] == [];
      Rounds(n, began);
    }

    method Rounds(ghost n: nat, ghost began: nat)
      requires Valid() && n <= |board.dials| && NoPause(board.dials[n..], began, board.now)
      modifies this`conn, this`closed, this`sessions, this`footprint, board
      modifies Raws(sessions)`inbound, Raws(sessions)`closed, Ends(sessions)`cut
      ensures Valid() && old(sessions) <= sessions && (old(closed) ==> closed)
      ensures forall i :: |old(sessions)| <= i < |sessions| ==> Unused(sessions[i])
      ensures Grown()
      ensures Budget() <= old(Budget()) && (old(conn) != null && conn != old(conn) ==> Budget() < old(Budget()))
      ensures board.now >= old(board.now) && old(board.dials) <= board.dials && (!closed ==> Granted() == old(Granted()))
      ensures NoPause(board.dials[n..], began, board.now)
      ensures old(conn) == null && conn != null ==> |sessions| > |old(sessions)|
    {
      hide BoardConn.Valid, Separate, NoPause, Kept, AllKept, AllValid, Covers;
      var steps: int := *;
      while steps > 0
        invariant Valid() && old(sessions) <= sessions && (old(closed) ==> closed)
        invariant forall i :: |old(sessions)| <= i < |sessions| ==> Unused(sessions[i])
        invariant Grown()
        invariant Budget() <= old(Budget()) && (old(conn) != null && conn != old(conn) ==> Budget() < old(Budget()))
        invariant board.now >= old(board.now) && old(board.dials) <= board.dials
        invariant NoPause(board.dials[n..], began, board.now)
        invariant !closed ==> Granted() == old(Granted())
        invariant old(conn) == null && conn != null ==> |sessions| > |old(sessions)|
      {
        AnotherRound(n, began);
        steps := steps - 1;
      }
    }

    method AnotherRound(ghost n: nat, ghost began: nat)
      requires Valid() && n <= |board.dials| && NoPause(board.dials[n..], began, board.now)
      modifies this`conn, this`closed, this`sessions, this`footprint, board
      modifies Raws(sessions)`inbound, Raws(sessions)`closed, Ends(sessions)`cut
      ensures Grown()
      ensures Valid() && (old(closed) ==> closed)
      ensures || (sessions == old(sessions) && conn in {null, old(conn)})
              || (old(conn) == null && conn != null && sessions == old(sessions) + [conn] && Unused(conn))
      ensures Budget() <= old(Budget()) && (old(conn) != null && conn != old(conn) ==> Budget() < old(Budget()))
      ensures !closed ==> Granted() == old(Granted())
      ensures old(board.now) <= board.now && old(board.dials) <= board.dials && NoPause(board.dials[n..], began, board.now)
    {
      hide BoardConn.Valid, Valid, NoPause;
      ghost var now, dials := board.now, board.dials;
      OneRound();
      if board.dials != dials {
        DialAgain(dials[n..], began, now, board.now);
        assert board.dials[n..] == dials[n..] + [now];
      }
    }

    lemma NotYetDialled(from: nat, until: nat)
      requires until <= from + DIAL_GAP
      ensures NoPause([], from, until)
    {
    }

    // Whatever happened since, no long time went by without a dial.
    twostate predicate DialledSince()
      reads board
    {
      old(board.dials) <= board.dials && NoPause(board.dials[|old(board.dials)|..], old(board.now), board.now)
    }

    // The current connection, if any, is taken out and closed.
    method LetGo()
      requires Valid()
      modifies this`conn, Raws(sessions)`inbound, Raws(sessions)`closed, Ends(sessions)`cut
      ensures Valid() && conn == null
    {
      hide BoardConn.Valid, Separate;
      var c := conn;
      Superseded();
      conn := null;
      if c != null {
        Shut(c, |sessions| - 1);
      }
    }

    lemma Superseded()
      requires Valid()
      ensures forall i :: 0 <= i < |sessions| && sessions[i] != conn ==> Kept(sessions[i], null, null)
      ensures forall i, j :: 0 <= i < j < |sessions| ==> sessions[i] != sessions[j]
    {
      hide BoardConn.Valid;
      forall i, j | 0 <= i < j < |sessions| ensures sessions[i] != sessions[j] {
        assert Apart(sessions[i], sessions[j]) && sessions[i] in sessions[i].Repr();
      }
    }

    method Shut(c: BoardConn, ghost k: nat)
      requires k < |sessions| && sessions[k] == c && c != conn && (closed ==> conn == null)
      requires conn != null ==> conn == sessions[|sessions| - 1]
      requires this !in footprint && board !in footprint && Covers(footprint, sessions)
      requires Separate(sessions) && AllValid(sessions, footprint)
      requires forall i :: 0 <= i < |sessions| && i != k ==> Kept(sessions[i], conn, failing)
      modifies c`cut, c.raw`inbound, c.raw`closed
      ensures Valid() && c.raw.closed
    {
      hide BoardConn.Valid;
      c.Close();
    }

    // Other threads, while this one holds reconnectMu: they can only close.
    method CloseElsewhere()
      requires Valid() && conn == null
      modifies this`closed
      ensures Valid() && (old(closed) ==> closed)
    {
      var closes: bool := *;
      hide BoardConn.Valid, Separate;
      closed := closed || closes;
    }

    method GetCurrent() returns (c: BoardConn?)
      requires Valid()
      ensures c == conn
    {
      c := if closed then null else conn;
    }

    // Forgets `c` if it is still current, and closes it in any case.
    method Invalidate(c: BoardConn, ghost k: nat)
      requires Valid() && failing in {null, c} && k < |sessions| && sessions[k] == c
      modifies this`conn, this`failing, c`cut, c.raw`inbound, c.raw`closed
      ensures Valid() && failing == null && c.raw.closed
      ensures conn == if old(conn) == c then null else old(conn)
    {
      hide BoardConn.Valid, Separate;
      Superseded();
      if conn == c {
        conn := null;
      }
      failing := null;
      Shut(c, k);
    }

    // A connection just dialled becomes the current one, unless the object has been closed meanwhile.
    method TakeIn(dialled: BoardConn) returns (c: BoardConn?)
      requires Valid() && conn == null && dialled.Valid() && !dialled.broken && !dialled.ended
      requires dialled.Repr() !! footprint + {this, board}
      modifies this`conn, this`closed, this`sessions, this`footprint, dialled`cut, dialled.raw`inbound, dialled.raw`closed
      ensures Valid() && (old(closed) ==> closed)
      ensures c == if closed then null else dialled
      ensures if closed then conn == null && dialled.raw.closed && sessions == old(sessions) && footprint == old(footprint)
              else conn == dialled && sessions == old(sessions) + [dialled] && footprint == old(footprint) + dialled.Repr()
                   && unchanged(dialled) && unchanged(dialled.raw)
    {
      hide BoardConn.Valid, Separate, Kept;
      dialled.Owned();
      dialled.NotOwned(this);
      CloseElsewhere();
      if closed {
        dialled.Close();
        c := null;
      } else {
        Install(dialled);
        c := dialled;
      }
    }

    // The holder of reconnectMu.  `attempts` counts dials, `failed` those that failed; `tried` is when
    // they were made: at once, then without a pause until a connection is granted, Close or the deadline.
    method Reconnect(deadline: nat) returns (c: BoardConn?, ghost attempts: nat, ghost failed: nat, ghost tried: seq<nat>)
      requires Valid() && failing == null
      modifies this`conn, this`closed, this`sessions, this`footprint, board
      ensures Grown()
      ensures Valid() && old(sessions) <= sessions && (old(closed) ==> closed)
      ensures c != null ==> c == conn
      ensures c == null ==> conn == null && (closed || board.now >= deadline)
      ensures old(conn) != null ==> conn == old(conn) && sessions == old(sessions) && attempts == 0
      ensures old(conn) == null && c != null ==>
                sessions == old(sessions) + [c] && Unused(c)
      ensures c == null ==> sessions == old(sessions)
      ensures Budget() <= old(Budget())
      ensures failed <= attempts <= failed + 1
      ensures attempts > 0 ==> (attempts - 1) * RECONNECT_INTERVAL < deadline - old(board.now)
      ensures failed * RECONNECT_INTERVAL <= board.now - old(board.now) || board.now >= deadline
      ensures board.dials == old(board.dials) + tried && |tried| == attempts && (tried != [] ==> tried[0] == old(board.now))
      ensures NoPause(tried, old(board.now), board.now) && board.now - old(board.now) <= attempts * DIAL_GAP
      ensures c == null && !closed && old(board.now) < deadline ==> attempts > 0
      ensures !closed ==> Granted() == old(Granted())
      ensures old(board.now) <= board.now
      ensures board.now <= old(board.now) || board.now <= deadline + HANDSHAKE_TIMEOUT + RECONNECT_INTERVAL
    {
      hide BoardConn.Valid, Valid, NoPause, Paced;
      Covered();
      attempts, failed, tried := 0, 0, [];
      ghost var start := board.now;
      NotStarted(start, deadline);
      PacedGives([], start, start, deadline);
      c := GetCurrent();
      if c != null {
        return;
      }
      while true
        invariant Valid() && conn == null && sessions == old(sessions) && footprint == old(footprint)
        invariant old(closed) ==> closed
        invariant c == null && board.supply == old(board.supply)
        invariant attempts == failed == |tried| && board.dials == old(board.dials) + tried
        invariant Paced(tried, start, board.now, deadline) && board.now >= start
        decreases deadline - board.now
      {
        PacedGives(tried, start, board.now, deadline);
        CloseElsewhere();
        if closed {
          return;
        }
        var remaining := deadline - board.now;
        if remaining <= 0 {
          return;
        }
        ghost var before, began := tried, board.now;
        attempts, tried := attempts + 1, tried + [began];
        var dialled := board.Dial(Min(DIAL_TIMEOUT, remaining));
        if dialled != null {
          PacedLast(before, start, began, deadline, board.now);
          c := TakeIn(dialled);
          return;
        }
        failed := failed + 1;
        board.Sleep(Min(RECONNECT_INTERVAL, remaining));
        PacedRound(before, start, began, deadline, board.now);
      }
    }

    // One Read or Write fixes its deadline when it first finds no connection.  At most
    // ceil(grace / interval) dials fail before that deadline, over all its reconnects.
    predicate Accounted(failed: nat, deadline: Option<nat>, now: nat) {
      match deadline
      case None => failed == 0
      case Some(d) =>
        && reconnectGrace <= d <= now + reconnectGrace
        && (failed > 0 ==> (failed - 1) * RECONNECT_INTERVAL < reconnectGrace)
        && (failed * RECONNECT_INTERVAL <= now - (d - reconnectGrace) || now >= d)
    }

    method Connection(deadline: Option<nat>, ghost failed: nat)
      returns (c: BoardConn?, d: Option<nat>, ghost failed': nat)
      requires Valid() && failing == null && Accounted(failed, deadline, board.now)
      modifies this`conn, this`closed, this`sessions, this`footprint, board
      modifies Raws(sessions)`inbound, Raws(sessions)`closed, Ends(sessions)`cut
      ensures Valid() && old(sessions) <= sessions && (old(closed) ==> closed)
      ensures forall i :: |old(sessions)| <= i < |sessions| ==> Unused(sessions[i])
      ensures c != null ==> c == conn
      ensures Total(sessions, Out) == old(Total(sessions, Out)) && Total(sessions, In) == old(Total(sessions, In))
      ensures Grown()
      ensures c == null ==> closed || (d.Some? && board.now >= d.value)
      ensures c == null ==> DialledSince()
      ensures c != null && old(conn) == null ==> |sessions| > |old(sessions)|
      ensures !closed ==> Granted() == old(Granted())
      ensures deadline.Some? ==> d == deadline
      ensures deadline.None? && d.Some? ==> d.value >= old(board.now) + reconnectGrace
      ensures Budget() <= old(Budget()) && board.now >= old(board.now)
      ensures Accounted(failed', d, board.now)
    {
      hide BoardConn.Valid, Valid, Flows, Concat, Raws, Ends, BoardConn.Repr, FaultsCounted, Total;
      Covered();
      d, failed' := deadline, failed;
      c := GetCurrent();
      if c != null {
        return;
      }
      if d.None? {
        d := Some(board.now + reconnectGrace);
      }
      ghost var began, dials := board.now, board.dials;
      AwaitedLock();
      ghost var locked, waited := board.now, board.dials;
      ghost var attempts, more, tried;
      c, attempts, more, tried := Reconnected(d.value);
      assert board.dials[|dials|..] == waited[|dials|..] + tried;
      NoPauseThen(waited[|dials|..], tried, began, locked, board.now);
      failed' := failed + more;
    }

    // The same reconnect, in terms of what the sessions carried.
    method Reconnected(deadline: nat) returns (c: BoardConn?, ghost attempts: nat, ghost failed: nat, ghost tried: seq<nat>)
      requires Valid() && failing == null
      modifies this`conn, this`closed, this`sessions, this`footprint, board
      ensures Grown()
      ensures Valid() && old(sessions) <= sessions && (old(closed) ==> closed)
      ensures forall i :: |old(sessions)| <= i < |sessions| ==> Unused(sessions[i])
      ensures Total(sessions, Out) == old(Total(sessions, Out)) && Total(sessions, In) == old(Total(sessions, In))
      ensures c != null ==> c == conn
      ensures c == null ==> conn == null && (closed || board.now >= deadline)
      ensures Budget() <= old(Budget())
      ensures attempts > 0 ==> (attempts - 1) * RECONNECT_INTERVAL < deadline - old(board.now)
      ensures failed <= attempts <= failed + 1
      ensures failed * RECONNECT_INTERVAL <= board.now - old(board.now) || board.now >= deadline
      ensures old(board.now) <= board.now
      ensures board.dials == old(board.dials) + tried && (tried != [] ==> tried[0] == old(board.now))
      ensures NoPause(tried, old(board.now), board.now) && (tried == [] ==> board.now == old(board.now))
      ensures !closed ==> Granted() == old(Granted())
      ensures c != null && old(conn) == null ==> |sessions| > |old(sessions)|
    {
      hide BoardConn.Valid, Valid, Flows, Concat, Raws, Ends, BoardConn.Repr;
      ghost var sent, got := Flows(sessions, Out), Flows(sessions, In);
      FlowsGive(sessions, Out);
      FlowsGive(sessions, In);
      c, attempts, failed, tried := Reconnect(deadline);
      TotalKept(sent, Out);
      TotalKept(got, In);
    }

    // Writes that fell short are counted for good.
    twostate predicate FaultsCounted()
      reads this, Raws(sessions)
    {
      forall b :: b in old(sessions) && b in sessions ==> b.raw.faults >= old(b.raw.faults)
    }

    // `c` is a plain session that has taken less than it was offered, without failing.
    twostate predicate TookNothing(new c: BoardConn)
      reads this, c, c.raw
    {
      && c in sessions && c.secure == null
      && c.raw.faults > 0 && (c in old(sessions) ==> c.raw.faults > old(c.raw.faults))
    }

    ghost predicate SilentAfter(k: nat, side: Side)
      reads this, sessions
    {
      forall i :: k < i < |sessions| ==> Traffic(sessions[i], side) == []
    }

    method WriteHere(c: BoardConn, ghost k: nat, p: Bytes) returns (n: nat, ok: bool)
      requires Valid() && k < |sessions| && sessions[k] == c && !c.broken && !c.ended && failing == null
      modifies this`failing, c.Repr()
      ensures Valid() && failing == (if ok then null else c) && n <= |p| && c.broken == !ok
      ensures c.accepted == old(c.accepted) + p[..n] && c.received == old(c.received)
      ensures n < |p| ==> c.raw.faults > old(c.raw.faults) || (c.secure != null && c.secure.txSequence == UINT64_MAX)
      ensures c.raw.faults >= old(c.raw.faults) && (ok && n < |p| ==> c.secure == null && c.raw.faults > old(c.raw.faults))
    {
      hide BoardConn.Valid, BoardConn.Repr;
      c.Owned();
      n, ok := c.Write(p);
      failing := if ok then null else c;
    }

    method WriteCounted(c: BoardConn, ghost k: nat, p: Bytes) returns (n: nat, ok: bool)
      requires Valid() && k < |sessions| && sessions[k] == c && !c.broken && !c.ended && failing == null
      modifies this`failing, c.Repr()
      ensures Valid() && failing == (if ok then null else c) && n <= |p| && c.broken == !ok
      ensures c.accepted == old(c.accepted) + p[..n] && c.received == old(c.received)
      ensures FaultsCounted() && c.raw.faults >= old(c.raw.faults)
      ensures ok && n < |p| ==> c.secure == null && c.raw.faults > old(c.raw.faults)
    {
      hide BoardConn.Valid, BoardConn.Repr, Valid;
      c.OnlyRaw();
      n, ok := WriteHere(c, k, p);
    }

    method WriteOn(c: BoardConn, ghost k: nat, p: Bytes) returns (n: nat, ok: bool)
      requires Valid() && k < |sessions| && sessions[k] == c && !c.broken && !c.ended && failing == null
      requires SilentAfter(k, Out)
      modifies this`failing, c.Repr()
      ensures Valid() && failing == (if ok then null else c) && n <= |p| && c.broken == !ok
      ensures Total(sessions, Out) == old(Total(sessions, Out)) + p[..n]
      ensures Total(sessions, In) == old(Total(sessions, In))
      ensures FaultsCounted() && c.raw.faults >= old(c.raw.faults)
      ensures ok && n < |p| ==> c.secure == null && c.raw.faults > old(c.raw.faults)
    {
      hide BoardConn.Valid, Kept, FaultsCounted;
      Distinguished(k);
      hide Valid, Separate, Concat;
      ghost var sent, got := Flows(sessions, Out), Flows(sessions, In);
      FlowsGive(sessions, Out);
      FlowsGive(sessions, In);
      n, ok := WriteCounted(c, k, p);
      FlowsAre(sessions, Out, sent[k := sent[k] + p[..n]]);
      FlowsAre(sessions, In, got);
      GrowsAt(sent, k, p[..n]);
    }

    method ReadHere(c: BoardConn, ghost k: nat, cap: nat) returns (data: Bytes, ok: bool)
      requires Valid() && k < |sessions| && sessions[k] == c && !c.broken && !c.ended && failing == null
      modifies this`failing, c.Repr()
      ensures Valid() && failing == (if ok then null else c) && |data| <= cap && c.ended == !ok
      ensures c.received == old(c.received) + data && c.accepted == old(c.accepted)
      ensures ok && cap > 0 ==> data != []
      ensures ok ==> old(c.Left()) == data + c.Left()
      ensures !ok ==> data == [] && old(c.Left()) == []
    {
      hide BoardConn.Valid, BoardConn.Left, BoardConn.Repr;
      c.Owned();
      data, ok := c.Read(cap);
      failing := if ok then null else c;
    }

    method ReadOn(c: BoardConn, ghost k: nat, cap: nat) returns (data: Bytes, ok: bool)
      requires Valid() && k < |sessions| && sessions[k] == c && !c.broken && !c.ended && failing == null
      requires SilentAfter(k, In)
      modifies this`failing, c.Repr()
      ensures Valid() && failing == (if ok then null else c) && |data| <= cap && (!ok ==> data == [])
      ensures ok && cap > 0 ==> data != []
      ensures Total(sessions, In) == old(Total(sessions, In)) + data
      ensures Total(sessions, Out) == old(Total(sessions, Out))
    {
      hide BoardConn.Valid, BoardConn.Left, Kept;
      Distinguished(k);
      hide Valid, Separate, Concat;
      ghost var sent, got := Flows(sessions, Out), Flows(sessions, In);
      FlowsGive(sessions, Out);
      FlowsGive(sessions, In);
      data, ok := ReadHere(c, k, cap);
      FlowsAre(sessions, Out, sent);
      FlowsAre(sessions, In, got[k := got[k] + data]);
      GrowsAt(got, k, data);
    }

    lemma Distinguished(k: nat)
      requires Valid() && k < |sessions|
      ensures forall i :: 0 <= i < |sessions| && i != k ==> sessions[i] != sessions[k]
    {
      hide BoardConn.Valid;
      forall i | 0 <= i < |sessions| && i != k ensures sessions[i] != sessions[k] {
        assert sessions[k] in sessions[k].Repr();
      }
    }

    // New sessions change no total.
    lemma TotalKept(before: seq<Bytes>, side: Side)
      requires |before| <= |sessions|
      requires forall i :: 0 <= i < |before| ==> Traffic(sessions[i], side) == before[i]
      requires forall i :: |before| <= i < |sessions| ==> Traffic(sessions[i], side) == []
      ensures Total(sessions, side) == Concat(before)
    {
      var flows := Flows(sessions, side);
      FlowsGive(sessions, side);
      SilentTail(flows, |before|);
      assert flows[..|before|] == before;
    }

    // Other threads meanwhile, in terms of what the sessions carried.
    method Meanwhile()
      requires Valid()
      modifies this`conn, this`closed, this`sessions, this`footprint, board
      modifies Raws(sessions)`inbound, Raws(sessions)`closed, Ends(sessions)`cut
      ensures Valid() && old(sessions) <= sessions && (old(closed) ==> closed)
      ensures forall i :: |old(sessions)| <= i < |sessions| ==> Unused(sessions[i])
      ensures Total(sessions, Out) == old(Total(sessions, Out)) && Total(sessions, In) == old(Total(sessions, In))
      ensures Grown() && FaultsCounted()
      ensures Budget() <= old(Budget()) && (old(conn) != null && conn != old(conn) ==> Budget() < old(Budget()))
      ensures board.now >= old(board.now) && old(board.dials) <= board.dials && (!closed ==> Granted() == old(Granted()))
    {
      hide BoardConn.Valid, Valid, Flows, Concat, Raws, Ends, BoardConn.Repr;
      ghost var sent, got := Flows(sessions, Out), Flows(sessions, In);
      FlowsGive(sessions, Out);
      FlowsGive(sessions, In);
      Elsewhere();
      TotalKept(sent, Out);
      TotalKept(got, In);
    }

    // The wait for the lock, in terms of what the sessions carried.
    method AwaitedLock()
      requires Valid()
      modifies this`conn, this`closed, this`sessions, this`footprint, board
      modifies Raws(sessions)`inbound, Raws(sessions)`closed, Ends(sessions)`cut
      ensures Valid() && old(sessions) <= sessions && (old(closed) ==> closed)
      ensures forall i :: |old(sessions)| <= i < |sessions| ==> Unused(sessions[i])
      ensures Total(sessions, Out) == old(Total(sessions, Out)) && Total(sessions, In) == old(Total(sessions, In))
      ensures Grown()
      ensures Budget() <= old(Budget())
      ensures board.now >= old(board.now) && DialledSince() && (!closed ==> Granted() == old(Granted()))
      ensures old(conn) == null && conn != null ==> |sessions| > |old(sessions)|
    {
      hide BoardConn.Valid, Valid, Flows, Concat, Raws, Ends, BoardConn.Repr, DialledSince;
      ghost var sent, got := Flows(sessions, Out), Flows(sessions, In);
      FlowsGive(sessions, Out);
      FlowsGive(sessions, In);
      AwaitLock();
      TotalKept(sent, Out);
      TotalKept(got, In);
    }

    // A connection to use, obtained and possibly already superseded.
    method Acquire(deadline: Option<nat>, ghost failed: nat)
      returns (c: BoardConn?, ghost k: nat, d: Option<nat>, ghost failed': nat)
      requires Valid() && failing == null && Accounted(failed, deadline, board.now)
      modifies this`conn, this`closed, this`sessions, this`footprint, board, footprint
      ensures Valid() && old(sessions) <= sessions && (old(closed) ==> closed)
      ensures Grown() && FaultsCounted()
      ensures Total(sessions, Out) == old(Total(sessions, Out)) && Total(sessions, In) == old(Total(sessions, In))
      ensures c == null ==> closed || (d.Some? && board.now >= d.value)
      ensures (c == null ==> DialledSince()) && (!closed ==> Granted() == old(Granted()))
      ensures c != null && old(conn) == null ==> |sessions| > |old(sessions)|
      ensures c != null ==>
                && k < |sessions| && sessions[k] == c && SilentAfter(k, Out) && SilentAfter(k, In)
                && !c.broken && !c.ended
                && (c == conn || Budget() < old(Budget()))
      ensures deadline.Some? ==> d == deadline
      ensures deadline.None? && d.Some? ==> d.value >= old(board.now) + reconnectGrace
      ensures Budget() <= old(Budget()) && board.now >= old(board.now)
      ensures Accounted(failed', d, board.now)
    {
      hide BoardConn.Valid, Valid, Total, Raws, Ends, BoardConn.Repr, NoPause;
      k := 0;
      Covered();
      c, d, failed' := Connection(deadline, failed);
      if c != null {
        LastIsCurrent();
        k := |sessions| - 1;
        Covered();
        Meanwhile();
      }
    }

    // Forgets `c`, unless another thread already has.
    method Forget(c: BoardConn, ghost k: nat)
      requires Valid() && failing in {null, c} && k < |sessions| && sessions[k] == c
      modifies this`conn, this`closed, this`sessions, this`footprint, this`failing, board, footprint
      ensures Valid() && failing == null && old(sessions) <= sessions && (old(closed) ==> closed) && c.raw.closed
      ensures Grown() && FaultsCounted()
      ensures Total(sessions, Out) == old(Total(sessions, Out)) && Total(sessions, In) == old(Total(sessions, In))
      ensures Budget() <= old(Budget()) && (c == old(conn) ==> Budget() < old(Budget()))
      ensures board.now >= old(board.now) && (!closed ==> Granted() == old(Granted()))
    {
      hide BoardConn.Valid, Valid, Flows, Concat, Raws, Ends, BoardConn.Repr;
      Covered();
      Meanwhile();
      ghost var sent, got := Flows(sessions, Out), Flows(sessions, In);
      FlowsGive(sessions, Out);
      FlowsGive(sessions, In);
      c.Owned();
      Invalidate(c, k);
      TotalKept(sent, Out);
      TotalKept(got, In);
    }

    // One round of the write loop: some of `p` on some connection, which is forgotten if that fails.
    method WriteOnce(p: Bytes, deadline: Option<nat>, ghost failed: nat)
      returns (n: nat, error: WriteError, d: Option<nat>, ghost failed': nat)
      requires Valid() && failing == null && p != [] && Accounted(failed, deadline, board.now)
      modifies this, board, footprint
      ensures Valid() && failing == null && old(sessions) <= sessions && (old(closed) ==> closed)
      ensures Grown() && FaultsCounted()
      ensures error == ShortWrite ==> exists c :: TookNothing(c)
      ensures n <= |p| && Total(sessions, Out) == old(Total(sessions, Out)) + p[..n]
      ensures error == NoError ==> n > 0 || Budget() < old(Budget())
      ensures error != NoError ==> n == 0
      ensures (error == Unavailable ==> DialledSince()) && (!closed ==> Granted() == old(Granted()))
      ensures error != Unavailable && old(conn) == null ==> |sessions| > |old(sessions)|
      ensures error == Unavailable ==> closed || (d.Some? && board.now >= d.value)
      ensures deadline.Some? ==> d == deadline
      ensures deadline.None? && d.Some? ==> d.value >= old(board.now) + reconnectGrace
      ensures board.now >= old(board.now) && Accounted(failed', d, board.now)
    {
      hide BoardConn.Valid, Valid, Total, Traffic, Accounted, Raws, Ends, BoardConn.Repr, NoPause;
      Covered();
      assert Total(sessions, Out) + [] == Total(sessions, Out);
      var c;
      ghost var k;
      c, k, d, failed' := Acquire(deadline, failed);
      if c == null {
        return 0, Unavailable, d, failed';
      }
      var ok;
      Covered();
      n, ok := WriteOn(c, k, p);
      Covered();
      error := if ok && n == 0 then ShortWrite else NoError;
      assert error == ShortWrite ==> TookNothing(c);
      LaterAccounted(failed', d, board.now);
      if !ok {
        Forget(c, k);
      }
    }

    lemma LaterAccounted(failed: nat, d: Option<nat>, now: nat)
      requires Accounted(failed, d, now)
      ensures forall later: nat :: later >= now ==> Accounted(failed, d, later)
      ensures failed > 0 ==> (failed - 1) * RECONNECT_INTERVAL < reconnectGrace
    {
    }

    // The sessions' accepted bytes, in session order, grow by exactly the part of `p` reported as
    // written: nothing twice, nothing skipped, however often the connection was replaced.  It gives
    // up when closed, or when a whole grace period has passed.
    method Write(p: Bytes) returns (total: nat, error: WriteError, ghost failed: nat)
      requires Valid() && failing == null
      modifies this, board, footprint
      ensures Valid() && failing == null && old(sessions) <= sessions && (old(closed) ==> closed)
      ensures total <= |p| && (error == NoError <==> total == |p|)
      ensures error == Unavailable ==> closed || board.now >= old(board.now) + reconnectGrace
      ensures error == ShortWrite ==> exists c :: TookNothing(c)
      ensures Total(sessions, Out) == old(Total(sessions, Out)) + p[..total]
      ensures error == Unavailable && old(conn) == null && sessions == old(sessions) ==> DialledSince()
      ensures !closed ==> Granted() == old(Granted())
      ensures failed > 0 ==> (failed - 1) * RECONNECT_INTERVAL < reconnectGrace
    {
      hide BoardConn.Valid, Valid, Total, Traffic, Accounted, Raws, Ends, BoardConn.Repr, NoPause;
      Covered();
      total, failed := 0, 0;
      var deadline: Option<nat> := None;
      assert Total(sessions, Out) + [] == Total(sessions, Out);
      NothingSpent();
      while total < |p|
        invariant Valid() && failing == null && old(sessions) <= sessions && (old(closed) ==> closed)
        invariant Grown() && FaultsCounted()
        invariant board.now >= old(board.now) && (!closed ==> Granted() == old(Granted()))
        invariant old(conn) == null ==>
                    || |sessions| > |old(sessions)|
                    || (conn == null && board.now == old(board.now) && board.dials == old(board.dials))
        invariant deadline.Some? ==> deadline.value >= old(board.now) + reconnectGrace
        invariant total <= |p| && Total(sessions, Out) == old(Total(sessions, Out)) + p[..total]
        invariant Accounted(failed, deadline, board.now)
        decreases |p| - total, Budget()
      {
        var n;
        label round:
        n, error, deadline, failed := WriteOnce(p[total..], deadline, failed);
        PrefixGrows(old(Total(sessions, Out)), p, total, n);
        total := total + n;
        if error != NoError {
          if error == ShortWrite {
            ghost var c :| TookNothing@round(c);
            assert TookNothing(c);
          }
          LaterAccounted(failed, deadline, board.now);
          return;
        }
      }
      LaterAccounted(failed, deadline, board.now);
      error := NoError;
    }

    lemma NothingSpent()
      ensures forall now :: Accounted(0, None, now)
    {
    }

    method ReadOnce(cap: nat, deadline: Option<nat>, ghost failed: nat)
      returns (data: Bytes, ok: bool, unavailable: bool, d: Option<nat>, ghost failed': nat)
      requires Valid() && failing == null && Accounted(failed, deadline, board.now)
      modifies this, board, footprint
      ensures Valid() && failing == null && old(sessions) <= sessions && (old(closed) ==> closed)
      ensures Grown()
      ensures Total(sessions, In) == old(Total(sessions, In)) + data
      ensures (!ok && !unavailable ==> Budget() < old(Budget())) && (ok && cap > 0 ==> data != [])
      ensures unavailable ==> !ok && data == [] && (closed || (d.Some? && board.now >= d.value))
      ensures (unavailable ==> DialledSince()) && (!closed ==> Granted() == old(Granted()))
      ensures !unavailable && old(conn) == null ==> |sessions| > |old(sessions)|
      ensures deadline.Some? ==> d == deadline
      ensures deadline.None? && d.Some? ==> d.value >= old(board.now) + reconnectGrace
      ensures board.now >= old(board.now) && Accounted(failed', d, board.now)
    {
      hide BoardConn.Valid, Valid, Total, Traffic, Accounted, Raws, Ends, BoardConn.Repr, NoPause;
      Covered();
      assert Total(sessions, In) + [] == Total(sessions, In);
      var c;
      ghost var k;
      c, k, d, failed' := Acquire(deadline, failed);
      if c == null {
        return [], false, true, d, failed';
      }
      unavailable := false;
      Covered();
      data, ok := ReadOn(c, k, cap);
      Covered();
      LaterAccounted(failed', d, board.now);
      if !ok {
        Forget(c, k);
      }
    }

    // What a read returns is what the sessions handed out next, in session order.
    method Read(cap: nat) returns (data: Bytes, ok: bool, ghost failed: nat)
      requires Valid() && failing == null
      modifies this, board, footprint
      ensures Valid() && failing == null && old(sessions) <= sessions && (old(closed) ==> closed)
      ensures Total(sessions, In) == old(Total(sessions, In)) + data
      ensures !ok ==> data == [] && (closed || board.now >= old(board.now) + reconnectGrace)
      ensures ok && cap > 0 ==> data != []
      ensures !ok && old(conn) == null && sessions == old(sessions) ==> DialledSince()
      ensures !closed ==> Granted() == old(Granted())
      ensures failed > 0 ==> (failed - 1) * RECONNECT_INTERVAL < reconnectGrace
    {
      hide BoardConn.Valid, Valid, Total, Traffic, Accounted, Raws, Ends, BoardConn.Repr, NoPause;
      Covered();
      data, ok, failed := [], false, 0;
      var deadline: Option<nat> := None;
      assert Total(sessions, In) + [] == Total(sessions, In);
      NothingSpent();
      while !ok && data == []
        invariant Valid() && failing == null && old(sessions) <= sessions && (old(closed) ==> closed)
        invariant Grown()
        invariant board.now >= old(board.now) && (!closed ==> Granted() == old(Granted()))
        invariant old(conn) == null ==>
                    || |sessions| > |old(sessions)|
                    || (conn == null && board.now == old(board.now) && board.dials == old(board.dials))
        invariant deadline.Some? ==> deadline.value >= old(board.now) + reconnectGrace
        invariant Total(sessions, In) == old(Total(sessions, In)) + data && (ok && cap > 0 ==> data != [])
        invariant Accounted(failed, deadline, board.now)
        decreases !ok, Budget()
      {
        assert old(Total(sessions, In)) + [] == old(Total(sessions, In));
        var unavailable;
        data, ok, unavailable, deadline, failed := ReadOnce(cap, deadline, failed);
        LaterAccounted(failed, deadline, board.now);
        if unavailable {
          return;
        }
      }
      LaterAccounted(failed, deadline, board.now);
      ok := true;
    }

    // Takes the connection out and closes it, once.
    method Close()
      requires Valid()
      modifies this`conn, this`closed, Raws(sessions)`inbound, Raws(sessions)`closed, Ends(sessions)`cut
      ensures Valid() && closed && conn == null
      ensures forall i :: 0 <= i < |sessions| ==> sessions[i].raw.closed
      ensures old(closed) ==> unchanged(this)
    {
      hide BoardConn.Valid, Separate;
      if closed {
        return;
      }
      LetGo();
      closed := true;
    }

    // ---- Every session, superseded or not ----------------------------------------------------------

    lemma SessionValid(i: nat)
      requires Valid() && i < |sessions|
      ensures sessions[i].Valid()
    {
    }

    // No session ever seals two records under one nonce.
    lemma NoncesNeverReused(i: nat)
      requires Valid() && i < |sessions| && sessions[i].secure != null
      ensures Distinct(Nonces(sessions[i].secure.txAead.log))
    {
      hide Valid, SealNonces, Nonces, Distinct, Decode, WellNumbered;
      SessionValid(i);
      NoncesDistinctIff(sessions[i].secure.txNoncePrefix, sessions[i].secure.outcomes);
    }

    // What a session accepted is what its wire carries: as it is, or as the plaintext of the complete
    // records there, which at most one incomplete record follows.
    lemma AcceptedIsOnTheWire(i: nat)
      requires Valid() && i < |sessions|
      ensures var c := sessions[i];
              if c.secure == null then c.raw.wire == c.base + c.accepted
              else
                var log, n := c.secure.txAead.log, c.secure.txSequence;
                && n <= |log| && c.accepted == RecordLayer.Plain(log[..n])
                && WellNumbered(log[..n], c.secure.txNoncePrefix)
                && (c.raw.wire == c.base + Wire(log[..n])
                    || (n + 1 == |log|
                        && exists cut :: CutShort(cut, log[n]) && c.raw.wire == c.base + Wire(log[..n]) + cut))
    {
      hide Valid, SecureConn.Valid, WellNumbered, Decode, CutShort;
      SessionValid(i);
      var c := sessions[i];
      if c.secure != null {
        WholeOrCut(c.secure);
      }
    }

    lemma WholeOrCut(secure: SecureConn)
      requires secure.Valid() && secure.Status() != Reused
      ensures var log, n := secure.txAead.log, secure.txSequence;
              && n <= |log| && secure.accepted == RecordLayer.Plain(log[..n])
              && WellNumbered(log[..n], secure.txNoncePrefix)
              && (secure.conn.wire == secure.base + Wire(log[..n])
                  || (n + 1 == |log|
                      && exists cut :: CutShort(cut, log[n]) && secure.conn.wire == secure.base + Wire(log[..n]) + cut))
    {
      hide Wire, RecordLayer.Plain, CutShort;
      var log, n := secure.txAead.log, secure.txSequence;
      if secure.Status() == Clean {
        assert log[..n] == log;
      }
    }

    // What a session handed out is what the device sent on it, in order and from the start.
    lemma ReceivedArrived(i: nat)
      requires Valid() && i < |sessions|
      ensures sessions[i].received <= sessions[i].Carried()
      ensures sessions[i].ended && !sessions[i].cut ==> sessions[i].received == sessions[i].Carried()
    {
      hide Valid, BoardConn.Sends, BoardConn.Carried, BoardConn.Left;
      SessionValid(i);
    }
  }
}
