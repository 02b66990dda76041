/** The stress test's retry loop: how long it waits for the board, and what it does with every
    connection it opens. */
module StressRecovery {
  import opened ByteStrings
  import opened ReconnectingTcp

  datatype Options = Options(payloadBytes: int, cycles: int, cycleTimeout: int, cyclePause: int,
                             recover: bool, recoverTimeout: int)

  datatype StressError = Invalid | ConnectFailed | RecoveryFailed | TransferFailed | Mismatch | CloseFailed

  class StressRun {
    const board: Board
    ghost var dialled: set<BoardConn>   // every connection obtained
    ghost var shut: set<BoardConn>      // those closed again

    // All are closed but, perhaps, `c`.
    ghost predicate OnlyOpen(c: BoardConn?)
      reads this, set b: BoardConn | b in shut :: b.raw
    {
      && shut <= dialled
      && dialled - shut == (if c == null then {} else {c})
      && forall b :: b in shut ==> b.raw.closed
    }

    constructor (board: Board)
      ensures this.board == board && dialled == shut == {} && OnlyOpen(null)
    {
      this.board, dialled, shut := board, {}, {};
    }

    // A connection on which nothing has happened yet.
    static ghost predicate Unused(c: BoardConn?)
      reads if c == null then {} else c.Repr()
    {
      c != null ==> c.Valid() && !c.broken && !c.ended && c.received == []
    }

    static ghost function Parts(c: BoardConn?): set<object> {
      if c == null then {} else c.Repr()
    }

    method Dial(timeout: nat) returns (conn: BoardConn?)
      requires OnlyOpen(null)
      modifies this`dialled, board
      ensures OnlyOpen(conn) && Unused(conn) && fresh(Parts(conn))
      ensures old(board.now) <= board.now <= old(board.now) + timeout + HANDSHAKE_TIMEOUT
      ensures board.dials == old(board.dials) + [old(board.now)]
      ensures conn == null ==> board.supply == old(board.supply)
      ensures conn != null ==> board.supply + 1 == old(board.supply)
      ensures dialled == old(dialled) + (if conn == null then {} else {conn})
      ensures conn != null ==> conn !in old(dialled)
    {
      hide BoardConn.Valid;
      conn := board.Dial(timeout);
      if conn != null {
        assert conn in conn.Repr();
        dialled := dialled + {conn};
      }
    }

    // It is closed in any case; the answer says whether closing reported an error.
    method CloseConn(conn: BoardConn) returns (ok: bool)
      requires OnlyOpen(conn) && conn.Valid()
      modifies this`shut, conn`cut, conn.raw`inbound, conn.raw`closed
      ensures OnlyOpen(null) && shut == old(shut) + {conn}
    {
      hide BoardConn.Valid;
      conn.Close();
      shut := shut + {conn};
      ok := *;
    }

    // Redials until the deadline, at the same pace as the monitor's reconnect loop: at once, then without
    // a pause until a connection is granted or the time is over.
    method WaitForStressRecovery(timeout: int) returns (conn: BoardConn?, ghost attempts: nat, ghost tried: seq<nat>)
      requires OnlyOpen(null)
      modifies this`dialled, board
      ensures OnlyOpen(conn) && Unused(conn) && fresh(Parts(conn))
      ensures dialled == old(dialled) + (if conn == null then {} else {conn})
      ensures conn != null ==> conn !in old(dialled)
      ensures conn == null ==> board.now >= old(board.now) + timeout && board.supply == old(board.supply)
      ensures conn != null ==> board.supply + 1 == old(board.supply)
      ensures attempts > 0 ==> (attempts - 1) * RECONNECT_INTERVAL < timeout
      ensures timeout > 0 ==> attempts > 0
      ensures board.dials == old(board.dials) + tried && |tried| == attempts && (tried != [] ==> tried[0] == old(board.now))
      ensures NoPause(tried, old(board.now), board.now) && board.now - old(board.now) <= attempts * DIAL_GAP
      ensures old(board.now) <= board.now
      ensures board.now <= old(board.now) || board.now <= old(board.now) + timeout + HANDSHAKE_TIMEOUT + RECONNECT_INTERVAL
    {
      hide BoardConn.Valid, Paced, NoPause;
      var deadline := board.now + timeout;
      ghost var start := board.now;
      attempts, tried := 0, [];
      NotStarted(start, deadline);
      while true
        invariant OnlyOpen(null) && board.supply == old(board.supply) && dialled == old(dialled)
        invariant attempts == |tried| && board.dials == old(board.dials) + tried
        invariant Paced(tried, start, board.now, deadline)
        decreases deadline - board.now
      {
        PacedGives(tried, start, board.now, deadline);
        var remaining := deadline - board.now;
        if remaining <= 0 {
          return null, attempts, tried;
        }
        ghost var before, began := tried, board.now;
        attempts, tried := attempts + 1, tried + [began];
        conn := Dial(Min(DIAL_TIMEOUT, remaining));
        if conn != null {
          PacedLast(before, start, began, deadline, board.now);
          return conn, attempts, tried;
        }
        board.Sleep(Min(RECONNECT_INTERVAL, remaining));
        PacedRound(before, start, began, deadline, board.now);
      }
    }

    // The same, for what a cycle needs of it.
    method Recover(timeout: int) returns (conn: BoardConn?)
      requires OnlyOpen(null)
      modifies this`dialled, board
      ensures OnlyOpen(conn) && Unused(conn) && fresh(Parts(conn))
      ensures dialled == old(dialled) + (if conn == null then {} else {conn})
      ensures conn != null ==> conn !in old(dialled)
      ensures board.supply == old(board.supply) - if conn == null then 0 else 1
      ensures board.now >= old(board.now) + (if conn == null && timeout > 0 then timeout else 0)
      ensures old(board.dials) <= board.dials
      ensures conn == null && timeout > 0 ==>
                exists m :: |old(board.dials)| <= m && Searched(board.dials, m, timeout, board.now)
    {
      hide BoardConn.Valid, NoPause;
      ghost var m, attempts, tried := |board.dials|, 0, [];
      conn, attempts, tried := WaitForStressRecovery(timeout);
      assert board.dials[m..] == tried;
      if conn == null && timeout > 0 {
        assert Searched(board.dials, m, timeout, board.now);
      }
    }

    // From its `m`-th dial on the board was dialled without a pause, for the whole recovery time.
    static ghost predicate Searched(dials: seq<nat>, m: nat, timeout: int, now: nat) {
      m < |dials| && now >= dials[m] + timeout && NoPause(dials[m..], dials[m], now)
    }

    // The payload is written by one thread and its echo read by another; the writer closes the
    // connection if it fails, at some moment between two reads.
    method Transfer(conn: BoardConn, payload: Bytes) returns (ok: bool, same: bool)
      requires Unused(conn)
      modifies conn, conn.raw, if conn.secure == null then {} else {conn.secure, conn.secure.txAead}
      ensures conn.Valid() && (old(conn.raw.closed) ==> conn.raw.closed)
      ensures ok ==> |conn.received| == |payload| && same == (conn.received == payload)
      ensures ok <==> !conn.broken && !conn.ended
    {
      hide BoardConn.Valid;
      var n, wrote := conn.Write(payload);
      var received: Bytes, failed := [], false;
      while |received| < |payload| && !failed
        invariant conn.Valid() && conn.received == received && |received| <= |payload|
        invariant conn.ended == failed && conn.broken == !wrote && (old(conn.raw.closed) ==> conn.raw.closed)
        decreases !failed, |payload| - |received|
      {
        var closes: bool := *;
        if !wrote && closes {
          conn.Close();
        }
        var data, good := conn.Read(|payload| - |received|);
        received := received + data;
        failed := !good || data == [];
      }
      ok, same := !failed && wrote, received == payload;
    }

    // Every connection opened is closed on every way out; at most one is open at any time; a
    // recovered connection is the one the next attempt uses; and each completed cycle has had its
    // whole payload echoed on one connection of its own.
    method Run(options: Options, payloads: seq<Bytes>)
      returns (error: Option<StressError>, completed: nat, ghost used: seq<BoardConn>)
      requires OnlyOpen(null) && |payloads| == options.cycles
      modifies this, board
      ensures OnlyOpen(null) && old(dialled) <= dialled
      ensures error == Some(Invalid) <==>
                options.payloadBytes <= 0 || options.cycles <= 0 || options.cycleTimeout <= 0 || options.cyclePause < 0
                || (options.recover && options.recoverTimeout <= 0)
      ensures error == None ==> completed == options.cycles
      ensures options.recover ==> error !in {Some(ConnectFailed), Some(TransferFailed)}
      ensures error == Some(RecoveryFailed) ==> board.now >= old(board.now) + options.recoverTimeout
      ensures error == Some(RecoveryFailed) && options.recoverTimeout > 0 ==>
                exists m :: |old(board.dials)| <= m && Searched(board.dials, m, options.recoverTimeout, board.now)
      ensures old(board.dials) <= board.dials
      ensures |used| == completed <= |payloads|
      ensures forall k :: 0 <= k < completed ==> used[k] in dialled - old(dialled) && used[k].received == payloads[k]
      ensures forall i, k :: 0 <= i < k < completed ==> used[i] != used[k]
    {
      completed, used := 0, [];
      if options.payloadBytes <= 0 || options.cycles <= 0 || options.cycleTimeout <= 0 || options.cyclePause < 0
         || (options.recover && options.recoverTimeout <= 0)
      {
        return Some(Invalid), completed, used;
      }
      while completed < options.cycles
        invariant OnlyOpen(null) && old(dialled) <= dialled && board.now >= old(board.now)
        invariant old(board.dials) <= board.dials
        invariant |used| == completed <= options.cycles
        invariant forall k :: 0 <= k < completed ==> used[k] in dialled - old(dialled) && used[k].received == payloads[k]
        invariant forall i, k :: 0 <= i < k < completed ==> used[i] != used[k]
        decreases options.cycles - completed
      {
        ghost var c;
        error, c := Cycle(options, payloads[completed]);
        if error.Some? {
          return;
        }
        used := used + [c];
        completed := completed + 1;
        board.Sleep(if completed < options.cycles then options.cyclePause else 0);
      }
      error := None;
    }

    // One cycle, retried on a fresh connection until it succeeds or recovery fails.
    method Cycle(options: Options, payload: Bytes) returns (error: Option<StressError>, ghost c: BoardConn?)
      requires OnlyOpen(null)
      modifies this, board
      ensures OnlyOpen(null) && old(dialled) <= dialled && board.now >= old(board.now)
      ensures error == None ==> c != null && c in dialled && c !in old(dialled) && c.received == payload
      ensures error == Some(TransferFailed) ==> c != null && (c.broken || c.ended)
      ensures error == Some(Mismatch) ==> c != null && |c.received| == |payload| && c.received != payload
      ensures error != Some(Invalid)
      ensures options.recover ==> error !in {Some(ConnectFailed), Some(TransferFailed)}
      ensures error == Some(RecoveryFailed) ==> board.now >= old(board.now) + options.recoverTimeout
      ensures error == Some(RecoveryFailed) && options.recoverTimeout > 0 ==>
                exists m :: |old(board.dials)| <= m && Searched(board.dials, m, options.recoverTimeout, board.now)
      ensures old(board.dials) < board.dials
    {
      hide BoardConn.Valid, BoardConn.Repr, NoPause;
      c := null;
      var recoveredConn: BoardConn? := null;
      while true
        invariant OnlyOpen(recoveredConn) && Unused(recoveredConn) && old(dialled) <= dialled
        invariant fresh(Parts(recoveredConn)) && board.now >= old(board.now) && old(board.dials) <= board.dials
        invariant recoveredConn != null ==> recoveredConn !in old(dialled) && old(board.dials) < board.dials
        decreases board.supply + (if recoveredConn == null then 0 else 1), recoveredConn == null
      {
        var conn := recoveredConn;
        recoveredConn := null;
        if conn == null {
          conn := Dial(DIAL_TIMEOUT);
          if conn == null {
            if !options.recover {
              return Some(ConnectFailed), null;
            }
            recoveredConn := Recover(options.recoverTimeout);
            if recoveredConn == null {
              return Some(RecoveryFailed), null;
            }
            continue;
          }
        }
        conn.Owned();
        c := conn;
        var ok, same := Transfer(conn, payload);
        var closed := CloseConn(conn);
        if !ok {
          if !options.recover {
            return Some(TransferFailed), c;
          }
          recoveredConn := Recover(options.recoverTimeout);
          if recoveredConn == null {
            return Some(RecoveryFailed), c;
          }
          continue;
        }
        return if !same then Some(Mismatch) else if !closed then Some(CloseFailed) else None, c;
      }
    }
  }
}
