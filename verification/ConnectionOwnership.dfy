/** Who owns each dialled connection while readers, the writer and closers interleave.  One step
    is one critical section of `stateMu`, one dial, one handshake, one I/O call or one close. */
module ConnectionOwnership {
  import opened ByteStrings

  type Id = nat   // connections are numbered in the order they were dialled

  // Where a thread is.  `Start` to `Rival` are the connection lookup and the reconnect loop.
  datatype Pc =
    | Idle
    | Start                          // about to ask for the current connection
    | Locking                        // about to take reconnectMu
    | Recheck                        // holding it, about to ask again
    | FirstClosedTest
    | Looping                        // about to test `closed`, then the deadline
    | Dialling
    | Negotiating(c: Id)             // handshake on a dialled connection
    | Rejecting(c: Id)               // handshake failed, about to close it
    | Installing(c: Id)
    | Spare(c: Id)                   // found `closed` when installing, about to close it
    | Rival(c: Id, existing: Id)     // found another connection when installing
    | Using(c: Id)                   // about to read from or write to it
    | Invalidating(c: Id)            // I/O failed, about to forget it
    | Stale(c: Id)                   // forgotten, about to close it
    | Closing                        // in Close, about to mark closed
    | Taken(c: Id)                   // in Close, about to close the connection taken

  datatype Shared = Shared(
    conn: Option<Id>,
    closed: bool,
    owner: Option<nat>,     // of reconnectMu
    dialled: nat,           // ids below this exist
    shut: set<Id>,          // net.Conn.Close was called
    installed: set<Id>,     // were `conn` at some time
    spoiled: set<Id>,       // an I/O call on them failed
    unwritable: set<Id>)    // a write on them failed

  datatype State = State(shared: Shared, threads: seq<Pc>)

  // Only thread 0 writes.
  const WRITER: nat := 0

  // How a step's own nondeterminism falls: whether the dial, the handshake, the I/O call or the
  // deadline test succeeds; whether the call goes on afterwards; whether an idle thread closes.
  datatype Choice = Choice(thread: nat, ok: bool, again: bool, close: bool)

  datatype Moved = Moved(pc: Pc, shared: Shared)

  function Init(threads: nat): State {
    State(Shared(Some(0), false, None, 1, {}, {0}, {}, {}), seq(threads, _ => Idle))
  }

  function Next(again: bool): Pc {
    if again then Start else Idle
  }

  // One step of thread `t` standing at `pc`.
  function Move(s: Shared, t: nat, pc: Pc, choice: Choice): Moved {
    match pc
    case Idle => Moved(if choice.close then Closing else Start, s)
    case Start => Moved(if s.conn.Some? then Using(s.conn.value) else Locking, s)
    case Locking => if s.owner.None? then Moved(Recheck, s.(owner := Some(t))) else Moved(pc, s)
    case Recheck =>
      if s.conn.Some? then Moved(Using(s.conn.value), s.(owner := None)) else Moved(FirstClosedTest, s)
    case FirstClosedTest => if s.closed then Moved(Idle, s.(owner := None)) else Moved(Looping, s)
    case Looping => if s.closed || !choice.ok then Moved(Idle, s.(owner := None)) else Moved(Dialling, s)
    case Dialling =>
      if choice.ok then Moved(Negotiating(s.dialled), s.(dialled := s.dialled + 1)) else Moved(Looping, s)
    case Negotiating(c) => Moved(if choice.ok then Installing(c) else Rejecting(c), s)
    case Rejecting(c) => Moved(Looping, s.(shut := s.shut + {c}))
    case Installing(c) =>
      if s.closed then Moved(Spare(c), s)
      else if s.conn.None? then
        Moved(Using(c), s.(conn := Some(c), installed := s.installed + {c}, owner := None))
      else Moved(Rival(c, s.conn.value), s)
    case Spare(c) => Moved(Idle, s.(shut := s.shut + {c}, owner := None))
    case Rival(c, existing) => Moved(Using(existing), s.(shut := s.shut + {c}, owner := None))
    case Using(c) =>
      if choice.ok then Moved(Next(choice.again), s)
      else
        Moved(Invalidating(c), s.(spoiled := s.spoiled + {c},
                                  unwritable := s.unwritable + if t == WRITER then {c} else {}))
    case Invalidating(c) => Moved(Stale(c), s.(conn := if s.conn == Some(c) then None else s.conn))
    case Stale(c) => Moved(Next(choice.again), s.(shut := s.shut + {c}))
    case Closing =>
      if s.closed then Moved(Idle, s)
      else Moved(if s.conn.Some? then Taken(s.conn.value) else Idle, s.(closed := true, conn := None))
    case Taken(c) => Moved(Idle, s.(shut := s.shut + {c}))
  }

  function Step(s: State, choice: Choice): State {
    var t := choice.thread;
    if t >= |s.threads| then s
    else
      var moved := Move(s.shared, t, s.threads[t], choice);
      State(moved.shared, s.threads[t := moved.pc])
  }

  function Run(s: State, choices: seq<Choice>): State {
    if choices == [] then s else Step(Run(s, choices[..|choices| - 1]), choices[|choices| - 1])
  }

  // ---- The invariant: of the shared fields, and of each thread against them --------------------

  predicate HoldsLock(pc: Pc) {
    pc.Recheck? || Searching(pc) || pc.Spare? || pc.Rival?
  }

  // In the reconnect loop proper, having seen no connection.
  predicate Searching(pc: Pc) {
    pc.FirstClosedTest? || pc.Looping? || pc.Dialling? || pc.Rejecting? || Fresh(pc)
  }

  predicate Fresh(pc: Pc) {
    pc.Negotiating? || pc.Installing?
  }

  // The thread will close `c`, or install it.
  predicate Holds(pc: Pc, c: Id) {
    match pc
    case Negotiating(d) => c == d
    case Rejecting(d) => c == d
    case Installing(d) => c == d
    case Spare(d) => c == d
    case Rival(d, _) => c == d
    case Invalidating(d) => c == d
    case Stale(d) => c == d
    case Taken(d) => c == d
    case _ => false
  }

  ghost predicate SharedOk(s: Shared) {
    && (s.closed ==> s.conn.None?)
    && (s.conn.Some? ==> s.conn.value in s.installed && s.conn.value !in s.shut)
    && s.unwritable <= s.installed
    && (forall c :: c in s.installed ==> c < s.dialled)
    && (forall c :: c in s.shut ==> c < s.dialled)
  }

  predicate ThreadOk(s: Shared, t: nat, pc: Pc) {
    && (HoldsLock(pc) <==> s.owner == Some(t))
    && (Searching(pc) ==> s.conn.None?)
    && !pc.Rival?
    && (Fresh(pc) ==> pc.c !in s.shut)
    && (Fresh(pc) || pc.Rejecting? || pc.Spare? ==> pc.c < s.dialled && pc.c !in s.installed)
    && (pc.Stale? || pc.Taken? ==> pc.c in s.installed && s.conn != Some(pc.c))
    && (pc.Using? || pc.Invalidating? ==> pc.c in s.installed)
    && (pc.Invalidating? ==> pc.c in s.spoiled)
  }

  // A connection on which a write failed is current only until the writer has forgotten it, and
  // the writer is not about to write to one.
  predicate WriterOk(s: Shared, writer: Pc) {
    && (writer.Using? ==> writer.c !in s.unwritable)
    && (s.conn.Some? && s.conn.value in s.unwritable ==> writer == Invalidating(s.conn.value))
  }

  ghost predicate Threads(s: State) {
    forall t :: 0 <= t < |s.threads| ==> ThreadOk(s.shared, t, s.threads[t])
  }

  ghost predicate Owned(s: State, c: Id) {
    || s.shared.conn == Some(c) || c in s.shared.shut
    || exists t :: 0 <= t < |s.threads| && Holds(s.threads[t], c)
  }

  ghost predicate NoneLost(s: State) {
    forall c: Id :: c < s.shared.dialled ==> Owned(s, c)
  }

  predicate OwnerOk(s: State) {
    s.shared.owner.Some? ==> s.shared.owner.value < |s.threads|
  }

  ghost predicate Invariant(s: State) {
    && SharedOk(s.shared) && Threads(s) && NoneLost(s) && OwnerOk(s)
    && |s.threads| > WRITER && WriterOk(s.shared, s.threads[WRITER])
  }

  // ---- Every step keeps it ---------------------------------------------------------------------

  lemma MoveKeepsOwn(s: Shared, t: nat, pc: Pc, choice: Choice)
    requires SharedOk(s) && ThreadOk(s, t, pc)
    ensures var m := Move(s, t, pc, choice); SharedOk(m.shared) && ThreadOk(m.shared, t, m.pc)
  {
  }

  lemma MoveKeepsOther(s: Shared, t: nat, pc: Pc, choice: Choice, u: nat, other: Pc)
    requires SharedOk(s) && ThreadOk(s, t, pc) && ThreadOk(s, u, other) && t != u
    ensures ThreadOk(Move(s, t, pc, choice).shared, u, other)
  {
  }

  lemma MoveKeepsWriter(s: Shared, t: nat, pc: Pc, choice: Choice, writer: Pc)
    requires SharedOk(s) && ThreadOk(s, t, pc) && ThreadOk(s, WRITER, writer) && WriterOk(s, writer)
    requires t == WRITER ==> writer == pc
    ensures var m := Move(s, t, pc, choice); WriterOk(m.shared, if t == WRITER then m.pc else writer)
  {
  }

  // A connection leaves `conn` or a thread's hands only into that thread's hands, or closed.
  lemma MoveKeepsHands(s: Shared, t: nat, pc: Pc, choice: Choice, c: Id)
    requires ThreadOk(s, t, pc)
    requires s.conn == Some(c) || c in s.shut || Holds(pc, c)
    ensures var m := Move(s, t, pc, choice); m.shared.conn == Some(c) || c in m.shared.shut || Holds(m.pc, c)
  {
  }

  lemma MoveGrows(s: Shared, t: nat, pc: Pc, choice: Choice)
    requires ThreadOk(s, t, pc)
    ensures var m := Move(s, t, pc, choice);
            && s.installed <= m.shared.installed && s.shut <= m.shared.shut
            && s.dialled <= m.shared.dialled <= s.dialled + 1
            && (m.shared.dialled > s.dialled ==> Holds(m.pc, s.dialled))
            && (s.closed ==> m.shared.closed)
  {
  }

  lemma MoveOwner(s: Shared, t: nat, pc: Pc, choice: Choice)
    ensures Move(s, t, pc, choice).shared.owner in {s.owner, None, Some(t)}
  {
  }

  lemma StepOwned(s: State, choice: Choice, c: Id)
    requires Threads(s) && Owned(s, c)
    ensures Owned(Step(s, choice), c)
  {
    hide Move, Holds;
    var t := choice.thread;
    if t < |s.threads| {
      assert ThreadOk(s.shared, t, s.threads[t]);
      MoveGrows(s.shared, t, s.threads[t], choice);
      if s.shared.conn == Some(c) || c in s.shared.shut || Holds(s.threads[t], c) {
        MoveKeepsHands(s.shared, t, s.threads[t], choice, c);
        assert Step(s, choice).threads[t] == Move(s.shared, t, s.threads[t], choice).pc;
      } else {
        var u :| 0 <= u < |s.threads| && Holds(s.threads[u], c);
        assert Holds(Step(s, choice).threads[u], c);
      }
    }
  }

  lemma StepNoneLost(s: State, choice: Choice)
    requires Threads(s) && NoneLost(s)
    ensures NoneLost(Step(s, choice))
  {
    hide Move, Holds, Owned;
    var t := choice.thread;
    if t < |s.threads| {
      assert ThreadOk(s.shared, t, s.threads[t]);
      MoveGrows(s.shared, t, s.threads[t], choice);
      forall c: Id | c < Step(s, choice).shared.dialled ensures Owned(Step(s, choice), c) {
        if c < s.shared.dialled {
          StepOwned(s, choice, c);
        } else {
          HeldIsOwned(Step(s, choice), t, c);
        }
      }
    }
  }

  lemma HeldIsOwned(s: State, t: nat, c: Id)
    requires t < |s.threads| && Holds(s.threads[t], c)
    ensures Owned(s, c)
  {
  }

  lemma StepThreads(s: State, choice: Choice)
    requires SharedOk(s.shared) && Threads(s)
    ensures SharedOk(Step(s, choice).shared) && Threads(Step(s, choice))
  {
    hide Move, ThreadOk, SharedOk;
    var t := choice.thread;
    if t < |s.threads| {
      MoveKeepsOwn(s.shared, t, s.threads[t], choice);
      forall u | 0 <= u < |s.threads| && u != t
        ensures ThreadOk(Step(s, choice).shared, u, s.threads[u])
      {
        MoveKeepsOther(s.shared, t, s.threads[t], choice, u, s.threads[u]);
      }
    }
  }

  lemma StepKeepsInvariant(s: State, choice: Choice)
    requires Invariant(s)
    ensures Invariant(Step(s, choice))
  {
    hide Move, ThreadOk, SharedOk, WriterOk, NoneLost;
    StepNoneLost(s, choice);
    StepThreads(s, choice);
    if choice.thread < |s.threads| {
      MoveKeepsWriter(s.shared, choice.thread, s.threads[choice.thread], choice, s.threads[WRITER]);
      MoveOwner(s.shared, choice.thread, s.threads[choice.thread], choice);
    }
  }

  lemma {:induction false} Reachable(threads: nat, choices: seq<Choice>)
    requires threads > WRITER
    ensures Invariant(Run(Init(threads), choices)) && |Run(Init(threads), choices).threads| == threads
  {
    hide Invariant;
    if choices == [] {
      InitInvariant(threads);
    } else {
      hide Move;
      Reachable(threads, choices[..|choices| - 1]);
      StepKeepsInvariant(Run(Init(threads), choices[..|choices| - 1]), choices[|choices| - 1]);
    }
  }

  lemma InitInvariant(threads: nat)
    requires threads > WRITER
    ensures Invariant(Init(threads))
  {
  }

  // ---- What follows, for every number of threads and every interleaving ------------------------

  // Closed stays closed, with no current connection.
  lemma {:induction false} ClosedForGood(threads: nat, before: seq<Choice>, later: seq<Choice>)
    requires threads > WRITER && Run(Init(threads), before).shared.closed
    ensures var s := Run(Init(threads), before + later).shared; s.closed && s.conn.None?
  {
    hide Move, Init;
    Reachable(threads, before + later);
    if later == [] {
      assert before + later == before;
    } else {
      var init := later[..|later| - 1];
      ClosedForGood(threads, before, init);
      assert (before + later)[..|before + later| - 1] == before + init;
      StepKeepsPast(threads, before + init, later[|later| - 1], 0);
    }
  }

  // Whatever has been current and is not, never is again; whatever is closed stays closed.
  lemma StepKeepsPast(threads: nat, choices: seq<Choice>, choice: Choice, c: Id)
    requires threads > WRITER
    ensures var s, after := Run(Init(threads), choices).shared, Step(Run(Init(threads), choices), choice).shared;
            && (s.closed ==> after.closed)
            && (c in s.installed && s.conn != Some(c) ==> c in after.installed && after.conn != Some(c))
  {
    Reachable(threads, choices);
    var s := Run(Init(threads), choices);
    if choice.thread < |s.threads| {
      assert ThreadOk(s.shared, choice.thread, s.threads[choice.thread]);
      MoveGrows(s.shared, choice.thread, s.threads[choice.thread], choice);
    }
  }

  // A connection is current for one stretch of time only: no invalidation can be undone.
  lemma {:induction false} NeverAgain(threads: nat, before: seq<Choice>, later: seq<Choice>, c: Id)
    requires threads > WRITER
    requires c in Run(Init(threads), before).shared.installed && Run(Init(threads), before).shared.conn != Some(c)
    ensures var s := Run(Init(threads), before + later).shared; c in s.installed && s.conn != Some(c)
  {
    hide Move, Init;
    if later == [] {
      assert before + later == before;
    } else {
      var init := later[..|later| - 1];
      NeverAgain(threads, before, init, c);
      assert (before + later)[..|before + later| - 1] == before + init;
      StepKeepsPast(threads, before + init, later[|later| - 1], c);
    }
  }

  // The branch for a connection that appeared during the dial is never taken.
  lemma NoRival(threads: nat, choices: seq<Choice>, t: nat)
    requires threads > WRITER && t < threads
    ensures var s := Run(Init(threads), choices);
            |s.threads| == threads && !s.threads[t].Rival? && (s.threads[t].Installing? ==> s.shared.conn.None?)
  {
    Reachable(threads, choices);
    assert ThreadOk(Run(Init(threads), choices).shared, t, Run(Init(threads), choices).threads[t]);
  }

  // Two threads never redial at the same time.
  lemma OneRedials(threads: nat, choices: seq<Choice>, t: nat, u: nat)
    requires threads > WRITER && t < u < threads
    ensures var s := Run(Init(threads), choices);
            |s.threads| == threads && !(HoldsLock(s.threads[t]) && HoldsLock(s.threads[u]))
  {
    Reachable(threads, choices);
    var s := Run(Init(threads), choices);
    assert ThreadOk(s.shared, t, s.threads[t]) && ThreadOk(s.shared, u, s.threads[u]);
  }

  // Only a failed I/O call on that same connection, or Close, removes the current connection.
  lemma RemovalJustified(threads: nat, choices: seq<Choice>, choice: Choice, c: Id)
    requires threads > WRITER && Run(Init(threads), choices).shared.conn == Some(c)
    ensures var after := Run(Init(threads), choices + [choice]).shared;
            after.conn == Some(c) || after.closed || (c in after.spoiled && Failed(threads, choices, c, false))
  {
    Reachable(threads, choices);
    assert (choices + [choice])[..|choices|] == choices;
    var s := Run(Init(threads), choices);
    SpoiledIff(threads, choices, c);
    if choice.thread < |s.threads| {
      assert ThreadOk(s.shared, choice.thread, s.threads[choice.thread]);
    }
  }

  // The current connection is never one that was closed.
  lemma CurrentIsOpen(threads: nat, choices: seq<Choice>)
    requires threads > WRITER
    ensures var s := Run(Init(threads), choices).shared; s.conn.Some? ==> s.conn.value !in s.shut
  {
    Reachable(threads, choices);
  }

  // Once every call has returned, each connection ever dialled is the current one or was closed;
  // after Close, all were closed.
  lemma NoLeak(threads: nat, choices: seq<Choice>, c: Id)
    requires threads > WRITER
    requires var s := Run(Init(threads), choices);
             c < s.shared.dialled && forall t :: 0 <= t < |s.threads| ==> s.threads[t].Idle?
    ensures var s := Run(Init(threads), choices).shared;
            c in s.shut || (s.conn == Some(c) && !s.closed)
  {
    Reachable(threads, choices);
    assert Owned(Run(Init(threads), choices), c);
  }

  // With one writer, no connection is written to after a write on it failed.
  lemma NoWriteAfterFailedWrite(threads: nat, choices: seq<Choice>)
    requires threads > WRITER
    ensures var s := Run(Init(threads), choices);
            && |s.threads| == threads && (s.threads[WRITER].Using? ==> s.threads[WRITER].c !in s.shared.unwritable)
            && forall c :: s.threads[WRITER] == Using(c) ==> !Failed(threads, choices, c, true)
  {
    hide Failed;
    Reachable(threads, choices);
    var s := Run(Init(threads), choices);
    if s.threads[WRITER].Using? {
      SpoiledIff(threads, choices, s.threads[WRITER].c);
    }
  }

  // ---- After an I/O call that failed -------------------------------------------------------------

  // Step `i` was an I/O call on `c`, and it failed.
  ghost predicate FailedOn(threads: nat, choices: seq<Choice>, i: nat, c: Id) {
    && i < |choices| && !choices[i].ok && choices[i].thread < |Run(Init(threads), choices[..i]).threads|
    && Run(Init(threads), choices[..i]).threads[choices[i].thread] == Using(c)
  }

  // Some call on `c` failed; if `writes`, a write.
  ghost predicate Failed(threads: nat, choices: seq<Choice>, c: Id, writes: bool) {
    exists i: nat :: FailedOn(threads, choices, i, c) && (writes ==> choices[i].thread == WRITER)
  }

  // `spoiled` and `unwritable` are just the connections on which some call, or write, failed.
  lemma {:induction false} SpoiledIff(threads: nat, choices: seq<Choice>, c: Id)
    ensures c in Run(Init(threads), choices).shared.spoiled <==> Failed(threads, choices, c, false)
    ensures c in Run(Init(threads), choices).shared.unwritable <==> Failed(threads, choices, c, true)
  {
    hide Failed, Move, Init;
    if choices == [] {
      NoneFailed(threads, c);
    } else {
      var init := choices[..|choices| - 1];
      SpoiledIff(threads, init, c);
      OneMoreFailed(Run(Init(threads), init), choices[|choices| - 1], c);
      FailedLater(threads, choices, c, false);
      FailedLater(threads, choices, c, true);
    }
  }

  lemma NoneFailed(threads: nat, c: Id)
    ensures Run(Init(threads), []).shared.spoiled == Run(Init(threads), []).shared.unwritable == {}
    ensures !Failed(threads, [], c, false) && !Failed(threads, [], c, true)
  {
  }

  lemma FailedLater(threads: nat, choices: seq<Choice>, c: Id, writes: bool)
    requires choices != []
    ensures var n := |choices| - 1;
            Failed(threads, choices, c, writes) <==>
              || Failed(threads, choices[..n], c, writes)
              || (FailedOn(threads, choices, n, c) && (writes ==> choices[n].thread == WRITER))
  {
    var n := |choices| - 1;
    var init := choices[..n];
    forall i: nat | i < n ensures FailedOn(threads, choices, i, c) == FailedOn(threads, init, i, c) {
      assert choices[..i] == init[..i];
    }
    if Failed(threads, init, c, writes) {
      var i: nat :| FailedOn(threads, init, i, c) && (writes ==> init[i].thread == WRITER);
      assert FailedOn(threads, choices, i, c);
    }
    if Failed(threads, choices, c, writes) {
      var i: nat :| FailedOn(threads, choices, i, c) && (writes ==> choices[i].thread == WRITER);
      assert i < n ==> FailedOn(threads, init, i, c);
    }
  }

  lemma OneMoreFailed(s: State, choice: Choice, c: Id)
    ensures var failed := choice.thread < |s.threads| && s.threads[choice.thread] == Using(c) && !choice.ok;
            && (c in Step(s, choice).shared.spoiled <==> c in s.shared.spoiled || failed)
            && (c in Step(s, choice).shared.unwritable <==>
                  c in s.shared.unwritable || (failed && choice.thread == WRITER))
  {
  }

  // The thread is letting go of `c`, or has: forgotten and closed, it is never used by it again.
  ghost predicate LettingGo(s: State, t: nat, c: Id) {
    && t < |s.threads| && c in s.shared.installed
    && (|| s.threads[t] == Invalidating(c) || s.threads[t] == Stale(c)
        || (s.threads[t] != Using(c) && s.shared.conn != Some(c) && c in s.shared.shut))
  }

  lemma StepLetsGo(s: State, choice: Choice, t: nat, c: Id)
    requires Invariant(s) && LettingGo(s, t, c)
    ensures LettingGo(Step(s, choice), t, c)
  {
    if choice.thread < |s.threads| {
      assert ThreadOk(s.shared, choice.thread, s.threads[choice.thread]) && ThreadOk(s.shared, t, s.threads[t]);
      MoveGrows(s.shared, choice.thread, s.threads[choice.thread], choice);
    }
  }

  // A thread whose I/O call on `c` has failed is about to forget it, then to close it; from then on it
  // is neither current nor open, and the thread never uses it again.
  lemma {:induction false} FailedIsLetGo(threads: nat, choices: seq<Choice>, i: nat, j: nat, c: Id)
    requires threads > WRITER && i < j <= |choices| && FailedOn(threads, choices, i, c)
    ensures LettingGo(Run(Init(threads), choices[..j]), choices[i].thread, c)
  {
    hide Init, Invariant, Move;
    var before := choices[..j - 1];
    assert choices[..j][..j - 1] == before;
    Reachable(threads, before);
    if j == i + 1 {
      FailureStarts(Run(Init(threads), before), choices[i], c);
    } else {
      FailedIsLetGo(threads, choices, i, j - 1, c);
      StepLetsGo(Run(Init(threads), before), choices[j - 1], choices[i].thread, c);
    }
  }

  lemma FailureStarts(s: State, choice: Choice, c: Id)
    requires Invariant(s) && choice.thread < |s.threads| && s.threads[choice.thread] == Using(c) && !choice.ok
    ensures LettingGo(Step(s, choice), choice.thread, c)
  {
    assert ThreadOk(s.shared, choice.thread, s.threads[choice.thread]);
  }

  // So a thread back at `Idle` or `Start` after a failed call has had that connection forgotten and
  // closed.
  lemma FailedIsClosed(threads: nat, choices: seq<Choice>, i: nat, j: nat, c: Id)
    requires threads > WRITER && i < j <= |choices| && FailedOn(threads, choices, i, c)
    requires var s, t := Run(Init(threads), choices[..j]), choices[i].thread;
             t < |s.threads| && (s.threads[t].Idle? || s.threads[t].Start?)
    ensures var s := Run(Init(threads), choices[..j]).shared; s.conn != Some(c) && c in s.shut
  {
    FailedIsLetGo(threads, choices, i, j, c);
  }

  // And a connection on which a write failed is never written to again.
  lemma FailedWriteIsTheLast(threads: nat, choices: seq<Choice>, i: nat, j: nat, c: Id)
    requires threads > WRITER && i < j <= |choices| && FailedOn(threads, choices, i, c) && choices[i].thread == WRITER
    ensures var s := Run(Init(threads), choices[..j]); |s.threads| > WRITER && s.threads[WRITER] != Using(c)
  {
    FailedIsLetGo(threads, choices, i, j, c);
  }

  // ---- What a call gets, and when it gives up ----------------------------------------------------

  // A thread takes up no connection but the current one.
  lemma UsedIsCurrent(threads: nat, choices: seq<Choice>, choice: Choice, t: nat, c: Id)
    requires threads > WRITER && t < threads
    requires |Run(Init(threads), choices).threads| == threads && Run(Init(threads), choices).threads[t] != Using(c)
    ensures var after := Run(Init(threads), choices + [choice]);
            |after.threads| == threads && (after.threads[t] == Using(c) ==> after.shared.conn == Some(c))
  {
    Reachable(threads, choices);
    assert (choices + [choice])[..|choices|] == choices;
    var s := Run(Init(threads), choices);
    if choice.thread < threads {
      assert ThreadOk(s.shared, choice.thread, s.threads[choice.thread]);
    }
  }

  predicate LookingUp(pc: Pc) {
    pc.Start? || pc.Locking? || HoldsLock(pc)
  }

  // A call gives up looking for a connection only when closed or past its deadline.
  lemma GivesUpOnlyWhen(threads: nat, choices: seq<Choice>, choice: Choice, t: nat)
    requires threads > WRITER && t < threads
    requires |Run(Init(threads), choices).threads| == threads && LookingUp(Run(Init(threads), choices).threads[t])
    ensures var s, after := Run(Init(threads), choices), Run(Init(threads), choices + [choice]);
            && |after.threads| == threads
            && (LookingUp(after.threads[t]) || after.threads[t].Using? || s.shared.closed
                || (s.threads[t].Looping? && choice == choice.(thread := t, ok := false)))
  {
    Reachable(threads, choices);
    assert (choices + [choice])[..|choices|] == choices;
    var s := Run(Init(threads), choices);
    SpareIsClosed(threads, choices, t);
  }

  // A dialled connection is given back only because of Close.
  lemma {:induction false} SpareIsClosed(threads: nat, choices: seq<Choice>, t: nat)
    requires threads > WRITER && t < threads
    ensures var s := Run(Init(threads), choices);
            |s.threads| == threads && !s.threads[t].Rival? && (s.threads[t].Spare? ==> s.shared.closed)
  {
    Reachable(threads, choices);
    NoRival(threads, choices, t);
    if choices != [] {
      var init := choices[..|choices| - 1];
      SpareIsClosed(threads, init, t);
      Reachable(threads, init);
      StepKeepsPast(threads, init, choices[|choices| - 1], 0);
    }
  }

  // `k` steps of thread `t` on its own, with nothing failing.
  function Solo(s: State, t: nat, k: nat): State {
    if k == 0 then s else Step(Solo(s, t, k - 1), Choice(t, true, true, false))
  }

  // Left alone, with no one redialling and nothing failing, a call that asks for a connection gets the
  // current one, or dials one and makes it current.
  lemma CallGetsConnection(threads: nat, choices: seq<Choice>, t: nat)
    requires threads > WRITER && t < threads
    requires var s := Run(Init(threads), choices);
             |s.threads| == threads && s.threads[t].Start? && !s.shared.closed && s.shared.owner.None?
    ensures var s := Run(Init(threads), choices);
            exists k, c :: k <= 8 && Provides(Solo(s, t, k), s, t, c)
  {
    var s := Run(Init(threads), choices);
    if s.shared.conn.Some? {
      SoloCurrent(s, t);
    } else {
      SoloDials(s, t);
    }
  }

  ghost predicate Provides(after: State, s: State, t: nat, c: Id) {
    && t < |s.threads| && after.threads == s.threads[t := Using(c)] && after.shared.conn == Some(c)
    && (s.shared.conn.None? ==> c == s.shared.dialled)
  }

  lemma SoloCurrent(s: State, t: nat)
    requires t < |s.threads| && s.threads[t].Start? && s.shared.conn.Some?
    ensures exists k, c :: k <= 8 && Provides(Solo(s, t, k), s, t, c)
  {
    assert Solo(s, t, 0) == s;
    assert Provides(Solo(s, t, 1), s, t, s.shared.conn.value);
  }

  lemma SoloDials(s: State, t: nat)
    requires t < |s.threads| && s.threads[t].Start? && s.shared.conn.None? && !s.shared.closed && s.shared.owner.None?
    ensures exists k, c :: k <= 8 && Provides(Solo(s, t, k), s, t, c)
  {
    var held := s.shared.(owner := Some(t));
    var c := s.shared.dialled;
    var more := held.(dialled := c + 1);
    assert Solo(s, t, 0) == s;
    assert Solo(s, t, 1) == State(s.shared, s.threads[t := Locking]);
    assert Solo(s, t, 2) == State(held, s.threads[t := Recheck]);
    assert Solo(s, t, 3) == State(held, s.threads[t := FirstClosedTest]);
    assert Solo(s, t, 4) == State(held, s.threads[t := Looping]);
    assert Solo(s, t, 5) == State(held, s.threads[t := Dialling]);
    assert Solo(s, t, 6) == State(more, s.threads[t := Negotiating(c)]);
    assert Solo(s, t, 7) == State(more, s.threads[t := Installing(c)]);
    assert Provides(Solo(s, t, 8), s, t, c);
  }

  // No deadlock: every thread can take a step, unless it waits for the lock of one that is redialling.
  lemma NeverStuck(threads: nat, choices: seq<Choice>, choice: Choice)
    requires threads > WRITER && choice.thread < threads
    ensures var s := Run(Init(threads), choices);
            && |s.threads| == threads
            && (|| Step(s, choice).threads[choice.thread] != s.threads[choice.thread]
                || (s.threads[choice.thread].Locking? && s.shared.owner.Some? && s.shared.owner.value < threads
                    && HoldsLock(s.threads[s.shared.owner.value])))
  {
    Reachable(threads, choices);
    var s := Run(Init(threads), choices);
    assert ThreadOk(s.shared, choice.thread, s.threads[choice.thread]);
    if s.shared.owner.Some? {
      assert ThreadOk(s.shared, s.shared.owner.value, s.threads[s.shared.owner.value]);
    }
  }

  // ---- After Close -------------------------------------------------------------------------------

  // A Close leaves the object closed for good; the connection it found is closed when it returns.
  lemma {:induction false} CloseCloses(threads: nat, before: seq<Choice>, choice: Choice, later: seq<Choice>)
    requires threads > WRITER && choice.thread < threads
    requires |Run(Init(threads), before).threads| == threads && Run(Init(threads), before).threads[choice.thread].Closing?
    ensures var found, s := Run(Init(threads), before).shared.conn, Run(Init(threads), before + [choice] + later);
            && s.shared.closed && s.shared.conn.None? && |s.threads| == threads
            && (found.Some? ==> s.threads[choice.thread] == Taken(found.value) || found.value in s.shared.shut)
  {
    hide Init, Invariant;
    var found := Run(Init(threads), before).shared.conn;
    Reachable(threads, before + [choice] + later);
    assert (before + [choice])[..|before|] == before;
    Reachable(threads, before);
    ClosedForGood(threads, before + [choice], later);
    if later == [] {
      assert before + [choice] + later == before + [choice];
    } else {
      var init, s := later[..|later| - 1], Run(Init(threads), before + [choice] + later[..|later| - 1]);
      CloseCloses(threads, before, choice, init);
      assert (before + [choice] + later)[..|before + [choice] + later| - 1] == before + [choice] + init;
      Reachable(threads, before + [choice] + init);
      ShutGrows(s, later[|later| - 1]);
    }
  }

  lemma ShutGrows(s: State, choice: Choice)
    requires Invariant(s)
    ensures s.shared.shut <= Step(s, choice).shared.shut
    ensures forall t, c :: 0 <= t < |s.threads| && s.threads[t] == Taken(c) ==>
              Step(s, choice).threads[t] == Taken(c) || c in Step(s, choice).shared.shut
  {
    if choice.thread < |s.threads| {
      assert ThreadOk(s.shared, choice.thread, s.threads[choice.thread]);
      MoveGrows(s.shared, choice.thread, s.threads[choice.thread], choice);
    }
  }
}
