/** The life of monitor sessions: one command loop opens, closes and quits; two bridges per
    session end it when a copy stops.  One step is one critical section, dial, event or close. */
module MonitorSessions {
  import opened ByteStrings

  type Id = nat   // sessions are numbered in the order their board connection was dialled

  datatype Event = OpenOk(s: Id) | PortClosed(s: Id) | CloseOk(s: Id) | Failure | QuitOk

  datatype Once = Unused | Running(thread: nat) | Done

  datatype Session = Session(
    boardOpen: bool,
    clientOpen: bool,
    installed: bool,    // was `active` at some time
    once: Once,
    wins: nat,          // calls of endSession that returned true
    bridge: nat)        // its first bridge's thread, once started

  // Who calls endSession.
  datatype Caller = Bridge | CloseCommand | Silent

  datatype Phase = AtOnce | AtBoard | AtClient | AtClear | AtEmit | AtDone | Lost

  datatype Pc =
    | Waiting                        // the command loop, between commands
    | Opening                        // about to test `active` for the first time
    | Dialling
    | Calling(s: Id)                 // about to dial the IDE
    | Installing(s: Id)              // about to test `active` again
    | Refusing(s: Id)                // found it set
    | Announcing(s: Id)
    | Starting(s: Id)                // about to start the first bridge
    | StartingSecond(s: Id)
    | Looking(caller: Caller)        // about to read `active`, to close
    | Ending(s: Id, phase: Phase, caller: Caller)
    | Exited
    | Copying(s: Id)                 // a bridge
    | Gone(s: Id)

  datatype Shared = Shared(active: Option<Id>, sessions: seq<Session>, events: seq<Event>)
  datatype State = State(shared: Shared, threads: seq<Pc>)

  // Thread 0 is the command loop.
  const LOOP: nat := 0

  datatype Command = Open | Close | Quit | EndOfInput | Other
  datatype Choice = Choice(thread: nat, command: Command, ok: bool)
  datatype Moved = Moved(pc: Pc, shared: Shared, started: seq<Pc>)

  function Init(): State {
    State(Shared(None, [], []), [Waiting])
  }

  function Emit(s: Shared, e: Event): Shared {
    s.(events := s.events + [e])
  }

  function Set(s: Shared, id: Id, session: Session): Shared
    requires id < |s.sessions|
  {
    s.(sessions := s.sessions[id := session])
  }

  // Where a caller goes after endSession.
  function After(caller: Caller, s: Id): Pc {
    match caller
    case Bridge => Gone(s)
    case CloseCommand => Waiting
    case Silent => Exited
  }

  function Terminal(caller: Caller, s: Id): Event {
    if caller == Bridge then PortClosed(s) else CloseOk(s)
  }

  function MoveLoop(s: Shared, threads: nat, pc: Pc, choice: Choice): Moved {
    match pc
    case Waiting => (
      match choice.command
      case Open => Moved(Opening, s, [])
      case Close => Moved(Looking(CloseCommand), s, [])
      case Quit => Moved(Looking(Silent), Emit(s, QuitOk), [])
      case EndOfInput => Moved(Looking(Silent), s, [])
      case Other => Moved(Waiting, s, [])
    )
    case Opening => if s.active.Some? then Moved(Waiting, Emit(s, Failure), []) else Moved(Dialling, s, [])
    case Dialling =>
      if choice.ok then
        Moved(Calling(|s.sessions|), s.(sessions := s.sessions + [Session(true, false, false, Unused, 0, 0)]), [])
      else Moved(Waiting, Emit(s, Failure), [])
    case Calling(id) =>
      if id >= |s.sessions| then Moved(pc, s, [])
      else if choice.ok then Moved(Installing(id), Set(s, id, s.sessions[id].(clientOpen := true)), [])
      else Moved(Waiting, Emit(Set(s, id, s.sessions[id].(boardOpen := false)), Failure), [])
    case Installing(id) =>
      if id >= |s.sessions| then Moved(pc, s, [])
      else if s.active.Some? then Moved(Refusing(id), s, [])
      else Moved(Announcing(id), Set(s, id, s.sessions[id].(installed := true)).(active := Some(id)), [])
    case Refusing(id) =>
      if id >= |s.sessions| then Moved(pc, s, [])
      else Moved(Waiting, Emit(Set(s, id, s.sessions[id].(boardOpen := false, clientOpen := false)), Failure), [])
    case Announcing(id) => Moved(Starting(id), Emit(s, OpenOk(id)), [])
    case Starting(id) =>
      if id >= |s.sessions| then Moved(pc, s, [])
      else Moved(StartingSecond(id), Set(s, id, s.sessions[id].(bridge := threads)), [Copying(id)])
    case StartingSecond(id) => Moved(Waiting, s, [Copying(id)])
    case Looking(caller) =>
      if s.active.Some? then Moved(Ending(s.active.value, AtOnce, caller), s, [])
      else if caller == CloseCommand then Moved(Waiting, Emit(s, Failure), [])
      else Moved(Exited, s, [])
    case _ => Moved(pc, s, [])
  }

  function MoveEnding(s: Shared, t: nat, id: Id, phase: Phase, caller: Caller): Moved
    requires id < |s.sessions|
  {
    var it := s.sessions[id];
    match phase
    case AtOnce => (
      match it.once
      case Unused => Moved(Ending(id, AtBoard, caller), Set(s, id, it.(once := Running(t))), [])
      case Running(_) => Moved(Ending(id, phase, caller), s, [])
      case Done => Moved(Ending(id, Lost, caller), s, [])
    )
    case AtBoard => Moved(Ending(id, AtClient, caller), Set(s, id, it.(boardOpen := false)), [])
    case AtClient => Moved(Ending(id, AtClear, caller), Set(s, id, it.(clientOpen := false)), [])
    case AtClear =>
      Moved(Ending(id, AtEmit, caller), s.(active := if s.active == Some(id) then None else s.active), [])
    case AtEmit =>
      Moved(Ending(id, AtDone, caller), if caller == Silent then s else Emit(s, Terminal(caller, id)), [])
    case AtDone => Moved(After(caller, id), Set(s, id, it.(once := Done, wins := it.wins + 1)), [])
    case Lost => Moved(After(caller, id), if caller == CloseCommand then Emit(s, Failure) else s, [])
  }

  function Move(s: Shared, threads: nat, t: nat, pc: Pc, choice: Choice): Moved {
    match pc
    case Copying(id) => Moved(Ending(id, AtOnce, Bridge), s, [])
    case Ending(id, phase, caller) =>
      if id < |s.sessions| then MoveEnding(s, t, id, phase, caller) else Moved(pc, s, [])
    case _ => MoveLoop(s, threads, pc, choice)
  }

  function Step(s: State, choice: Choice): State {
    var t := choice.thread;
    if t >= |s.threads| then s
    else
      var moved := Move(s.shared, |s.threads|, t, s.threads[t], choice);
      State(moved.shared, s.threads[t := moved.pc] + moved.started)
  }

  function Run(choices: seq<Choice>): State {
    if choices == [] then Init() else Step(Run(choices[..|choices| - 1]), choices[|choices| - 1])
  }

  // ---- The invariant ---------------------------------------------------------------------------

  predicate Terminated(events: seq<Event>, s: Id) {
    PortClosed(s) in events || CloseOk(s) in events
  }

  // Only the caller that won the once is past it.
  predicate Won(phase: Phase) {
    phase != AtOnce && phase != Lost
  }

  // Of one session, given where the thread running its end stands.
  predicate SessionOk(s: Shared, id: Id, it: Session) {
    && (it.installed && (it.boardOpen || it.clientOpen) ==> s.active == Some(id))
    && (it.once.Unused? ==> it.wins == 0 && !Terminated(s.events, id))
    && (it.once.Running? ==> it.wins == 0)
    && (it.once.Done? ==> it.wins == 1 && s.active != Some(id))
    && (!it.once.Unused? ==> it.installed)
    && (it.installed && it.once.Unused? ==> s.active == Some(id))
    && (!it.installed ==> OpenOk(id) !in s.events)
  }

  ghost predicate SharedOk(s: Shared) {
    && (forall id :: 0 <= id < |s.sessions| ==> SessionOk(s, id, s.sessions[id]))
    && (s.active.Some? ==> s.active.value < |s.sessions| && s.sessions[s.active.value].installed)
    && (forall id: Id :: id >= |s.sessions| ==> OpenOk(id) !in s.events && !Terminated(s.events, id))
  }

  predicate PcOk(s: Shared, t: nat, pc: Pc) {
    match pc
    case Dialling => t == LOOP && s.active.None?
    case Calling(id) =>
      && t == LOOP && s.active.None?
      && id < |s.sessions| && !s.sessions[id].installed && !s.sessions[id].clientOpen
    case Installing(id) => t == LOOP && s.active.None? && id < |s.sessions| && !s.sessions[id].installed
    case Refusing(_) => false
    case Announcing(id) =>
      t == LOOP && s.active == Some(id) && id < |s.sessions| && s.sessions[id].once.Unused? && OpenOk(id) !in s.events
    case Starting(id) => t == LOOP && id < |s.sessions| && s.sessions[id].installed && OpenOk(id) in s.events
    case StartingSecond(id) => t == LOOP && id < |s.sessions| && s.sessions[id].installed && OpenOk(id) in s.events
    case Looking(caller) => t == LOOP && caller != Bridge
    case Ending(id, phase, caller) =>
      && (caller == Bridge <==> t != LOOP)
      && id < |s.sessions| && s.sessions[id].installed && OpenOk(id) in s.events
      && (Won(phase) <==> s.sessions[id].once == Running(t))
      && (phase == Lost ==> s.sessions[id].once == Done)
      && (phase in {AtBoard, AtClient, AtClear, AtEmit} ==> !Terminated(s.events, id))
      && (phase in {AtClient, AtClear, AtEmit, AtDone} ==> !s.sessions[id].boardOpen)
      && (phase in {AtClear, AtEmit, AtDone} ==> !s.sessions[id].clientOpen)
      && (phase in {AtEmit, AtDone} ==> s.active != Some(id))
      && (caller != Bridge ==> s.active in {None, Some(id)})
    case Copying(id) => t != LOOP && id < |s.sessions| && s.sessions[id].installed && OpenOk(id) in s.events
    case Exited => t == LOOP && s.active.None?
    case Gone(id) => t != LOOP && id < |s.sessions| && s.sessions[id].once == Done
    case _ => t == LOOP
  }

  // A session whose once is running is being ended by that thread.
  predicate RunnerOk(s: Shared, t: nat, pc: Pc) {
    forall id :: 0 <= id < |s.sessions| && s.sessions[id].once == Running(t) ==>
      pc.Ending? && pc.s == id && Won(pc.phase)
  }

  // The loop is at `Announcing` exactly while the active session has not been announced.
  predicate LoopOk(s: Shared, pc: Pc) {
    && (forall id :: 0 <= id < |s.sessions| && s.sessions[id].installed && OpenOk(id) !in s.events ==>
          pc == Announcing(id))
    && (forall id :: 0 <= id < |s.sessions| && !s.sessions[id].installed
                     && (s.sessions[id].boardOpen || s.sessions[id].clientOpen) ==>
          pc == Calling(id) || pc == Installing(id))
  }

  predicate About(e: Event, s: Id) {
    e == PortClosed(s) || e == CloseOk(s)
  }

  // Each session is announced at most once, terminated at most once, and in that order.
  ghost predicate EventsOk(events: seq<Event>) {
    forall i, s :: 0 <= i < |events| ==>
      && (events[i] == OpenOk(s) ==> OpenOk(s) !in events[..i])
      && (About(events[i], s) ==> OpenOk(s) in events[..i] && !Terminated(events[..i], s))
  }

  // An installed session has its first bridge, unless the loop has still to start it.
  predicate BridgeOk(s: State, id: Id)
    requires |s.threads| > LOOP && id < |s.shared.sessions|
  {
    var b := s.shared.sessions[id].bridge;
    || s.threads[LOOP] == Announcing(id) || s.threads[LOOP] == Starting(id)
    || (LOOP < b < |s.threads|
        && (s.threads[b] == Copying(id) || s.threads[b] == Gone(id)
            || (s.threads[b].Ending? && s.threads[b].s == id)))
  }

  ghost predicate Threads(s: State) {
    forall t :: 0 <= t < |s.threads| ==> PcOk(s.shared, t, s.threads[t]) && RunnerOk(s.shared, t, s.threads[t])
  }

  ghost predicate Bridges(s: State)
    requires |s.threads| > LOOP
  {
    forall id :: 0 <= id < |s.shared.sessions| && s.shared.sessions[id].installed ==> BridgeOk(s, id)
  }

  ghost predicate Runners(s: State) {
    forall id :: 0 <= id < |s.shared.sessions| && s.shared.sessions[id].once.Running? ==>
      s.shared.sessions[id].once.thread < |s.threads|
  }

  ghost predicate Invariant(s: State) {
    && |s.threads| > LOOP && SharedOk(s.shared) && Threads(s)
    && LoopOk(s.shared, s.threads[LOOP]) && EventsOk(s.shared.events)
    && Bridges(s) && Runners(s)
  }

  // ---- Every step keeps it ---------------------------------------------------------------------

  lemma LoopKeepsShared(s: Shared, threads: nat, pc: Pc, choice: Choice)
    requires SharedOk(s) && PcOk(s, LOOP, pc) && LoopOk(s, pc) && !pc.Ending? && !pc.Copying?
    ensures SharedOk(MoveLoop(s, threads, pc, choice).shared)
  {
  }

  lemma LoopKeepsPc(s: Shared, threads: nat, pc: Pc, choice: Choice)
    requires SharedOk(s) && PcOk(s, LOOP, pc) && RunnerOk(s, LOOP, pc) && LoopOk(s, pc) && !pc.Ending? && !pc.Copying?
    ensures var m := MoveLoop(s, threads, pc, choice); PcOk(m.shared, LOOP, m.pc) && RunnerOk(m.shared, LOOP, m.pc)
  {
  }

  lemma LoopKeepsLoop(s: Shared, threads: nat, pc: Pc, choice: Choice)
    requires SharedOk(s) && PcOk(s, LOOP, pc) && LoopOk(s, pc) && !pc.Ending? && !pc.Copying?
    ensures var m := MoveLoop(s, threads, pc, choice); LoopOk(m.shared, m.pc)
  {
  }

  lemma LoopKeepsOther(s: Shared, threads: nat, pc: Pc, choice: Choice, u: nat, other: Pc)
    requires SharedOk(s) && PcOk(s, LOOP, pc) && LoopOk(s, pc) && u != LOOP && !pc.Ending? && !pc.Copying?
    requires PcOk(s, u, other) && RunnerOk(s, u, other)
    ensures var after := MoveLoop(s, threads, pc, choice).shared; PcOk(after, u, other) && RunnerOk(after, u, other)
  {
  }

  lemma EndingKeepsShared(s: Shared, t: nat, id: Id, phase: Phase, caller: Caller)
    requires SharedOk(s) && PcOk(s, t, Ending(id, phase, caller))
    ensures SharedOk(MoveEnding(s, t, id, phase, caller).shared)
  {
  }

  lemma EndingKeepsPc(s: Shared, t: nat, id: Id, phase: Phase, caller: Caller)
    requires SharedOk(s) && PcOk(s, t, Ending(id, phase, caller)) && RunnerOk(s, t, Ending(id, phase, caller))
    ensures var m := MoveEnding(s, t, id, phase, caller); PcOk(m.shared, t, m.pc) && RunnerOk(m.shared, t, m.pc)
  {
  }

  lemma EndingKeepsOther(s: Shared, t: nat, id: Id, phase: Phase, caller: Caller, u: nat, other: Pc)
    requires SharedOk(s) && PcOk(s, t, Ending(id, phase, caller)) && u != t && PcOk(s, u, other)
    ensures PcOk(MoveEnding(s, t, id, phase, caller).shared, u, other)
  {
  }

  lemma EndingKeepsRunner(s: Shared, t: nat, id: Id, phase: Phase, caller: Caller, u: nat, other: Pc)
    requires id < |s.sessions| && u != t && RunnerOk(s, u, other)
    ensures RunnerOk(MoveEnding(s, t, id, phase, caller).shared, u, other)
  {
  }

  lemma EndingKeepsLoop(s: Shared, t: nat, id: Id, phase: Phase, caller: Caller, loop: Pc)
    requires SharedOk(s) && PcOk(s, t, Ending(id, phase, caller)) && LoopOk(s, loop)
    requires t == LOOP ==> loop == Ending(id, phase, caller)
    ensures var m := MoveEnding(s, t, id, phase, caller); LoopOk(m.shared, if t == LOOP then m.pc else loop)
  {
  }

  // One thread's move, whichever it is.
  lemma MoveKeepsOwn(s: Shared, threads: nat, t: nat, pc: Pc, choice: Choice)
    requires SharedOk(s) && PcOk(s, t, pc) && RunnerOk(s, t, pc) && (t == LOOP ==> LoopOk(s, pc))
    ensures var m := Move(s, threads, t, pc, choice);
            SharedOk(m.shared) && PcOk(m.shared, t, m.pc) && RunnerOk(m.shared, t, m.pc)
  {
    hide MoveLoop, MoveEnding, SharedOk, LoopOk;
    if pc.Ending? {
      EndingKeepsShared(s, t, pc.s, pc.phase, pc.caller);
      EndingKeepsPc(s, t, pc.s, pc.phase, pc.caller);
    } else if t == LOOP {
      LoopKeepsShared(s, threads, pc, choice);
      LoopKeepsPc(s, threads, pc, choice);
    } else if pc.Gone? {
      assert MoveLoop(s, threads, pc, choice) == Moved(pc, s, []) by { GoneStays(s, threads, pc, choice); }
    }
  }

  lemma GoneStays(s: Shared, threads: nat, pc: Pc, choice: Choice)
    requires pc.Gone?
    ensures MoveLoop(s, threads, pc, choice) == Moved(pc, s, [])
  {
  }

  lemma MoveKeepsOther(s: Shared, threads: nat, t: nat, pc: Pc, choice: Choice, u: nat, other: Pc)
    requires SharedOk(s) && PcOk(s, t, pc) && u != t && (t == LOOP ==> LoopOk(s, pc))
    requires PcOk(s, u, other) && RunnerOk(s, u, other)
    ensures var after := Move(s, threads, t, pc, choice).shared; PcOk(after, u, other) && RunnerOk(after, u, other)
  {
    hide MoveLoop, MoveEnding, SharedOk, LoopOk, RunnerOk;
    if pc.Ending? {
      EndingKeepsOther(s, t, pc.s, pc.phase, pc.caller, u, other);
      EndingKeepsRunner(s, t, pc.s, pc.phase, pc.caller, u, other);
    } else if t == LOOP {
      LoopKeepsOther(s, threads, pc, choice, u, other);
    } else if pc.Gone? {
      GoneStays(s, threads, pc, choice);
    }
  }

  lemma MoveKeepsLoop(s: Shared, threads: nat, t: nat, pc: Pc, choice: Choice, loop: Pc)
    requires SharedOk(s) && PcOk(s, t, pc) && LoopOk(s, loop) && (t == LOOP ==> loop == pc)
    ensures var m := Move(s, threads, t, pc, choice); LoopOk(m.shared, if t == LOOP then m.pc else loop)
  {
    hide MoveLoop, MoveEnding, SharedOk, LoopOk;
    if pc.Ending? {
      EndingKeepsLoop(s, t, pc.s, pc.phase, pc.caller, loop);
    } else if t == LOOP {
      LoopKeepsLoop(s, threads, pc, choice);
    } else if pc.Gone? {
      GoneStays(s, threads, pc, choice);
    }
  }

  predicate Fits(events: seq<Event>, e: Event) {
    match e
    case OpenOk(s) => OpenOk(s) !in events
    case PortClosed(s) => OpenOk(s) in events && !Terminated(events, s)
    case CloseOk(s) => OpenOk(s) in events && !Terminated(events, s)
    case _ => true
  }

  lemma MoveEvents(s: Shared, threads: nat, t: nat, pc: Pc, choice: Choice)
    requires PcOk(s, t, pc)
    ensures var after := Move(s, threads, t, pc, choice).shared.events;
            || after == s.events
            || (|after| > 0 && after == s.events + [after[|after| - 1]] && Fits(s.events, after[|after| - 1]))
  {
  }

  lemma FittingEvent(events: seq<Event>, e: Event)
    requires EventsOk(events) && Fits(events, e)
    ensures EventsOk(events + [e])
  {
    forall i, s | 0 <= i <= |events|
      ensures (events + [e])[i] == OpenOk(s) ==> OpenOk(s) !in (events + [e])[..i]
      ensures About((events + [e])[i], s) ==> OpenOk(s) in (events + [e])[..i] && !Terminated((events + [e])[..i], s)
    {
      if i < |events| {
        assert (events + [e])[..i] == events[..i];
      } else {
        assert (events + [e])[..i] == events;
      }
    }
  }

  // What a move does to the sessions' bridges and to the list of threads.
  lemma MoveBridges(s: Shared, threads: nat, t: nat, pc: Pc, choice: Choice, id: Id)
    requires PcOk(s, t, pc) && id < |s.sessions|
    ensures var m := Move(s, threads, t, pc, choice);
            && id < |m.shared.sessions|
            && (m.shared.sessions[id].once == s.sessions[id].once || m.shared.sessions[id].once in {Running(t), Done})
            && (if pc == Starting(id) then m.shared.sessions[id].bridge == threads && m.started == [Copying(id)]
                else m.shared.sessions[id].bridge == s.sessions[id].bridge)
            && (m.shared.sessions[id].installed && !s.sessions[id].installed ==> t == LOOP && m.pc == Announcing(id))
            && (pc == Announcing(id) ==> m.pc == Starting(id))
            && ((pc == Copying(id) || pc == Gone(id) || (pc.Ending? && pc.s == id)) && t != LOOP ==>
                  m.pc == Copying(id) || m.pc == Gone(id) || (m.pc.Ending? && m.pc.s == id))
  {
  }

  predicate CanStart(s: Shared, pc: Pc) {
    pc.Copying? && pc.s < |s.sessions| && s.sessions[pc.s].installed && OpenOk(pc.s) in s.events
  }

  lemma MoveStarts(s: Shared, threads: nat, t: nat, pc: Pc, choice: Choice)
    requires PcOk(s, t, pc)
    ensures var m := Move(s, threads, t, pc, choice);
            && |s.sessions| <= |m.shared.sessions| <= |s.sessions| + 1
            && (|m.shared.sessions| > |s.sessions| ==>
                  m.shared.sessions[|s.sessions|].once == Unused && !m.shared.sessions[|s.sessions|].installed)
            && |m.started| <= 1
            && (forall i :: 0 <= i < |m.started| ==> CanStart(m.shared, m.started[i]))
  {
  }

  lemma StepThreads(s: State, choice: Choice)
    requires Invariant(s) && choice.thread < |s.threads|
    ensures SharedOk(Step(s, choice).shared) && Threads(Step(s, choice))
    ensures Runners(Step(s, choice)) && LoopOk(Step(s, choice).shared, Step(s, choice).threads[LOOP])
  {
    hide Move, SharedOk, PcOk, LoopOk, EventsOk, Bridges, RunnerOk;
    var t, n, after := choice.thread, |s.threads|, Step(s, choice);
    var m := Move(s.shared, n, t, s.threads[t], choice);
    MoveKeepsOwn(s.shared, n, t, s.threads[t], choice);
    MoveKeepsLoop(s.shared, n, t, s.threads[t], choice, s.threads[LOOP]);
    StepRunners(s, choice);
    forall u | 0 <= u < |after.threads|
      ensures PcOk(after.shared, u, after.threads[u]) && RunnerOk(after.shared, u, after.threads[u])
    {
      if u >= n {
        NewBridgeOk(s, choice, u);
      } else if u != t {
        MoveKeepsOther(s.shared, n, t, s.threads[t], choice, u, s.threads[u]);
      }
    }
  }

  lemma StepRunners(s: State, choice: Choice)
    requires Runners(s) && Threads(s) && choice.thread < |s.threads|
    ensures forall id :: 0 <= id < |Step(s, choice).shared.sessions| && Step(s, choice).shared.sessions[id].once.Running? ==>
              Step(s, choice).shared.sessions[id].once.thread < |s.threads|
  {
    hide Move, PcOk;
    var t, n, after := choice.thread, |s.threads|, Step(s, choice);
    MoveStarts(s.shared, n, t, s.threads[t], choice);
    forall id | 0 <= id < |after.shared.sessions| && after.shared.sessions[id].once.Running?
      ensures after.shared.sessions[id].once.thread < n
    {
      if id < |s.shared.sessions| {
        MoveBridges(s.shared, n, t, s.threads[t], choice, id);
      }
    }
  }

  lemma NewBridgeOk(s: State, choice: Choice, u: nat)
    requires Runners(s) && Threads(s) && choice.thread < |s.threads| && LOOP < |s.threads| <= u < |Step(s, choice).threads|
    ensures PcOk(Step(s, choice).shared, u, Step(s, choice).threads[u])
    ensures RunnerOk(Step(s, choice).shared, u, Step(s, choice).threads[u])
  {
    hide Move;
    MoveStarts(s.shared, |s.threads|, choice.thread, s.threads[choice.thread], choice);
    StepRunners(s, choice);
  }

  lemma StepBridges(s: State, choice: Choice)
    requires Invariant(s) && choice.thread < |s.threads|
    ensures Bridges(Step(s, choice))
  {
    hide Move, SharedOk, LoopOk, EventsOk, RunnerOk, Bridges;
    var t, n, after := choice.thread, |s.threads|, Step(s, choice);
    MoveStarts(s.shared, n, t, s.threads[t], choice);
    forall id | 0 <= id < |after.shared.sessions| && after.shared.sessions[id].installed ensures BridgeOk(after, id) {
      StepBridge(s, choice, id);
    }
    BridgesIf(after);
  }

  lemma BridgesIf(s: State)
    requires |s.threads| > LOOP
    requires forall id :: 0 <= id < |s.shared.sessions| && s.shared.sessions[id].installed ==> BridgeOk(s, id)
    ensures Bridges(s)
  {
  }

  lemma StepBridge(s: State, choice: Choice, id: Id)
    requires Invariant(s) && choice.thread < |s.threads|
    requires id < |Step(s, choice).shared.sessions| && Step(s, choice).shared.sessions[id].installed
    ensures BridgeOk(Step(s, choice), id)
  {
    hide Move, SharedOk, LoopOk, EventsOk, RunnerOk;
    var t, n, after := choice.thread, |s.threads|, Step(s, choice);
    assert PcOk(s.shared, t, s.threads[t]);
    MoveStarts(s.shared, n, t, s.threads[t], choice);
    MoveBridges(s.shared, n, t, s.threads[t], choice, id);
    if s.shared.sessions[id].installed {
      assert BridgeOk(s, id);
      var b := s.shared.sessions[id].bridge;
      if t == LOOP && s.threads[LOOP] == Starting(id) {
        assert after.threads[n] == Copying(id);
      } else if LOOP < b < n && t == b {
        assert after.threads[b] == Move(s.shared, n, t, s.threads[t], choice).pc;
      }
    }
  }

  lemma StepKeepsInvariant(s: State, choice: Choice)
    requires Invariant(s)
    ensures Invariant(Step(s, choice))
  {
    hide Move, SharedOk, PcOk, LoopOk, EventsOk, Bridges, RunnerOk, Runners;
    var t := choice.thread;
    if t < |s.threads| {
      StepThreads(s, choice);
      StepBridges(s, choice);
      MoveEvents(s.shared, |s.threads|, t, s.threads[t], choice);
      var after := Step(s, choice).shared.events;
      if after != s.shared.events {
        FittingEvent(s.shared.events, after[|after| - 1]);
      }
    }
  }

  lemma {:induction false} Reachable(choices: seq<Choice>)
    ensures Invariant(Run(choices))
  {
    if choices != [] {
      hide Move, Invariant;
      Reachable(choices[..|choices| - 1]);
      StepKeepsInvariant(Run(choices[..|choices| - 1]), choices[|choices| - 1]);
    }
  }

  // ---- What follows, for every interleaving of commands and bridges ----------------------------

  // At most one terminal event per session, after its own `open` event, which also comes once.
  lemma EventsInOrder(choices: seq<Choice>)
    ensures EventsOk(Run(choices).shared.events)
  {
    Reachable(choices);
  }

  // At most one call of endSession for a session returns true; one does as soon as any returns.
  lemma EndedOnce(choices: seq<Choice>, id: Id)
    requires id < |Run(choices).shared.sessions|
    ensures var it := Run(choices).shared.sessions[id]; it.wins <= 1 && (it.wins == 1 <==> it.once == Done)
    ensures forall t :: 0 <= t < |Run(choices).threads| && Run(choices).threads[t] == Gone(id) ==>
              Run(choices).shared.sessions[id].wins == 1
  {
    Reachable(choices);
    var s := Run(choices);
    assert SessionOk(s.shared, id, s.shared.sessions[id]);
    forall t | 0 <= t < |s.threads| && s.threads[t] == Gone(id) ensures s.shared.sessions[id].wins == 1 {
      assert PcOk(s.shared, t, s.threads[t]);
    }
  }

  lemma MoveActive(s: Shared, threads: nat, t: nat, pc: Pc, choice: Choice, id: Id)
    requires PcOk(s, t, pc) && s.active == Some(id)
    ensures var after := Move(s, threads, t, pc, choice).shared;
            after.active == Some(id) || (pc.Ending? && pc.s == id && pc.phase == AtClear && after.sessions == s.sessions)
  {
  }

  // A session stops being active only while it is itself being ended, both its connections closed.
  lemma ActiveUntilClosed(choices: seq<Choice>, choice: Choice, id: Id)
    requires Run(choices).shared.active == Some(id)
    ensures var after := Run(choices + [choice]).shared;
            after.active == Some(id)
            || (id < |after.sessions| && after.sessions[id].once.Running?
                && !after.sessions[id].boardOpen && !after.sessions[id].clientOpen)
  {
    hide Move, SharedOk, LoopOk, EventsOk, Bridges, RunnerOk, Runners;
    Reachable(choices);
    assert (choices + [choice])[..|choices|] == choices;
    var s := Run(choices);
    if choice.thread < |s.threads| {
      assert PcOk(s.shared, choice.thread, s.threads[choice.thread]);
      MoveActive(s.shared, |s.threads|, choice.thread, s.threads[choice.thread], choice, id);
    }
  }

  // Of all sessions opened, only the active one has a connection open.
  lemma OthersClosed(choices: seq<Choice>, id: Id)
    requires var s := Run(choices).shared;
             id < |s.sessions| && s.sessions[id].installed && s.active != Some(id)
    ensures var it := Run(choices).shared.sessions[id]; !it.boardOpen && !it.clientOpen && it.once != Unused
  {
    Reachable(choices);
    assert SessionOk(Run(choices).shared, id, Run(choices).shared.sessions[id]);
  }

  // The second "port already opened" test never succeeds.
  lemma SecondTestNeverRefuses(choices: seq<Choice>)
    ensures var s := Run(choices);
            |s.threads| > LOOP && !s.threads[LOOP].Refusing? && (s.threads[LOOP].Installing? ==> s.shared.active.None?)
  {
    Reachable(choices);
    assert PcOk(Run(choices).shared, LOOP, Run(choices).threads[LOOP]);
  }

  // When the command loop has exited, every connection of every open attempt is closed.
  lemma AllClosedOnExit(choices: seq<Choice>, id: Id)
    requires var s := Run(choices); id < |s.shared.sessions| && |s.threads| > LOOP && s.threads[LOOP].Exited?
    ensures var it := Run(choices).shared.sessions[id]; !it.boardOpen && !it.clientOpen
  {
    Reachable(choices);
    var s := Run(choices);
    assert PcOk(s.shared, LOOP, s.threads[LOOP]) && SessionOk(s.shared, id, s.shared.sessions[id]);
  }

  // ---- The terminal event ------------------------------------------------------------------------

  function TerminalCount(events: seq<Event>, id: Id): nat {
    if events == [] then 0
    else TerminalCount(events[..|events| - 1], id) + if About(events[|events| - 1], id) then 1 else 0
  }

  // A bridge's end is reported as `port_closed`, a close command's as its answer, any other not at all.
  predicate EndedAs(events: seq<Event>, id: Id, caller: Caller) {
    && TerminalCount(events, id) == (if caller == Silent then 0 else 1)
    && (PortClosed(id) in events <==> caller == Bridge)
    && (CloseOk(id) in events <==> caller == CloseCommand)
  }

  ghost predicate DoneOk(s: State) {
    forall t :: 0 <= t < |s.threads| && s.threads[t].Ending? && s.threads[t].phase == AtDone ==>
      EndedAs(s.shared.events, s.threads[t].s, s.threads[t].caller)
  }

  lemma {:induction false} NoneTerminated(events: seq<Event>, id: Id)
    requires !Terminated(events, id)
    ensures TerminalCount(events, id) == 0
  {
    if events != [] {
      NoneTerminated(events[..|events| - 1], id);
    }
  }

  lemma OneMoreEvent(events: seq<Event>, e: Event, id: Id)
    ensures TerminalCount(events + [e], id) == TerminalCount(events, id) + if About(e, id) then 1 else 0
    ensures forall x :: x in events + [e] <==> x in events || x == e
  {
    assert (events + [e])[..|events|] == events;
  }

  // At most one more event, which is not the session's terminal one.
  predicate SaysNothing(events: seq<Event>, later: seq<Event>, id: Id) {
    || later == events
    || (|later| > 0 && later == events + [later[|later| - 1]] && !About(later[|later| - 1], id))
  }

  // Only the thread that runs a session's end, where it stands at `AtEmit`, says anything of that end.
  lemma MoveReports(s: Shared, threads: nat, t: nat, pc: Pc, choice: Choice, id: Id)
    requires PcOk(s, t, pc) && id < |s.sessions|
    ensures var m := Move(s, threads, t, pc, choice);
            && |m.shared.sessions| >= |s.sessions|
            && (if pc.Ending? && pc.s == id && pc.phase == AtEmit && pc.caller != Silent then
                  m.shared.events == s.events + [Terminal(pc.caller, id)]
                else SaysNothing(s.events, m.shared.events, id))
            && (m.pc.Ending? && m.pc.s == id && m.pc.phase == AtDone <==> pc.Ending? && pc.s == id && pc.phase == AtEmit)
            && (m.pc.Ending? && m.pc.s == id && m.pc.phase == AtDone ==> m.pc.caller == pc.caller)
            && (m.shared.sessions[id].once == Done <==>
                  s.sessions[id].once == Done || (pc.Ending? && pc.s == id && pc.phase == AtDone))
  {
  }

  // What has been said of a session's end stands, unless its own runner is still to say it.
  lemma ReportStands(s: State, choice: Choice, id: Id, caller: Caller)
    requires Invariant(s) && choice.thread < |s.threads| && id < |s.shared.sessions| && EndedAs(s.shared.events, id, caller)
    requires var pc := s.threads[choice.thread]; !(pc.Ending? && pc.s == id && pc.phase == AtEmit)
    ensures EndedAs(Step(s, choice).shared.events, id, caller)
  {
    hide Move, SharedOk, PcOk, LoopOk, EventsOk, Bridges, RunnerOk, Runners;
    assert PcOk(s.shared, choice.thread, s.threads[choice.thread]);
    MoveReports(s.shared, |s.threads|, choice.thread, s.threads[choice.thread], choice, id);
    var after := Step(s, choice).shared.events;
    if after != s.shared.events {
      OneMoreEvent(s.shared.events, after[|after| - 1], id);
    }
  }

  lemma ReportMade(s: State, choice: Choice)
    requires Invariant(s) && choice.thread < |s.threads|
    requires s.threads[choice.thread].Ending? && s.threads[choice.thread].phase == AtEmit
    ensures var pc := s.threads[choice.thread]; EndedAs(Step(s, choice).shared.events, pc.s, pc.caller)
  {
    hide Move, SharedOk, LoopOk, EventsOk, Bridges, RunnerOk, Runners;
    var pc := s.threads[choice.thread];
    assert PcOk(s.shared, choice.thread, pc);
    MoveReports(s.shared, |s.threads|, choice.thread, pc, choice, pc.s);
    NoneTerminated(s.shared.events, pc.s);
    OneMoreEvent(s.shared.events, Terminal(pc.caller, pc.s), pc.s);
  }

  // Two threads never run the same end.
  lemma OneRunner(s: State, t: nat, u: nat)
    requires Invariant(s) && t < |s.threads| && u < |s.threads| && t != u
    requires s.threads[t].Ending? && Won(s.threads[t].phase) && s.threads[u].Ending? && Won(s.threads[u].phase)
    ensures s.threads[t].s != s.threads[u].s
  {
    hide SharedOk, LoopOk, EventsOk, Bridges, RunnerOk, Runners;
    assert PcOk(s.shared, t, s.threads[t]) && PcOk(s.shared, u, s.threads[u]);
  }

  lemma StepDone(s: State, choice: Choice)
    requires Invariant(s) && DoneOk(s)
    ensures DoneOk(Step(s, choice))
  {
    hide Move, SharedOk, LoopOk, EventsOk, Bridges, RunnerOk, Runners, EndedAs;
    var t, after := choice.thread, Step(s, choice);
    if t < |s.threads| {
      MoveStarts(s.shared, |s.threads|, t, s.threads[t], choice);
      forall u | 0 <= u < |after.threads| && after.threads[u].Ending? && after.threads[u].phase == AtDone
        ensures EndedAs(after.shared.events, after.threads[u].s, after.threads[u].caller)
      {
        if u == t {
          OwnDone(s, choice);
        } else if u < |s.threads| {
          assert PcOk(s.shared, u, s.threads[u]);
          if s.threads[t].Ending? && s.threads[t].phase == AtEmit {
            OneRunner(s, t, u);
          }
          ReportStands(s, choice, s.threads[u].s, s.threads[u].caller);
        }
      }
    }
  }

  lemma OwnDone(s: State, choice: Choice)
    requires Invariant(s) && choice.thread < |s.threads|
    requires var pc := Step(s, choice).threads[choice.thread]; pc.Ending? && pc.phase == AtDone
    ensures var pc := Step(s, choice).threads[choice.thread]; EndedAs(Step(s, choice).shared.events, pc.s, pc.caller)
  {
    hide SharedOk, LoopOk, EventsOk, Bridges, RunnerOk, Runners, EndedAs;
    assert PcOk(s.shared, choice.thread, s.threads[choice.thread]);
    ReportMade(s, choice);
  }

  lemma {:induction false} DoneReachable(choices: seq<Choice>)
    ensures DoneOk(Run(choices))
  {
    if choices != [] {
      hide Move, Invariant, DoneOk;
      DoneReachable(choices[..|choices| - 1]);
      Reachable(choices[..|choices| - 1]);
      StepDone(Run(choices[..|choices| - 1]), choices[|choices| - 1]);
    }
  }

  // Who ended session `id`: the caller of the call of endSession that ran to its end.
  function WinnerOf(choices: seq<Choice>, id: Id): Option<Caller> {
    if choices == [] then None
    else
      var s, choice := Run(choices[..|choices| - 1]), choices[|choices| - 1];
      if choice.thread < |s.threads| && s.threads[choice.thread].Ending? && s.threads[choice.thread].s == id
         && s.threads[choice.thread].phase == AtDone
      then Some(s.threads[choice.thread].caller)
      else WinnerOf(choices[..|choices| - 1], id)
  }

  // A session that was ended has exactly the terminal event of the caller that ended it.
  lemma {:induction false} TerminalEvent(choices: seq<Choice>, id: Id)
    requires id < |Run(choices).shared.sessions|
    ensures var s, winner := Run(choices).shared, WinnerOf(choices, id);
            && (s.sessions[id].wins == 1 <==> winner.Some?)
            && (winner.Some? ==> EndedAs(s.events, id, winner.value))
  {
    hide Move, Invariant, EndedAs;
    EndedOnce(choices, id);
    if choices == [] {
    } else {
      var before, choice := choices[..|choices| - 1], choices[|choices| - 1];
      Reachable(before);
      EndedByStep(before, choice, id);
      if id < |Run(before).shared.sessions| {
        EndedOnce(before, id);
        TerminalEvent(before, id);
      } else {
        NotYetOpened(before, id);
      }
    }
  }

  lemma {:induction false} NotYetOpened(choices: seq<Choice>, id: Id)
    requires id >= |Run(choices).shared.sessions|
    ensures WinnerOf(choices, id) == None
  {
    hide Move, Invariant;
    if choices != [] {
      var before, choice := choices[..|choices| - 1], choices[|choices| - 1];
      Reachable(before);
      SessionsGrow(Run(before), choice, id);
      NotYetOpened(before, id);
    }
  }

  lemma SessionsGrow(s: State, choice: Choice, id: Id)
    requires Invariant(s) && id >= |Step(s, choice).shared.sessions|
    ensures id >= |s.shared.sessions|
    ensures choice.thread < |s.threads| ==> !(s.threads[choice.thread].Ending? && s.threads[choice.thread].s == id)
  {
    hide Move, SharedOk, LoopOk, EventsOk, Bridges, RunnerOk, Runners;
    if choice.thread < |s.threads| {
      assert PcOk(s.shared, choice.thread, s.threads[choice.thread]);
      MoveStarts(s.shared, |s.threads|, choice.thread, s.threads[choice.thread], choice);
    }
  }

  // One step: it ends the session, or leaves what was said of its end.
  lemma EndedByStep(before: seq<Choice>, choice: Choice, id: Id)
    requires Invariant(Run(before)) && id < |Step(Run(before), choice).shared.sessions|
    ensures var s, after := Run(before), Step(Run(before), choice);
            var ends := choice.thread < |s.threads| && s.threads[choice.thread].Ending?
                        && s.threads[choice.thread].s == id && s.threads[choice.thread].phase == AtDone;
            && (ends ==> after.shared.sessions[id].once == Done
                         && EndedAs(after.shared.events, id, s.threads[choice.thread].caller))
            && (!ends && id < |s.shared.sessions| ==>
                  (after.shared.sessions[id].once == Done <==> s.shared.sessions[id].once == Done))
            && (!ends && id >= |s.shared.sessions| ==> after.shared.sessions[id].once != Done)
            && (!ends && id < |s.shared.sessions| && s.shared.sessions[id].once == Done ==>
                  forall caller :: EndedAs(s.shared.events, id, caller) ==> EndedAs(after.shared.events, id, caller))
  {
    hide Move, SharedOk, LoopOk, EventsOk, Bridges, RunnerOk, Runners, EndedAs;
    var s, t := Run(before), choice.thread;
    if t < |s.threads| {
      assert PcOk(s.shared, t, s.threads[t]);
      MoveStarts(s.shared, |s.threads|, t, s.threads[t], choice);
      if id < |s.shared.sessions| {
        MoveReports(s.shared, |s.threads|, t, s.threads[t], choice, id);
        DoneReachable(before);
        forall caller | EndedAs(s.shared.events, id, caller)
                        && !(s.threads[t].Ending? && s.threads[t].s == id && s.threads[t].phase == AtEmit)
          ensures EndedAs(Step(s, choice).shared.events, id, caller)
        {
          ReportStands(s, choice, id, caller);
        }
      }
    }
  }

  // With the loop idle or gone and every bridge finished, every session opened was ended, by
  // exactly one caller, with the terminal event of that caller and no other, and none is active.
  lemma EndedExactlyOnce(choices: seq<Choice>, id: Id)
    requires var s := Run(choices);
             && id < |s.shared.sessions| && s.shared.sessions[id].installed
             && |s.threads| > LOOP && (s.threads[LOOP].Waiting? || s.threads[LOOP].Exited?)
             && forall t :: LOOP < t < |s.threads| ==> s.threads[t].Gone?
    ensures Run(choices).shared.sessions[id].wins == 1
    ensures Run(choices).shared.active != Some(id)
    ensures WinnerOf(choices, id).Some? && EndedAs(Run(choices).shared.events, id, WinnerOf(choices, id).value)
  {
    Reachable(choices);
    var s := Run(choices);
    assert BridgeOk(s, id) && SessionOk(s.shared, id, s.shared.sessions[id]);
    var b := s.shared.sessions[id].bridge;
    assert PcOk(s.shared, b, s.threads[b]);
    hide EndedAs;
    TerminalEvent(choices, id);
  }

  // ---- Answers -----------------------------------------------------------------------------------

  function Answers(events: seq<Event>): seq<Event> {
    if events == [] then []
    else
      var last := events[|events| - 1];
      Answers(events[..|events| - 1]) + if last.PortClosed? then [] else [last]
  }

  // The commands the loop has taken up that call for an answer.
  function Commands(choices: seq<Choice>): seq<Command> {
    if choices == [] then []
    else
      var s, choice := Run(choices[..|choices| - 1]), choices[|choices| - 1];
      Commands(choices[..|choices| - 1])
      + if choice.thread == LOOP < |s.threads| && s.threads[LOOP].Waiting? && choice.command in {Open, Close, Quit}
        then [choice.command] else []
  }

  predicate Suits(command: Command, e: Event) {
    match command
    case Open => e.OpenOk? || e.Failure?
    case Close => e.CloseOk? || e.Failure?
    case Quit => e.QuitOk?
    case _ => false
  }

  // The command the loop has still to answer.
  function Owed(pc: Pc): seq<Command> {
    match pc
    case Opening => [Open]
    case Dialling => [Open]
    case Calling(_) => [Open]
    case Installing(_) => [Open]
    case Refusing(_) => [Open]
    case Announcing(_) => [Open]
    case Looking(caller) => if caller == CloseCommand then [Close] else []
    case Ending(_, phase, caller) => if caller == CloseCommand && phase != AtDone then [Close] else []
    case _ => []
  }

  predicate Answered(commands: seq<Command>, answers: seq<Event>, owed: seq<Command>) {
    && |commands| == |answers| + |owed|
    && (forall k :: 0 <= k < |answers| ==> Suits(commands[k], answers[k]))
    && commands[|answers|..] == owed
  }

  lemma OneMoreAnswer(events: seq<Event>, e: Event)
    ensures Answers(events + [e]) == Answers(events) + if e.PortClosed? then [] else [e]
  {
    assert (events + [e])[..|events|] == events;
  }

  // What a step of the loop answers, and what it then owes.
  lemma MoveAnswers(s: Shared, threads: nat, t: nat, pc: Pc, choice: Choice)
    requires PcOk(s, t, pc)
    ensures var m := Move(s, threads, t, pc, choice);
            var taken := if t == LOOP && pc.Waiting? && choice.command in {Open, Close, Quit} then [choice.command] else [];
            || (m.shared.events == s.events && (t == LOOP ==> Owed(m.pc) == Owed(pc) + taken))
            || (|m.shared.events| > 0 && m.shared.events == s.events + [m.shared.events[|s.events|]]
                && var e := m.shared.events[|s.events|];
                   if t != LOOP then e.PortClosed?
                   else !e.PortClosed? && Owed(m.pc) == [] && |Owed(pc) + taken| == 1 && Suits((Owed(pc) + taken)[0], e))
  {
  }

  // Every command is answered, once, in order and by an event that suits it.
  lemma {:induction false} EveryCommandAnswered(choices: seq<Choice>)
    ensures |Run(choices).threads| > LOOP
    ensures Answered(Commands(choices), Answers(Run(choices).shared.events), Owed(Run(choices).threads[LOOP]))
  {
    Reachable(choices);
    if choices != [] {
      hide Move, Invariant, PcOk;
      var before, choice := choices[..|choices| - 1], choices[|choices| - 1];
      EveryCommandAnswered(before);
      AnswersStep(before, choice);
      assert choices == before + [choice];
    }
  }

  lemma TakenUp(commands: seq<Command>, answers: seq<Event>, owed: seq<Command>, taken: seq<Command>)
    requires Answered(commands, answers, owed)
    ensures Answered(commands + taken, answers, owed + taken)
  {
    assert (commands + taken)[|answers|..] == commands[|answers|..] + taken;
  }

  lemma AnswerGiven(commands: seq<Command>, answers: seq<Event>, owed: seq<Command>, e: Event)
    requires Answered(commands, answers, owed) && |owed| == 1 && Suits(owed[0], e)
    ensures Answered(commands, answers + [e], [])
  {
    assert commands[|answers|] == owed[0];
  }

  lemma AnswersStep(before: seq<Choice>, choice: Choice)
    requires |Run(before).threads| > LOOP
    requires Answered(Commands(before), Answers(Run(before).shared.events), Owed(Run(before).threads[LOOP]))
    ensures var after := Step(Run(before), choice);
            && |after.threads| > LOOP
            && Answered(Commands(before + [choice]), Answers(after.shared.events), Owed(after.threads[LOOP]))
  {
    hide Move, SharedOk, LoopOk, EventsOk, Bridges, RunnerOk, Runners, Suits, Owed, PcOk, Answered, Answers;
    var s, t := Run(before), choice.thread;
    assert (before + [choice])[..|before|] == before;
    Reachable(before);
    assert Commands(before) + [] == Commands(before);
    if t < |s.threads| {
      assert PcOk(s.shared, t, s.threads[t]);
      MoveAnswers(s.shared, |s.threads|, t, s.threads[t], choice);
      var after := Step(s, choice).shared.events;
      var takes := t == LOOP && s.threads[t].Waiting? && choice.command in {Open, Close, Quit};
      var taken := if takes then [choice.command] else [];
      assert Commands(before + [choice]) == Commands(before) + taken;
      if t == LOOP {
        TakenUp(Commands(before), Answers(s.shared.events), Owed(s.threads[LOOP]), taken);
      }
      if after != s.shared.events {
        OneMoreAnswer(s.shared.events, after[|s.shared.events|]);
        assert Answers(s.shared.events) + [] == Answers(s.shared.events);
        if t == LOOP {
          AnswerGiven(Commands(before) + taken, Answers(s.shared.events), Owed(s.threads[LOOP]) + taken,
                      after[|s.shared.events|]);
        }
      }
    }
  }

  // ---- No deadlock -------------------------------------------------------------------------------

  predicate Finished(pc: Pc) {
    pc.Waiting? || pc.Exited? || pc.Gone?
  }

  // Every thread in the middle of something can take a step, unless it waits for another one that is
  // running the end of the same session and is past the wait itself.
  lemma NeverStuck(choices: seq<Choice>, choice: Choice)
    requires choice.thread < |Run(choices).threads| && !Finished(Run(choices).threads[choice.thread])
    ensures var s, t := Run(choices), choice.thread;
            var pc := s.threads[t];
            && |Step(s, choice).threads| >= |s.threads|
            && (|| Step(s, choice).threads[t] != pc
                || (pc.Ending? && pc.phase == AtOnce
                    && exists u :: 0 <= u < |s.threads| && u != t && s.threads[u].Ending? && s.threads[u].s == pc.s
                                   && Won(s.threads[u].phase)))
  {
    hide SharedOk, LoopOk, EventsOk, Bridges;
    Reachable(choices);
    var s, t := Run(choices), choice.thread;
    var pc := s.threads[t];
    assert PcOk(s.shared, t, pc) && RunnerOk(s.shared, t, pc);
    if pc.Ending? && pc.phase == AtOnce && s.shared.sessions[pc.s].once.Running? {
      var u := s.shared.sessions[pc.s].once.thread;
      assert RunnerOk(s.shared, u, s.threads[u]);
    }
  }

  // ---- An uninterrupted open, and an uninterrupted close -------------------------------------------

  // `k` steps of the loop on its own with every dial succeeding.
  function Solo(s: State, command: Command, k: nat): State {
    if k == 0 then s else Step(Solo(s, command, k - 1), Choice(LOOP, command, true))
  }

  // With no session active an OPEN whose dials succeed announces a new session, makes it the active
  // one and starts its two bridges.
  lemma OpenSucceeds(choices: seq<Choice>)
    requires |Run(choices).threads| > LOOP && Run(choices).threads[LOOP].Waiting? && Run(choices).shared.active.None?
    ensures var s := Run(choices);
            var id, after := |s.shared.sessions|, Solo(s, Open, 8);
            && after.threads == s.threads + [Copying(id), Copying(id)] && after.shared.active == Some(id)
            && after.shared.events == s.shared.events + [OpenOk(id)]
            && after.shared.sessions == s.shared.sessions + [Session(true, true, true, Unused, 0, |s.threads|)]
  {
    var s := Run(choices);
    OpenDials(s);
    OpenInstalls(s);
  }

  // With both dials made and the session about to be installed.
  function Dialled(s: State): State
    requires |s.threads| > LOOP
  {
    State(s.shared.(sessions := s.shared.sessions + [Session(true, true, false, Unused, 0, 0)]),
          s.threads[LOOP := Installing(|s.shared.sessions|)])
  }

  lemma OpenDials(s: State)
    requires |s.threads| > LOOP && s.threads[LOOP].Waiting? && s.shared.active.None?
    ensures Solo(s, Open, 4) == Dialled(s)
  {
    var id, sh := |s.shared.sessions|, s.shared;
    var one := sh.(sessions := sh.sessions + [Session(true, false, false, Unused, 0, 0)]);
    assert Solo(s, Open, 0) == s;
    assert Solo(s, Open, 1) == State(sh, s.threads[LOOP := Opening]);
    assert Solo(s, Open, 2) == State(sh, s.threads[LOOP := Dialling]);
    assert Solo(s, Open, 3) == State(one, s.threads[LOOP := Calling(id)]);
    assert sh.sessions + [Session(true, true, false, Unused, 0, 0)]
           == one.sessions[id := one.sessions[id].(clientOpen := true)];
  }

  lemma OpenInstalls(s: State)
    requires |s.threads| > LOOP && s.threads[LOOP].Waiting? && s.shared.active.None? && Solo(s, Open, 4) == Dialled(s)
    ensures var id, after := |s.shared.sessions|, Solo(s, Open, 8);
            && after.threads == s.threads + [Copying(id), Copying(id)] && after.shared.active == Some(id)
            && after.shared.events == s.shared.events + [OpenOk(id)]
            && after.shared.sessions == s.shared.sessions + [Session(true, true, true, Unused, 0, |s.threads|)]
  {
    var id := |s.shared.sessions|;
    var d, go := Dialled(s), Choice(LOOP, Open, true);
    AnnounceSteps(d, id);
    var a := Step(Step(d, go), go);
    assert Solo(s, Open, 5) == Step(d, go) && Solo(s, Open, 6) == a;
    BridgeSteps(a, id);
    hide Step;
    assert Solo(s, Open, 7) == Step(a, go) && Solo(s, Open, 8) == Step(Step(a, go), go);
    var done := Session(true, true, true, Unused, 0, |s.threads|);
    assert d.shared.sessions[id := done] == s.shared.sessions + [done];
    assert d.threads[LOOP := Waiting] == s.threads;
  }

  // A session is made the active one and announced.
  lemma AnnounceSteps(d: State, id: Id)
    requires |d.threads| > LOOP && d.threads[LOOP] == Installing(id) && d.shared.active.None? && id < |d.shared.sessions|
    ensures var go, it := Choice(LOOP, Open, true), d.shared.sessions[id].(installed := true);
            Step(Step(d, go), go)
            == State(Shared(Some(id), d.shared.sessions[id := it], d.shared.events + [OpenOk(id)]),
                     d.threads[LOOP := Starting(id)])
  {
    var go, it := Choice(LOOP, Open, true), d.shared.sessions[id].(installed := true);
    assert Step(d, go)
           == State(Shared(Some(id), d.shared.sessions[id := it], d.shared.events), d.threads[LOOP := Announcing(id)]);
  }

  // Its two bridges are started.
  lemma BridgeSteps(a: State, id: Id)
    requires |a.threads| > LOOP && a.threads[LOOP] == Starting(id) && id < |a.shared.sessions|
    ensures var go, it := Choice(LOOP, Open, true), a.shared.sessions[id].(bridge := |a.threads|);
            Step(Step(a, go), go)
            == State(a.shared.(sessions := a.shared.sessions[id := it]),
                     a.threads[LOOP := Waiting] + [Copying(id), Copying(id)])
  {
    var go, it := Choice(LOOP, Open, true), a.shared.sessions[id].(bridge := |a.threads|);
    var first := a.threads[LOOP := StartingSecond(id)] + [Copying(id)];
    assert Step(a, go) == State(a.shared.(sessions := a.shared.sessions[id := it]), first);
    assert first[LOOP := Waiting] + [Copying(id)] == a.threads[LOOP := Waiting] + [Copying(id), Copying(id)];
  }
}
