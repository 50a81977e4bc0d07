/**
  The condition variable of os2threads.h: a count of waiters and two event semaphores that reset
  themselves when they release a thread. Each step is one atomic operation of one thread.

  The reference is a monitor with rounds of four events: a signaller posts, one blocked thread passes
  and leaves, the signaller is done. Every run in which signallers hold the mutex is one of its runs.
 */
module CondVars {
  import opened Options

  /** When pthread_cond_signal and pthread_cond_broadcast may be called. Exclusive: while no such call is under way. */
  datatype Rule = UnderMutex | Exclusive | Anywhere

  /** A signal of its own, or a round of a broadcast. */
  datatype Call = Single | Round

  datatype Pc =
    | Outside                               // outside every call, without the mutex
    | Holding                               // outside every call, with the mutex
    | Counted                               // wait: counted, about to unlock the mutex
    | Blocked                               // wait: in the wait for the event semaphore
    | Woken                                 // wait: released, about to decrement the count
    | Uncounted                             // wait: about to post the acknowledgement
    | Relocking                             // wait: about to lock the mutex
    | Looping(held: bool)                   // broadcast: about to test the count
    | Checking(held: bool, call: Call)      // signal: about to test the count
    | Posting(held: bool, call: Call)       // signal: about to post the event
    | Acknowledging(held: bool, call: Call) // signal: in the wait for the acknowledgement

  /** What an observer sees, in order. */
  datatype Event =
    | Entered(thread: nat)
    | Posted(signaller: nat)
    | Passed(thread: nat)
    | Left(thread: nat)
    | Done(signaller: nat)
    | Began(signaller: nat, waiters: int)
    | AllWoken(signaller: nat)

  datatype State = State(pcs: seq<Pc>, owner: Option<nat>, event: bool, ack: bool, count: int, log: seq<Event>)

  datatype Act =
    | Lock | Unlock
    | Enter | Release | Pass | Decrement | Acknowledge | Relock
    | Signal | Broadcast | TestLoop | TestCount | PostEvent | TakeAck

  datatype Step = Step(thread: nat, act: Act)

  function Start(threads: nat): State {
    State(seq(threads, _ => Outside), None, false, false, 0, [])
  }

  predicate Signalling(pc: Pc) {
    pc.Looping? || pc.Checking? || pc.Posting? || pc.Acknowledging?
  }

  predicate MaySignal(rule: Rule, pcs: seq<Pc>, t: nat)
    requires t < |pcs|
  {
    match rule
    case UnderMutex => pcs[t].Holding?
    case Exclusive => (pcs[t].Holding? || pcs[t].Outside?) && forall u :: 0 <= u < |pcs| ==> !Signalling(pcs[u])
    case Anywhere => pcs[t].Holding? || pcs[t].Outside?
  }

  predicate Enabled(rule: Rule, s: State, step: Step) {
    step.thread < |s.pcs| &&
    var pc := s.pcs[step.thread];
    match step.act
    case Lock => pc.Outside? && s.owner.None?
    case Unlock => pc.Holding?
    case Enter => pc.Holding?
    case Release => pc.Counted?
    case Pass => pc.Blocked? && s.event
    case Decrement => pc.Woken?
    case Acknowledge => pc.Uncounted?
    case Relock => pc.Relocking? && s.owner.None?
    case Signal => MaySignal(rule, s.pcs, step.thread)
    case Broadcast => MaySignal(rule, s.pcs, step.thread)
    case TestLoop => pc.Looping?
    case TestCount => pc.Checking?
    case PostEvent => pc.Posting?
    case TakeAck => pc.Acknowledging? && s.ack
  }

  /** Where a signal returns to. */
  function Return(held: bool, call: Call): Pc {
    match call
    case Single => if held then Holding else Outside
    case Round => Looping(held)
  }

  function Do(rule: Rule, s: State, step: Step): State
    requires Enabled(rule, s, step)
  {
    var t := step.thread;
    var pc := s.pcs[t];
    match step.act
    case Lock => s.(pcs := s.pcs[t := Holding], owner := Some(t))
    case Unlock => s.(pcs := s.pcs[t := Outside], owner := None)
    case Enter => s.(pcs := s.pcs[t := Counted], count := s.count + 1, log := s.log + [Entered(t)])
    case Release => s.(pcs := s.pcs[t := Blocked], owner := None)
    case Pass => s.(pcs := s.pcs[t := Woken], event := false, log := s.log + [Passed(t)])
    case Decrement => s.(pcs := s.pcs[t := Uncounted], count := s.count - 1, log := s.log + [Left(t)])
    case Acknowledge => s.(pcs := s.pcs[t := Relocking], ack := true)
    case Relock => s.(pcs := s.pcs[t := Holding], owner := Some(t))
    case Signal => s.(pcs := s.pcs[t := Checking(pc.Holding?, Single)])
    case Broadcast => s.(pcs := s.pcs[t := Looping(pc.Holding?)], log := s.log + [Began(t, s.count)])
    case TestLoop =>
      if s.count != 0 then s.(pcs := s.pcs[t := Checking(pc.held, Round)])
      else s.(pcs := s.pcs[t := if pc.held then Holding else Outside], log := s.log + [AllWoken(t)])
    case TestCount =>
      if s.count != 0 then s.(pcs := s.pcs[t := Posting(pc.held, pc.call)])
      else s.(pcs := s.pcs[t := Return(pc.held, pc.call)])
    case PostEvent => s.(pcs := s.pcs[t := Acknowledging(pc.held, pc.call)], event := true, log := s.log + [Posted(t)])
    case TakeAck => s.(pcs := s.pcs[t := Return(pc.held, pc.call)], ack := false, log := s.log + [Done(t)])
  }

  /** The state after a sequence of steps, if each was possible. */
  function Exec(rule: Rule, s: State, steps: seq<Step>): Option<State> {
    if steps == [] then Some(s)
    else
      var before := Exec(rule, s, steps[..|steps| - 1]);
      if before.None? || !Enabled(rule, before.value, steps[|steps| - 1]) then None
      else Some(Do(rule, before.value, steps[|steps| - 1]))
  }

  // ---- the reference monitor -------------------------------------------------------------------

  datatype Phase =
    | Quiet
    | Woke(signaller: nat)                   // posted; nobody has passed yet
    | Passing(signaller: nat, thread: nat)   // thread has passed, and still counts as blocked
    | Departed(signaller: nat, thread: nat)  // thread no longer counts

  /** A broadcast under way: how many waited when it began, and how many rounds it has done. */
  datatype Session = Nobody | Session(signaller: nat, waiters: int, rounds: nat)

  datatype Monitor = Monitor(blocked: set<nat>, phase: Phase, session: Session)

  predicate Accepts(m: Monitor, e: Event) {
    match e
    case Entered(t) => m.phase.Quiet? && t !in m.blocked && m.session.Nobody?
    case Posted(t) => m.phase.Quiet? && m.blocked != {} && (m.session.Session? ==> m.session.signaller == t)
    case Passed(t) => m.phase.Woke? && t in m.blocked
    case Left(t) => m.phase.Passing? && m.phase.thread == t
    case Done(t) => m.phase.Departed? && m.phase.signaller == t
    case Began(t, waiters) => m.phase.Quiet? && m.session.Nobody? && waiters == |m.blocked|
    case AllWoken(t) =>
      && m.phase.Quiet? && m.blocked == {}
      && m.session.Session? && m.session.signaller == t && m.session.rounds == m.session.waiters
  }

  function After(m: Monitor, e: Event): Monitor
    requires Accepts(m, e)
  {
    match e
    case Entered(t) => m.(blocked := m.blocked + {t})
    case Posted(t) => m.(phase := Woke(t))
    case Passed(t) => m.(phase := Passing(m.phase.signaller, t))
    case Left(t) => m.(blocked := m.blocked - {t}, phase := Departed(m.phase.signaller, t))
    case Done(t) =>
      m.(phase := Quiet, session := if m.session.Session? then m.session.(rounds := m.session.rounds + 1) else Nobody)
    case Began(t, waiters) => m.(session := Session(t, waiters, 0))
    case AllWoken(t) => m.(session := Nobody)
  }

  /** The monitor after a log, if the log is one of its runs. */
  function Replay(log: seq<Event>): Option<Monitor> {
    if log == [] then Some(Monitor({}, Quiet, Nobody))
    else
      var before := Replay(log[..|log| - 1]);
      if before.None? || !Accepts(before.value, log[|log| - 1]) then None
      else Some(After(before.value, log[|log| - 1]))
  }

  lemma ReplayAppend(log: seq<Event>, e: Event)
    requires Replay(log).Some? && Accepts(Replay(log).value, e)
    ensures Replay(log + [e]) == Some(After(Replay(log).value, e))
  {
    assert (log + [e])[..|log + [e]| - 1] == log;
  }

  // ---- the invariant ---------------------------------------------------------------------------

  predicate Holds(pc: Pc) {
    pc.Holding? || pc.Counted? || (Signalling(pc) && pc.held)
  }

  predicate Counts(pc: Pc) {
    pc.Counted? || pc.Blocked? || pc.Woken?
  }

  /** The owner of the mutex is the one thread that holds it, and every signaller holds it. */
  predicate MutexInv(pcs: seq<Pc>, owner: Option<nat>) {
    forall t :: 0 <= t < |pcs| ==> (Holds(pcs[t]) <==> owner == Some(t)) && (Signalling(pcs[t]) ==> pcs[t].held)
  }

  /** wait_count counts the threads between their increment and their decrement. */
  ghost predicate CountInv(pcs: seq<Pc>, count: int, blocked: set<nat>) {
    && (forall t: nat {:trigger t in blocked} :: t in blocked <==> t < |pcs| && Counts(pcs[t]))
    && count == |blocked|
  }

  function Signaller(phase: Phase): Option<nat> {
    if phase.Quiet? then None else Some(phase.signaller)
  }

  /**
    The one wake-up there can be: an event posted, or a thread past the event, or an acknowledgement.
    Only the signaller it belongs to waits for it.
   */
  predicate TokenInv(pcs: seq<Pc>, event: bool, ack: bool, phase: Phase) {
    && event == phase.Woke?
    && (ack ==> phase.Departed?)
    && forall t :: 0 <= t < |pcs| ==>
         && (pcs[t].Acknowledging? <==> Signaller(phase) == Some(t))
         && (pcs[t].Woken? <==> phase.Passing? && phase.thread == t)
         && (pcs[t].Uncounted? <==> phase.Departed? && phase.thread == t && !ack)
  }

  /** The threads a phase names exist. */
  predicate PhaseInv(n: nat, phase: Phase) {
    && (!phase.Quiet? ==> phase.signaller < n)
    && (phase.Passing? || phase.Departed? ==> phase.thread < n)
  }

  /** The count that a signaller has found is still there. */
  predicate CheckedInv(pcs: seq<Pc>, count: int) {
    forall t :: 0 <= t < |pcs| && (pcs[t].Posting? || (pcs[t].Checking? && pcs[t].call.Round?)) ==> count > 0
  }

  predicate Broadcasting(pc: Pc) {
    pc.Looping? || ((pc.Checking? || pc.Posting? || pc.Acknowledging?) && pc.call.Round?)
  }

  /** Rounds done plus waiters left is what the broadcast under way started with. */
  predicate SessionInv(pcs: seq<Pc>, count: int, phase: Phase, session: Session) {
    && (forall t :: 0 <= t < |pcs| ==> (Broadcasting(pcs[t]) <==> session.Session? && session.signaller == t))
    && (session.Session? ==>
          && session.signaller < |pcs|
          && session.waiters == session.rounds + count + (if phase.Departed? then 1 else 0))
  }

  ghost predicate Inv(s: State) {
    && Replay(s.log).Some?
    && var m := Replay(s.log).value;
    && MutexInv(s.pcs, s.owner)
    && CountInv(s.pcs, s.count, m.blocked)
    && TokenInv(s.pcs, s.event, s.ack, m.phase)
    && PhaseInv(|s.pcs|, m.phase)
    && CheckedInv(s.pcs, s.count)
    && SessionInv(s.pcs, s.count, m.phase, m.session)
  }

  /** While a signaller waits or a broadcast is under way its thread owns the mutex; nobody else enters or signals. */
  lemma OwnerOfPhase(s: State)
    requires Inv(s)
    ensures var m := Replay(s.log).value;
            && (!m.phase.Quiet? ==> s.owner == Some(m.phase.signaller))
            && (m.session.Session? ==> s.owner == Some(m.session.signaller))
  {
  }

  lemma MutexStep(s: State, step: Step)
    requires Inv(s) && Enabled(UnderMutex, s, step)
    ensures MutexInv(Do(UnderMutex, s, step).pcs, Do(UnderMutex, s, step).owner)
  {
  }

  lemma LockStep(s: State, step: Step)
    requires Inv(s) && Enabled(UnderMutex, s, step) && (step.act.Lock? || step.act.Unlock? || step.act.Relock?)
    ensures Inv(Do(UnderMutex, s, step))
  {
    MutexStep(s, step);
    OwnerOfPhase(s);
  }

  lemma SignalStep(s: State, step: Step)
    requires Inv(s) && Enabled(UnderMutex, s, step) && (step.act.Signal? || step.act.TestCount?)
    ensures Inv(Do(UnderMutex, s, step))
  {
    MutexStep(s, step);
    OwnerOfPhase(s);
  }

  /** A thread that starts to broadcast is the only one that signals. */
  lemma SessionStarts(s: State, t: nat)
    requires Inv(s) && t < |s.pcs| && s.pcs[t].Holding?
    ensures var m, pcs := Replay(s.log).value, s.pcs[t := Looping(true)];
            && m.phase.Quiet? && m.session.Nobody?
            && CountInv(pcs, s.count, m.blocked) && TokenInv(pcs, s.event, s.ack, m.phase) && CheckedInv(pcs, s.count)
            && SessionInv(pcs, s.count, m.phase, Session(t, s.count, 0))
  {
    OwnerOfPhase(s);
  }

  lemma BroadcastStep(s: State, step: Step)
    requires Inv(s) && Enabled(UnderMutex, s, step) && step.act.Broadcast?
    ensures Inv(Do(UnderMutex, s, step))
  {
    MutexStep(s, step);
    SessionStarts(s, step.thread);
    ReplayAppend(s.log, Began(step.thread, s.count));
  }

  lemma EnterStep(s: State, step: Step)
    requires Inv(s) && Enabled(UnderMutex, s, step) && step.act.Enter?
    ensures Inv(Do(UnderMutex, s, step))
  {
    MutexStep(s, step);
    OwnerOfPhase(s);
    var m, after := Replay(s.log).value, Do(UnderMutex, s, step);
    assert m.phase.Quiet?;
    ReplayAppend(s.log, Entered(step.thread));
    assert CountInv(after.pcs, after.count, m.blocked + {step.thread});
    assert forall t :: 0 <= t < |after.pcs| ==> !Signalling(after.pcs[t]);
  }

  lemma ReleaseStep(s: State, step: Step)
    requires Inv(s) && Enabled(UnderMutex, s, step) && (step.act.Release? || step.act.Acknowledge?)
    ensures Inv(Do(UnderMutex, s, step))
  {
    MutexStep(s, step);
    OwnerOfPhase(s);
  }

  lemma PassStep(s: State, step: Step)
    requires Inv(s) && Enabled(UnderMutex, s, step) && step.act.Pass?
    ensures Inv(Do(UnderMutex, s, step))
  {
    MutexStep(s, step);
    OwnerOfPhase(s);
    ReplayAppend(s.log, Passed(step.thread));
  }

  lemma DecrementStep(s: State, step: Step)
    requires Inv(s) && Enabled(UnderMutex, s, step) && step.act.Decrement?
    ensures Inv(Do(UnderMutex, s, step))
  {
    MutexStep(s, step);
    OwnerOfPhase(s);
    ReplayAppend(s.log, Left(step.thread));
  }

  lemma TestLoopStep(s: State, step: Step)
    requires Inv(s) && Enabled(UnderMutex, s, step) && step.act.TestLoop?
    ensures Inv(Do(UnderMutex, s, step))
  {
    MutexStep(s, step);
    OwnerOfPhase(s);
    if s.count == 0 {
      ReplayAppend(s.log, AllWoken(step.thread));
    }
  }

  lemma PostStep(s: State, step: Step)
    requires Inv(s) && Enabled(UnderMutex, s, step) && step.act.PostEvent?
    ensures Inv(Do(UnderMutex, s, step))
  {
    MutexStep(s, step);
    OwnerOfPhase(s);
    ReplayAppend(s.log, Posted(step.thread));
  }

  lemma TakeAckStep(s: State, step: Step)
    requires Inv(s) && Enabled(UnderMutex, s, step) && step.act.TakeAck?
    ensures Inv(Do(UnderMutex, s, step))
  {
    MutexStep(s, step);
    OwnerOfPhase(s);
    ReplayAppend(s.log, Done(step.thread));
  }

  lemma StepKeepsInv(s: State, step: Step)
    requires Inv(s) && Enabled(UnderMutex, s, step)
    ensures Inv(Do(UnderMutex, s, step))
  {
    match step.act
    case Broadcast => BroadcastStep(s, step);
    case Enter => EnterStep(s, step);
    case Release => ReleaseStep(s, step);
    case Acknowledge => ReleaseStep(s, step);
    case Pass => PassStep(s, step);
    case Decrement => DecrementStep(s, step);
    case TestLoop => TestLoopStep(s, step);
    case PostEvent => PostStep(s, step);
    case TakeAck => TakeAckStep(s, step);
    case Signal => SignalStep(s, step);
    case TestCount => SignalStep(s, step);
    case _ => LockStep(s, step);
  }

  /** Every interleaving of threads that signal under the mutex keeps the invariant. */
  lemma {:induction false} Reachable(threads: nat, steps: seq<Step>)
    requires Exec(UnderMutex, Start(threads), steps).Some?
    ensures Inv(Exec(UnderMutex, Start(threads), steps).value)
  {
    if steps != [] {
      var before := steps[..|steps| - 1];
      Reachable(threads, before);
      StepKeepsInv(Exec(UnderMutex, Start(threads), before).value, steps[|steps| - 1]);
    }
  }

  // ---- what the runs look like -----------------------------------------------------------------

  /** The phase spells out the end of the log: the three parts of a round are next to each other. */
  predicate PhaseSpells(log: seq<Event>, phase: Phase) {
    var n := |log|;
    match phase
    case Quiet => true
    case Woke(s) => n >= 1 && log[n - 1] == Posted(s)
    case Passing(s, t) => n >= 2 && log[n - 2] == Posted(s) && log[n - 1] == Passed(t)
    case Departed(s, t) => n >= 3 && log[n - 3] == Posted(s) && log[n - 2] == Passed(t) && log[n - 1] == Left(t)
  }

  lemma {:induction false} ReplaySpells(log: seq<Event>)
    requires Replay(log).Some?
    ensures PhaseSpells(log, Replay(log).value.phase)
  {
    if log != [] {
      ReplaySpells(log[..|log| - 1]);
    }
  }

  /** Every prefix of an accepted log is accepted, and accepts its next event. */
  lemma {:induction false} ReplayPrefix(log: seq<Event>, i: nat)
    requires i < |log| && Replay(log).Some?
    ensures Replay(log[..i]).Some? && Accepts(Replay(log[..i]).value, log[i])
    ensures Replay(log[..i + 1]) == Some(After(Replay(log[..i]).value, log[i]))
    decreases |log|
  {
    var before := log[..|log| - 1];
    if i < |before| {
      ReplayPrefix(before, i);
      assert before[..i] == log[..i] && before[..i + 1] == log[..i + 1];
    } else {
      assert log[..i] == before && log[..i + 1] == log;
    }
  }

  /** The threads that were counted before entry i of an accepted log. */
  function BlockedAt(log: seq<Event>, i: nat): set<nat>
    requires i <= |log| && Replay(log[..i]).Some?
  {
    Replay(log[..i]).value.blocked
  }

  /** A signal that is done has, since its post, released exactly one thread, which has stopped counting. */
  lemma SignalWakesOne(threads: nat, steps: seq<Step>, i: nat)
    requires Exec(UnderMutex, Start(threads), steps).Some?
    requires var log := Exec(UnderMutex, Start(threads), steps).value.log; i < |log| && log[i].Done?
    ensures var log := Exec(UnderMutex, Start(threads), steps).value.log;
            && i >= 3 && log[i - 3] == Posted(log[i].signaller)
            && log[i - 2].Passed? && log[i - 1] == Left(log[i - 2].thread)
            && Replay(log[..i - 3]).Some? && Replay(log[..i + 1]).Some?
            && log[i - 2].thread in BlockedAt(log, i - 3)
            && BlockedAt(log, i + 1) == BlockedAt(log, i - 3) - {log[i - 2].thread}
  {
    Reachable(threads, steps);
    var log := Exec(UnderMutex, Start(threads), steps).value.log;
    ReplayPrefix(log, i);
    ReplaySpells(log[..i]);
    ReplayPrefix(log, i - 3);
    ReplayPrefix(log, i - 2);
    ReplayPrefix(log, i - 1);
    assert i - 3 + 1 == i - 2 && i - 2 + 1 == i - 1 && i - 1 + 1 == i;
  }

  /** No thread passes its wait without a post of its own right before. */
  lemma NoWakeWithoutPost(threads: nat, steps: seq<Step>, i: nat)
    requires Exec(UnderMutex, Start(threads), steps).Some?
    requires var log := Exec(UnderMutex, Start(threads), steps).value.log; i < |log| && log[i].Passed?
    ensures i >= 1 && Exec(UnderMutex, Start(threads), steps).value.log[i - 1].Posted?
  {
    Reachable(threads, steps);
    var log := Exec(UnderMutex, Start(threads), steps).value.log;
    ReplayPrefix(log, i);
    ReplaySpells(log[..i]);
  }

  /** How many events of a round a phase stands for. */
  function Events(phase: Phase): nat {
    match phase
    case Quiet => 0
    case Woke(_) => 1
    case Passing(_, _) => 2
    case Departed(_, _) => 3
  }

  /** Since a broadcast began there is nothing in the log but its rounds, of four events each. */
  predicate SessionSpells(log: seq<Event>, m: Monitor) {
    m.session.Session? ==>
      var at := |log| - 1 - 4 * m.session.rounds - Events(m.phase);
      at >= 0 && log[at] == Began(m.session.signaller, m.session.waiters)
  }

  lemma SessionGoesOn(log: seq<Event>, m: Monitor, e: Event)
    requires SessionSpells(log, m) && Accepts(m, e)
    ensures SessionSpells(log + [e], After(m, e))
  {
    assert forall k :: 0 <= k < |log| ==> (log + [e])[k] == log[k];
  }

  lemma {:induction false} ReplaySessions(log: seq<Event>)
    requires Replay(log).Some?
    ensures SessionSpells(log, Replay(log).value)
  {
    if log != [] {
      var before, e := log[..|log| - 1], log[|log| - 1];
      ReplaySessions(before);
      SessionGoesOn(before, Replay(before).value, e);
      assert before + [e] == log;
    }
  }

  /** Where in an accepted log the broadcast began that ends at entry i. */
  lemma SessionStart(log: seq<Event>, i: nat) returns (start: nat, waiters: nat)
    requires i < |log| && Replay(log).Some? && log[i].AllWoken?
    ensures i == start + 1 + 4 * waiters && log[start] == Began(log[i].signaller, waiters)
    ensures Replay(log[..i]).Some? && BlockedAt(log, i) == {}
  {
    ReplayPrefix(log, i);
    ReplaySessions(log[..i]);
    waiters := Replay(log[..i]).value.session.rounds;
    start := i - 1 - 4 * waiters;
    assert log[..i][start] == log[start];
  }

  /** A broadcast takes exactly as many rounds as there were waiters when it began, and leaves none. */
  lemma BroadcastWakesAll(threads: nat, steps: seq<Step>, i: nat) returns (start: nat, waiters: nat)
    requires Exec(UnderMutex, Start(threads), steps).Some?
    requires var log := Exec(UnderMutex, Start(threads), steps).value.log; i < |log| && log[i].AllWoken?
    ensures var log := Exec(UnderMutex, Start(threads), steps).value.log;
            && i == start + 1 + 4 * waiters && log[start] == Began(log[i].signaller, waiters)
            && Replay(log[..start]).Some? && |BlockedAt(log, start)| == waiters
            && Replay(log[..i]).Some? && BlockedAt(log, i) == {}
  {
    Reachable(threads, steps);
    var log := Exec(UnderMutex, Start(threads), steps).value.log;
    start, waiters := SessionStart(log, i);
    ReplayPrefix(log, start);
  }

  /** Outside a round both semaphores are reset, and wait_count is the number of threads still waiting. */
  lemma QuietOutsideRounds(threads: nat, steps: seq<Step>)
    requires Exec(UnderMutex, Start(threads), steps).Some?
    ensures var s := Exec(UnderMutex, Start(threads), steps).value;
            && Replay(s.log).Some? && s.count == |Replay(s.log).value.blocked|
            && ((forall t :: 0 <= t < |s.pcs| ==> !s.pcs[t].Acknowledging?) ==> !s.event && !s.ack)
  {
    Reachable(threads, steps);
    var s := Exec(UnderMutex, Start(threads), steps).value;
    var phase := Replay(s.log).value.phase;
    if !phase.Quiet? {
      assert s.pcs[phase.signaller].Acknowledging?;
    }
  }

  // ---- a signal always gets its acknowledgement ------------------------------------------------

  /** How many steps of the handshake are missing. */
  function Missing(s: State): nat
    requires Replay(s.log).Some?
  {
    match Replay(s.log).value.phase
    case Quiet => 0
    case Woke(_) => 4
    case Passing(_, _) => 3
    case Departed(_, _) => if s.ack then 1 else 2
  }

  /** Thread t has returned from its signal, and both semaphores are reset. */
  predicate Returned(s: State, s': State, t: nat)
    requires t < |s.pcs| && s.pcs[t].Acknowledging?
  {
    |s'.pcs| == |s.pcs| && s'.pcs[t] == Return(s.pcs[t].held, s.pcs[t].call) && !s'.event && !s'.ack
  }

  predicate SameAt(s: State, s': State, t: nat)
    requires t < |s.pcs|
  {
    |s'.pcs| == |s.pcs| && s'.pcs[t] == s.pcs[t]
  }

  /** While a signaller waits, some thread can take the next step of the handshake. */
  lemma NeverStuck(s: State, t: nat) returns (step: Step)
    requires Inv(s) && t < |s.pcs| && s.pcs[t].Acknowledging?
    ensures Enabled(UnderMutex, s, step) && Inv(Do(UnderMutex, s, step))
    ensures Missing(Do(UnderMutex, s, step)) == Missing(s) - 1
    ensures if step.act.TakeAck? then Returned(s, Do(UnderMutex, s, step), t) else SameAt(s, Do(UnderMutex, s, step), t)
  {
    var m := Replay(s.log).value;
    match m.phase {
      case Woke(_) =>
        var w :| w in m.blocked;
        OwnerOfPhase(s);
        step := Step(w, Pass);
        ReplayAppend(s.log, Passed(w));
      case Passing(_, w) =>
        step := Step(w, Decrement);
        ReplayAppend(s.log, Left(w));
      case Departed(_, w) =>
        step := if s.ack then Step(t, TakeAck) else Step(w, Acknowledge);
        ReplayAppend(s.log, Done(t));
    }
    StepKeepsInv(s, step);
  }

  /** No step of any thread takes the handshake back. */
  lemma HandshakeAdvances(s: State, step: Step)
    requires Inv(s) && Enabled(UnderMutex, s, step) && Missing(s) > 0
    ensures Inv(Do(UnderMutex, s, step))
    ensures Missing(s) - 1 <= Missing(Do(UnderMutex, s, step)) <= Missing(s)
  {
    StepKeepsInv(s, step);
    OwnerOfPhase(s);
    var t, m := step.thread, Replay(s.log).value;
    match step.act
    case Pass => ReplayAppend(s.log, Passed(t));
    case Decrement => ReplayAppend(s.log, Left(t));
    case TakeAck => ReplayAppend(s.log, Done(t));
    case _ =>
  }

  lemma Extend(rule: Rule, start: State, steps: seq<Step>, s: State, step: Step) returns (steps': seq<Step>, s': State)
    requires Exec(rule, start, steps) == Some(s) && Enabled(rule, s, step)
    ensures steps' == steps + [step] && s' == Do(rule, s, step) && Exec(rule, start, steps') == Some(s')
  {
    steps', s' := steps + [step], Do(rule, s, step);
    assert steps'[..|steps'| - 1] == steps;
  }

  /** One more step of the handshake; done tells whether it was the last. */
  lemma HandshakeStep(start: State, steps: seq<Step>, s: State, t: nat)
    returns (steps': seq<Step>, after: State, done: bool)
    requires Inv(s) && Exec(UnderMutex, start, steps) == Some(s) && t < |s.pcs| && s.pcs[t].Acknowledging?
    ensures steps <= steps' && |steps'| == |steps| + 1 && Exec(UnderMutex, start, steps') == Some(after)
    ensures Inv(after) && Missing(after) == Missing(s) - 1
    ensures if done then Returned(s, after, t) else SameAt(s, after, t)
  {
    var step := NeverStuck(s, t);
    steps', after := Extend(UnderMutex, start, steps, s, step);
    done := step.act.TakeAck?;
  }

  /** Every run that has a signaller waiting extends by at most four steps to its return, with both semaphores reset. */
  lemma {:induction false} SignalCompletes(start: State, steps: seq<Step>, s: State, t: nat)
    returns (longer: seq<Step>, s': State)
    requires Inv(s) && Exec(UnderMutex, start, steps) == Some(s) && t < |s.pcs| && s.pcs[t].Acknowledging?
    ensures steps <= longer && |longer| <= |steps| + Missing(s) <= |steps| + 4
    ensures Exec(UnderMutex, start, longer) == Some(s') && Returned(s, s', t)
    decreases Missing(s)
  {
    var done;
    longer, s', done := HandshakeStep(start, steps, s, t);
    if !done {
      longer, s' := SignalCompletes(start, longer, s', t);
    }
  }

  // ---- a broadcast always ends -----------------------------------------------------------------

  /** How many steps a broadcast of thread t has to go: seven a round, and the last test. */
  function ToGo(s: State, t: nat): int
    requires Replay(s.log).Some? && t < |s.pcs|
  {
    match s.pcs[t]
    case Looping(_) => 7 * s.count + 1
    case Checking(_, _) => 7 * s.count
    case Posting(_, _) => 7 * s.count - 1
    case _ => 7 * (if Replay(s.log).value.phase.Departed? then s.count else s.count - 1) + 1 + Missing(s)
  }

  /** Thread t has ended its broadcast, and nobody waits. */
  predicate Ended(s: State, t: nat) {
    && t < |s.pcs| && s.pcs[t].Holding? && s.count == 0 && !s.event && !s.ack
    && s.log != [] && s.log[|s.log| - 1] == AllWoken(t)
  }

  /** The next step of a broadcast outside a handshake is one of its own. */
  lemma BroadcastOwnStep(s: State, t: nat) returns (step: Step)
    requires Inv(s) && t < |s.pcs| && Broadcasting(s.pcs[t]) && !s.pcs[t].Acknowledging?
    ensures Enabled(UnderMutex, s, step) && Inv(Do(UnderMutex, s, step))
    ensures var after := Do(UnderMutex, s, step);
            if s.pcs[t].Looping? && s.count == 0 then Ended(after, t)
            else |after.pcs| == |s.pcs| && Broadcasting(after.pcs[t]) && ToGo(after, t) == ToGo(s, t) - 1
  {
    step := Step(t, if s.pcs[t].Looping? then TestLoop else if s.pcs[t].Checking? then TestCount else PostEvent);
    OwnerOfPhase(s);
    assert Replay(s.log).value.phase.Quiet?;
    if s.pcs[t].Posting? {
      ReplayAppend(s.log, Posted(t));
    }
    StepKeepsInv(s, step);
  }

  lemma BroadcastHandshake(s: State, t: nat) returns (step: Step)
    requires Inv(s) && t < |s.pcs| && Broadcasting(s.pcs[t]) && s.pcs[t].Acknowledging?
    ensures Enabled(UnderMutex, s, step) && Inv(Do(UnderMutex, s, step))
    ensures var after := Do(UnderMutex, s, step);
            |after.pcs| == |s.pcs| && Broadcasting(after.pcs[t]) && ToGo(after, t) == ToGo(s, t) - 1
  {
    step := NeverStuck(s, t);
  }

  lemma BroadcastAdvances(start: State, steps: seq<Step>, s: State, t: nat)
    returns (steps': seq<Step>, after: State, done: bool)
    requires Inv(s) && Exec(UnderMutex, start, steps) == Some(s) && t < |s.pcs| && Broadcasting(s.pcs[t])
    ensures steps <= steps' && |steps'| == |steps| + 1 && Exec(UnderMutex, start, steps') == Some(after) && Inv(after)
    ensures if done then Ended(after, t) && ToGo(s, t) >= 1
            else t < |after.pcs| && Broadcasting(after.pcs[t]) && ToGo(after, t) == ToGo(s, t) - 1
  {
    var step;
    done := s.pcs[t].Looping? && s.count == 0;
    if s.pcs[t].Acknowledging? {
      step := BroadcastHandshake(s, t);
    } else {
      step := BroadcastOwnStep(s, t);
    }
    steps', after := Extend(UnderMutex, start, steps, s, step);
  }

  lemma ToGoPositive(s: State, t: nat)
    requires Inv(s) && t < |s.pcs| && Broadcasting(s.pcs[t])
    ensures ToGo(s, t) >= 1
  {
    OwnerOfPhase(s);
  }

  /** Every run inside a broadcast extends, by seven steps a waiter and a few more, to its end with nobody waiting. */
  lemma {:induction false} BroadcastCompletes(start: State, steps: seq<Step>, s: State, t: nat)
    returns (longer: seq<Step>, s': State)
    requires Inv(s) && Exec(UnderMutex, start, steps) == Some(s) && t < |s.pcs| && Broadcasting(s.pcs[t])
    ensures steps <= longer && |longer| <= |steps| + ToGo(s, t) <= |steps| + 7 * s.count + 3
    ensures Exec(UnderMutex, start, longer) == Some(s') && Ended(s', t)
    decreases ToGo(s, t)
  {
    ToGoPositive(s, t);
    var done;
    longer, s', done := BroadcastAdvances(start, steps, s, t);
    if !done {
      longer, s' := BroadcastCompletes(start, longer, s', t);
    }
  }

  // ---- why the mutex is needed -----------------------------------------------------------------

  /** On every run the log is a run of the monitor. */
  ghost predicate Disciplined(rule: Rule) {
    forall threads: nat, steps: seq<Step> ::
      Exec(rule, Start(threads), steps).Some? ==> Replay(Exec(rule, Start(threads), steps).value.log).Some?
  }

  /** Thread 1 posts without the mutex, which lets thread 2 enter a wait before thread 0 has passed. */
  lemma EntersDuringRound(rule: Rule) returns (steps: seq<Step>, s: State)
    requires !rule.UnderMutex?
    ensures Exec(rule, Start(3), steps) == Some(s) && s.log == [Entered(0), Posted(1), Entered(2)]
  {
    steps, s := OneWaits(rule);
    steps, s := Extend(rule, Start(3), steps, s, Step(1, Signal));
    steps, s := Extend(rule, Start(3), steps, s, Step(1, TestCount));
    steps, s := Extend(rule, Start(3), steps, s, Step(1, PostEvent));
    steps, s := Extend(rule, Start(3), steps, s, Step(2, Lock));
    steps, s := Extend(rule, Start(3), steps, s, Step(2, Enter));
  }

  lemma OneWaits(rule: Rule) returns (steps: seq<Step>, s: State)
    ensures Exec(rule, Start(3), steps) == Some(s)
    ensures s == State([Blocked, Outside, Outside], None, false, false, 1, [Entered(0)])
  {
    steps, s := [], Start(3);
    steps, s := Extend(rule, Start(3), steps, s, Step(0, Lock));
    assert s.pcs == [Holding, Outside, Outside];
    steps, s := Extend(rule, Start(3), steps, s, Step(0, Enter));
    assert s.pcs == [Counted, Outside, Outside];
    steps, s := Extend(rule, Start(3), steps, s, Step(0, Release));
    assert s.pcs == [Blocked, Outside, Outside];
  }

  /** The protocol is the monitor's exactly when signallers hold the mutex. */
  lemma DisciplinedIff(rule: Rule)
    ensures Disciplined(rule) <==> rule.UnderMutex?
  {
    if rule.UnderMutex? {
      forall threads: nat, steps: seq<Step> | Exec(rule, Start(threads), steps).Some?
        ensures Replay(Exec(rule, Start(threads), steps).value.log).Some?
      {
        Reachable(threads, steps);
      }
    } else {
      var steps, s := EntersDuringRound(rule);
      if Replay(s.log).Some? {
        ReplayPrefix(s.log, 2);
        ReplayPrefix(s.log, 1);
      }
    }
  }
}
