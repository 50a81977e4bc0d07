/**
  When a signaller of os2threads.h waits for ever. A post that finds the event still posted, or finds
  nobody to take it, brings no acknowledgement; nor does an acknowledgement on top of another.

  The deficit of a state is how many waiting signallers have no acknowledgement on its way. It never
  falls, and a state can finish exactly when it is 0 and a posted event has somebody to take it.
 */
module CondVarStalls {
  import opened CondVars
  import opened Options

  // ---- counting threads ------------------------------------------------------------------------

  function Sum(pcs: seq<Pc>, f: Pc -> nat): nat {
    if pcs == [] then 0 else Sum(pcs[..|pcs| - 1], f) + f(pcs[|pcs| - 1])
  }

  lemma {:induction false} SumUpdate(pcs: seq<Pc>, t: nat, pc: Pc, f: Pc -> nat)
    requires t < |pcs|
    ensures Sum(pcs[t := pc], f) == Sum(pcs, f) - f(pcs[t]) + f(pc)
  {
    var n := |pcs| - 1;
    if t == n {
      assert pcs[t := pc][..n] == pcs[..n];
    } else {
      SumUpdate(pcs[..n], t, pc, f);
      assert pcs[t := pc][..n] == pcs[..n][t := pc];
    }
  }

  lemma {:induction false} SumAtMost(pcs: seq<Pc>, f: Pc -> nat, g: Pc -> nat)
    requires forall pc :: f(pc) <= g(pc)
    ensures Sum(pcs, f) <= Sum(pcs, g)
  {
    if pcs != [] {
      SumAtMost(pcs[..|pcs| - 1], f, g);
    }
  }

  /** A sum is 0 exactly when all its parts are. */
  lemma {:induction false} SumZero(pcs: seq<Pc>, f: Pc -> nat)
    ensures Sum(pcs, f) == 0 <==> forall t :: 0 <= t < |pcs| ==> f(pcs[t]) == 0
  {
    if pcs != [] {
      var before := pcs[..|pcs| - 1];
      SumZero(before, f);
      assert forall t :: 0 <= t < |before| ==> before[t] == pcs[t];
    }
  }

  lemma SomeThread(pcs: seq<Pc>, f: Pc -> nat) returns (t: nat)
    requires Sum(pcs, f) > 0
    ensures t < |pcs| && f(pcs[t]) > 0
  {
    SumZero(pcs, f);
    t :| 0 <= t < |pcs| && f(pcs[t]) > 0;
  }

  lemma {:induction false} SumOutside(n: nat, f: Pc -> nat)
    requires f(Outside) == 0
    ensures Sum(Start(n).pcs, f) == 0
  {
    SumZero(Start(n).pcs, f);
  }

  function B(b: bool): nat {
    if b then 1 else 0
  }

  function Awaits(pc: Pc): nat { B(pc.Acknowledging?) }
  function Released(pc: Pc): nat { B(pc.Woken?) }
  function Owes(pc: Pc): nat { B(pc.Uncounted?) }
  function Waits(pc: Pc): nat { B(pc.Counted? || pc.Blocked?) }
  function Signals(pc: Pc): nat { B(Signalling(pc)) }

  /** How many threads there are of each kind that matters here. */
  datatype Census = Census(awaiting: nat, released: nat, owing: nat, waiting: nat)

  function Count(pcs: seq<Pc>): Census {
    Census(Sum(pcs, Awaits), Sum(pcs, Released), Sum(pcs, Owes), Sum(pcs, Waits))
  }

  function Moved(c: Census, from: Pc, to: Pc): Census
    requires Awaits(from) <= c.awaiting && Released(from) <= c.released
    requires Owes(from) <= c.owing && Waits(from) <= c.waiting
  {
    Census(c.awaiting - Awaits(from) + Awaits(to), c.released - Released(from) + Released(to),
           c.owing - Owes(from) + Owes(to), c.waiting - Waits(from) + Waits(to))
  }

  lemma CountUpdate(pcs: seq<Pc>, t: nat, to: Pc)
    requires t < |pcs|
    ensures var c, from := Count(pcs), pcs[t];
            && Awaits(from) <= c.awaiting && Released(from) <= c.released && Owes(from) <= c.owing
            && Waits(from) <= c.waiting && Count(pcs[t := to]) == Moved(c, from, to)
  {
    SumUpdate(pcs, t, Outside, Awaits);
    SumUpdate(pcs, t, Outside, Released);
    SumUpdate(pcs, t, Outside, Owes);
    SumUpdate(pcs, t, Outside, Waits);
    SumUpdate(pcs, t, to, Awaits);
    SumUpdate(pcs, t, to, Released);
    SumUpdate(pcs, t, to, Owes);
    SumUpdate(pcs, t, to, Waits);
  }

  // ---- the deficit -----------------------------------------------------------------------------

  /** Signallers that wait, less the acknowledgements that are posted or on their way. */
  function Deficit(s: State): int {
    var c := Count(s.pcs);
    c.awaiting - B(s.event) - c.released - c.owing - B(s.ack)
  }

  /** Every waiting signaller has an acknowledgement on its way, and a posted event somebody to take it. */
  predicate Balanced(s: State) {
    Deficit(s) == 0 && (s.event ==> Count(s.pcs).waiting > 0)
  }

  /** A post of the event that is posted already or that nobody waits for, or of an acknowledgement that is posted. */
  predicate Wasteful(s: State, step: Step) {
    || (step.act.PostEvent? && (s.event || Count(s.pcs).waiting == 0))
    || (step.act.Acknowledge? && s.ack)
  }

  lemma StepCount(rule: Rule, s: State, step: Step)
    requires Enabled(rule, s, step)
    ensures var after, t := Do(rule, s, step), step.thread; var c, from := Count(s.pcs), s.pcs[t];
            && Awaits(from) <= c.awaiting && Released(from) <= c.released && Owes(from) <= c.owing
            && Waits(from) <= c.waiting && Count(after.pcs) == Moved(c, from, after.pcs[t])
  {
    var after := Do(rule, s, step);
    assert after.pcs == s.pcs[step.thread := after.pcs[step.thread]];
    CountUpdate(s.pcs, step.thread, after.pcs[step.thread]);
  }

  /** A step posts a semaphore that is posted. */
  predicate PostsTwice(s: State, step: Step) {
    (step.act.PostEvent? && s.event) || (step.act.Acknowledge? && s.ack)
  }

  lemma WaitsStep(rule: Rule, s: State, step: Step)
    requires Enabled(rule, s, step)
    ensures var to := Do(rule, s, step).pcs[step.thread];
            Waits(to) == Waits(s.pcs[step.thread]) + B(step.act.Enter?) - B(step.act.Pass?)
  {
  }

  /** What a thread in this place adds to the deficit. */
  function Share(pc: Pc): int {
    Awaits(pc) - Released(pc) - Owes(pc)
  }

  lemma ShareStep(rule: Rule, s: State, step: Step)
    requires Enabled(rule, s, step)
    ensures var after, t := Do(rule, s, step), step.thread;
            Share(after.pcs[t]) - B(after.event) - B(after.ack)
            == Share(s.pcs[t]) - B(s.event) - B(s.ack) + B(PostsTwice(s, step))
  {
  }

  /** The deficit rises by one when a semaphore is posted that is posted already, and else keeps its value. */
  lemma DeficitStep(rule: Rule, s: State, step: Step)
    requires Enabled(rule, s, step)
    ensures Deficit(Do(rule, s, step)) == Deficit(s) + B(PostsTwice(s, step))
    ensures var c, c' := Count(s.pcs), Count(Do(rule, s, step).pcs);
            c'.waiting == c.waiting + B(step.act.Enter?) - B(step.act.Pass?)
  {
    StepCount(rule, s, step);
    WaitsStep(rule, s, step);
    ShareStep(rule, s, step);
  }

  /** A step leaves a balanced state balanced exactly when it is not wasteful. */
  lemma BalancedStepIff(rule: Rule, s: State, step: Step)
    requires Enabled(rule, s, step) && Balanced(s)
    ensures Balanced(Do(rule, s, step)) <==> !Wasteful(s, step)
  {
    DeficitStep(rule, s, step);
  }

  /** No step of a run was wasteful. */
  ghost predicate Thrifty(rule: Rule, start: State, steps: seq<Step>)
    requires Exec(rule, start, steps).Some?
  {
    steps == [] ||
    var before := steps[..|steps| - 1];
    Thrifty(rule, start, before) && !Wasteful(Exec(rule, start, before).value, steps[|steps| - 1])
  }

  /** All states of a run were balanced. */
  ghost predicate AlwaysBalanced(rule: Rule, start: State, steps: seq<Step>)
    requires Exec(rule, start, steps).Some?
  {
    Balanced(Exec(rule, start, steps).value) && (steps != [] ==> AlwaysBalanced(rule, start, steps[..|steps| - 1]))
  }

  lemma StartBalanced(threads: nat)
    ensures Balanced(Start(threads))
  {
    SumOutside(threads, Awaits);
    SumOutside(threads, Released);
    SumOutside(threads, Owes);
  }

  /** The states of a run are all balanced exactly when none of its steps was wasteful. */
  lemma {:induction false} AlwaysBalancedIff(rule: Rule, threads: nat, steps: seq<Step>)
    requires Exec(rule, Start(threads), steps).Some?
    ensures AlwaysBalanced(rule, Start(threads), steps) <==> Thrifty(rule, Start(threads), steps)
  {
    if steps == [] {
      StartBalanced(threads);
    } else {
      var before := steps[..|steps| - 1];
      AlwaysBalancedIff(rule, threads, before);
      if AlwaysBalanced(rule, Start(threads), before) {
        BalancedStepIff(rule, Exec(rule, Start(threads), before).value, steps[|steps| - 1]);
      }
    }
  }

  /** On every run the deficit is at least 0, whatever came before. */
  lemma {:induction false} DeficitNatural(rule: Rule, threads: nat, steps: seq<Step>)
    requires Exec(rule, Start(threads), steps).Some?
    ensures Deficit(Exec(rule, Start(threads), steps).value) >= 0
  {
    if steps == [] {
      StartBalanced(threads);
    } else {
      var before := steps[..|steps| - 1];
      DeficitNatural(rule, threads, before);
      DeficitStep(rule, Exec(rule, Start(threads), before).value, steps[|steps| - 1]);
    }
  }

  // ---- which states can finish -----------------------------------------------------------------

  /** The steps by which those who already wait let a signaller return. */
  predicate InFlight(act: Act) {
    act.Release? || act.Pass? || act.Decrement? || act.Acknowledge? || act.TakeAck?
  }

  /** No signaller waits. */
  predicate Settled(s: State) {
    Sum(s.pcs, Awaits) == 0
  }

  /** Without another thread starting to wait, a state can be reached in which no signaller waits. */
  ghost predicate CanFinish(rule: Rule, s: State) {
    exists steps: seq<Step> :: NoneEnters(steps) && Exec(rule, s, steps).Some? && Settled(Exec(rule, s, steps).value)
  }

  predicate NoneEnters(steps: seq<Step>) {
    forall i :: 0 <= i < |steps| ==> !steps[i].act.Enter?
  }

  /** Once the deficit is above 0 some signaller waits for ever, whatever is run. */
  lemma {:induction false} DeficitStays(rule: Rule, s: State, steps: seq<Step>)
    requires Exec(rule, s, steps).Some?
    ensures Deficit(Exec(rule, s, steps).value) >= Deficit(s)
    ensures Deficit(s) > 0 ==> !Settled(Exec(rule, s, steps).value)
  {
    if steps != [] {
      var before := steps[..|steps| - 1];
      DeficitStays(rule, s, before);
      DeficitStep(rule, Exec(rule, s, before).value, steps[|steps| - 1]);
    }
  }

  /** An event that nobody waits for stays posted until another thread starts to wait. */
  lemma {:induction false} EventStays(rule: Rule, s: State, steps: seq<Step>)
    requires s.event && Count(s.pcs).waiting == 0 && NoneEnters(steps) && Exec(rule, s, steps).Some?
    ensures Exec(rule, s, steps).value.event && Count(Exec(rule, s, steps).value.pcs).waiting == 0
  {
    if steps != [] {
      var before := steps[..|steps| - 1];
      EventStays(rule, s, before);
      DeficitStep(rule, Exec(rule, s, before).value, steps[|steps| - 1]);
    }
  }

  lemma FinishNeedsBalance(rule: Rule, s: State, steps: seq<Step>)
    requires Deficit(s) >= 0 && NoneEnters(steps)
    requires Exec(rule, s, steps).Some? && Settled(Exec(rule, s, steps).value)
    ensures Balanced(s)
  {
    DeficitStays(rule, s, steps);
    if s.event && Count(s.pcs).waiting == 0 {
      EventStays(rule, s, steps);
    }
  }

  /** How many steps in flight a thread can take at most. */
  function Work(pc: Pc): nat {
    match pc
    case Counted => 5
    case Blocked => 4
    case Woken => 3
    case Uncounted => 2
    case Acknowledging(_, _) => 1
    case _ => 0
  }

  /** The thread that is next, in a balanced state in which a signaller waits. */
  lemma NextInFlight(rule: Rule, s: State) returns (step: Step)
    requires Balanced(s) && !Settled(s)
    ensures InFlight(step.act) && Enabled(rule, s, step) && !Wasteful(s, step)
  {
    if s.ack {
      var t := SomeThread(s.pcs, Awaits);
      step := Step(t, TakeAck);
    } else if Sum(s.pcs, Owes) > 0 {
      var t := SomeThread(s.pcs, Owes);
      step := Step(t, Acknowledge);
    } else if Sum(s.pcs, Released) > 0 {
      var t := SomeThread(s.pcs, Released);
      step := Step(t, Decrement);
    } else {
      var t := SomeThread(s.pcs, Waits);
      step := Step(t, if s.pcs[t].Counted? then Release else Pass);
    }
  }

  lemma InFlightWorks(rule: Rule, s: State, step: Step)
    requires Enabled(rule, s, step) && InFlight(step.act)
    ensures Sum(Do(rule, s, step).pcs, Work) < Sum(s.pcs, Work)
  {
    var after := Do(rule, s, step);
    assert after.pcs == s.pcs[step.thread := after.pcs[step.thread]];
    SumUpdate(s.pcs, step.thread, after.pcs[step.thread], Work);
  }

  /** From a balanced state the steps in flight end with no signaller waiting. */
  lemma {:induction false} Finish(rule: Rule, start: State, steps: seq<Step>, s: State)
    returns (more: seq<Step>, s': State)
    requires Exec(rule, start, steps) == Some(s) && Balanced(s)
    requires forall i :: 0 <= i < |steps| ==> InFlight(steps[i].act)
    ensures Exec(rule, start, more) == Some(s') && Balanced(s') && Settled(s')
    ensures forall i :: 0 <= i < |more| ==> InFlight(more[i].act)
    ensures |more| <= |steps| + Sum(s.pcs, Work)
    decreases Sum(s.pcs, Work)
  {
    if Settled(s) {
      more, s' := steps, s;
    } else {
      var step := NextInFlight(rule, s);
      InFlightWorks(rule, s, step);
      BalancedStepIff(rule, s, step);
      more, s' := Extend(rule, start, steps, s, step);
      more, s' := Finish(rule, start, more, s');
    }
  }

  /**
    On every run, from anywhere signals come: a state can finish exactly when it is balanced. If it is,
    the steps of those who already wait are enough.
   */
  lemma FinishIff(rule: Rule, threads: nat, steps: seq<Step>)
    requires Exec(rule, Start(threads), steps).Some?
    ensures var s := Exec(rule, Start(threads), steps).value; CanFinish(rule, s) <==> Balanced(s)
  {
    var s := Exec(rule, Start(threads), steps).value;
    DeficitNatural(rule, threads, steps);
    if CanFinish(rule, s) {
      var more: seq<Step> :|
        NoneEnters(more) && Exec(rule, s, more).Some? && Settled(Exec(rule, s, more).value);
      FinishNeedsBalance(rule, s, more);
    }
    if Balanced(s) {
      var more, s' := Finish(rule, s, [], s);
      assert NoneEnters(more);
    }
  }

  // ---- which rules never stall -----------------------------------------------------------------

  /** Threads 0 and 1 test the count before thread 2, which waits, has been woken. */
  lemma TwoSignallersOneWaiter() returns (steps: seq<Step>, s: State)
    ensures Exec(Anywhere, Start(3), steps) == Some(s)
    ensures s == State([Posting(false, Single), Posting(false, Single), Blocked], None, false, false, 1, [Entered(2)])
  {
    var r, start := Anywhere, Start(3);
    steps, s := [], start;
    steps, s := Extend(r, start, steps, s, Step(2, Lock));
    steps, s := Extend(r, start, steps, s, Step(2, Enter));
    steps, s := Extend(r, start, steps, s, Step(2, Release));
    steps, s := Extend(r, start, steps, s, Step(0, Signal));
    steps, s := Extend(r, start, steps, s, Step(1, Signal));
    steps, s := Extend(r, start, steps, s, Step(0, TestCount));
    steps, s := Extend(r, start, steps, s, Step(1, TestCount));
    assert s.pcs == [Posting(false, Single), Posting(false, Single), Blocked];
  }

  /** Both signal; thread 2 takes the first event only. */
  lemma SecondPost() returns (steps: seq<Step>, s: State)
    ensures Exec(Anywhere, Start(3), steps) == Some(s)
    ensures s == State([Acknowledging(false, Single), Acknowledging(false, Single), Uncounted], None, true, false, 0,
                       [Entered(2), Posted(0), Passed(2), Posted(1), Left(2)])
  {
    var r, start := Anywhere, Start(3);
    steps, s := TwoSignallersOneWaiter();
    steps, s := Extend(r, start, steps, s, Step(0, PostEvent));
    steps, s := Extend(r, start, steps, s, Step(2, Pass));
    steps, s := Extend(r, start, steps, s, Step(1, PostEvent));
    steps, s := Extend(r, start, steps, s, Step(2, Decrement));
    assert s.pcs == [Acknowledging(false, Single), Acknowledging(false, Single), Uncounted];
  }

  /** Thread 1 posts an event that no waiter is left to acknowledge. */
  lemma OrphanedSignal() returns (steps: seq<Step>, s: State)
    ensures Exec(Anywhere, Start(3), steps) == Some(s)
    ensures s.pcs == [Outside, Acknowledging(false, Single), Holding] && s.event && !s.ack && s.count == 0
    ensures s.log == [Entered(2), Posted(0), Passed(2), Posted(1), Left(2), Done(0)]
  {
    var r, start := Anywhere, Start(3);
    steps, s := SecondPost();
    steps, s := Extend(r, start, steps, s, Step(2, Acknowledge));
    steps, s := Extend(r, start, steps, s, Step(0, TakeAck));
    steps, s := Extend(r, start, steps, s, Step(2, Relock));
  }

  /** Nobody is in a wait, and thread t waits for an acknowledgement. */
  predicate Orphaned(s: State, t: nat) {
    && t < |s.pcs| && s.pcs[t].Acknowledging? && !s.ack
    && forall w :: 0 <= w < |s.pcs| ==> !Counts(s.pcs[w]) && !s.pcs[w].Uncounted?
  }

  /** Until another thread starts to wait, an orphaned signal cannot return, whatever is run. */
  lemma {:induction false} OrphanStays(s: State, steps: seq<Step>, t: nat)
    requires Orphaned(s, t) && Exec(Anywhere, s, steps).Some?
    requires forall i :: 0 <= i < |steps| ==> !steps[i].act.Enter?
    ensures Orphaned(Exec(Anywhere, s, steps).value, t)
  {
    if steps != [] {
      OrphanStays(s, steps[..|steps| - 1], t);
    }
  }

  lemma OrphanUnbalanced(s: State, t: nat)
    requires Orphaned(s, t)
    ensures !Balanced(s)
  {
    SumZero(s.pcs, Awaits);
    SumZero(s.pcs, Released);
    SumZero(s.pcs, Owes);
    SumZero(s.pcs, Waits);
  }

  /** On a run without a wasteful step no signal is orphaned. */
  lemma ThriftyNoOrphan(rule: Rule, threads: nat, steps: seq<Step>, t: nat)
    requires Exec(rule, Start(threads), steps).Some? && Thrifty(rule, Start(threads), steps)
    ensures !Orphaned(Exec(rule, Start(threads), steps).value, t)
  {
    AlwaysBalancedIff(rule, threads, steps);
    var s := Exec(rule, Start(threads), steps).value;
    if Orphaned(s, t) {
      OrphanUnbalanced(s, t);
    }
  }

  /** What holds while at most one call signals at a time. */
  predicate AloneInv(s: State) {
    && Balanced(s) && Sum(s.pcs, Signals) <= 1
    && s.count == Sum(s.pcs, Waits) + Sum(s.pcs, Released)
    && forall t :: 0 <= t < |s.pcs| && s.pcs[t].Posting? ==> Sum(s.pcs, Waits) > 0
  }

  /** While a signaller has not posted, no other waits, and nobody is past the event. */
  lemma AlonePost(s: State, t: nat)
    requires AloneInv(s) && t < |s.pcs| && Signalling(s.pcs[t]) && !s.pcs[t].Acknowledging?
    ensures Sum(s.pcs, Awaits) == 0 && !s.event && !s.ack && Sum(s.pcs, Released) == 0
  {
    var others := s.pcs[t := Outside];
    SumUpdate(s.pcs, t, Outside, Signals);
    SumUpdate(s.pcs, t, Outside, Awaits);
    SumAtMost(others, Awaits, Signals);
  }

  lemma AloneAcknowledge(s: State)
    requires AloneInv(s) && Sum(s.pcs, Owes) > 0
    ensures !s.ack
  {
    SumAtMost(s.pcs, Awaits, Signals);
  }

  lemma AloneThrifty(s: State, step: Step)
    requires AloneInv(s) && Enabled(Exclusive, s, step)
    ensures !Wasteful(s, step)
  {
    if step.act.PostEvent? {
      AlonePost(s, step.thread);
    } else if step.act.Acknowledge? {
      SumZero(s.pcs, Owes);
      AloneAcknowledge(s);
    }
  }

  lemma AloneSignals(s: State, step: Step)
    requires AloneInv(s) && Enabled(Exclusive, s, step)
    ensures Sum(Do(Exclusive, s, step).pcs, Signals) <= 1
  {
    var after := Do(Exclusive, s, step);
    assert after.pcs == s.pcs[step.thread := after.pcs[step.thread]];
    SumUpdate(s.pcs, step.thread, after.pcs[step.thread], Signals);
    SumZero(s.pcs, Signals);
  }

  lemma CountStep(rule: Rule, s: State, step: Step)
    requires Enabled(rule, s, step)
    ensures var after, t := Do(rule, s, step), step.thread; var from, to := s.pcs[t], after.pcs[t];
            after.count - Waits(to) - Released(to) == s.count - Waits(from) - Released(from)
  {
  }

  lemma AloneCounts(s: State, step: Step)
    requires AloneInv(s) && Enabled(Exclusive, s, step)
    ensures var after := Do(Exclusive, s, step); after.count == Sum(after.pcs, Waits) + Sum(after.pcs, Released)
  {
    StepCount(Exclusive, s, step);
    CountStep(Exclusive, s, step);
  }

  /** The waiter that a signaller has found is still there when it posts. */
  lemma AlonePosting(s: State, step: Step, t: nat)
    requires AloneInv(s) && Enabled(Exclusive, s, step)
    requires t < |s.pcs| && Do(Exclusive, s, step).pcs[t].Posting?
    ensures Sum(Do(Exclusive, s, step).pcs, Waits) > 0
  {
    AlonePost(s, t);
    DeficitStep(Exclusive, s, step);
  }

  lemma AloneStep(s: State, step: Step)
    requires AloneInv(s) && Enabled(Exclusive, s, step)
    ensures !Wasteful(s, step) && AloneInv(Do(Exclusive, s, step))
  {
    AloneThrifty(s, step);
    BalancedStepIff(Exclusive, s, step);
    AloneSignals(s, step);
    AloneCounts(s, step);
    var after := Do(Exclusive, s, step);
    forall t | 0 <= t < |after.pcs| && after.pcs[t].Posting? ensures Sum(after.pcs, Waits) > 0 {
      AlonePosting(s, step, t);
    }
  }

  /** If no two calls signal at the same time, with or without the mutex, no step is ever wasteful. */
  lemma {:induction false} ExclusiveThrifty(threads: nat, steps: seq<Step>)
    requires Exec(Exclusive, Start(threads), steps).Some?
    ensures Thrifty(Exclusive, Start(threads), steps) && AloneInv(Exec(Exclusive, Start(threads), steps).value)
  {
    if steps == [] {
      StartBalanced(threads);
      SumOutside(threads, Signals);
      SumOutside(threads, Waits);
      SumOutside(threads, Released);
    } else {
      var before := steps[..|steps| - 1];
      ExclusiveThrifty(threads, before);
      AloneStep(Exec(Exclusive, Start(threads), before).value, steps[|steps| - 1]);
    }
  }

  lemma MutexExcludes(s: State, step: Step)
    requires Inv(s) && Enabled(UnderMutex, s, step)
    ensures Enabled(Exclusive, s, step) && Do(Exclusive, s, step) == Do(UnderMutex, s, step)
  {
  }

  /** Signals under the mutex are never at the same time. */
  lemma {:induction false} UnderMutexExclusive(threads: nat, steps: seq<Step>)
    requires Exec(UnderMutex, Start(threads), steps).Some?
    ensures Exec(Exclusive, Start(threads), steps) == Exec(UnderMutex, Start(threads), steps)
  {
    if steps != [] {
      var before := steps[..|steps| - 1];
      UnderMutexExclusive(threads, before);
      Reachable(threads, before);
      MutexExcludes(Exec(UnderMutex, Start(threads), before).value, steps[|steps| - 1]);
    }
  }

  /** Every state of every run can finish. */
  ghost predicate StallFree(rule: Rule) {
    forall threads: nat, steps: seq<Step> ::
      Exec(rule, Start(threads), steps).Some? ==> CanFinish(rule, Exec(rule, Start(threads), steps).value)
  }

  lemma AlwaysFinishes(rule: Rule, threads: nat, steps: seq<Step>)
    requires Exec(rule, Start(threads), steps).Some? && !rule.Anywhere?
    ensures CanFinish(rule, Exec(rule, Start(threads), steps).value)
  {
    if rule.UnderMutex? {
      UnderMutexExclusive(threads, steps);
    }
    ExclusiveThrifty(threads, steps);
    FinishIff(rule, threads, steps);
  }

  /** Signals that never overlap are what it takes; the mutex itself is not needed. */
  lemma StallFreeIff(rule: Rule)
    ensures StallFree(rule) <==> !rule.Anywhere?
  {
    if rule.Anywhere? {
      var steps, s := OrphanedSignal();
      FinishIff(rule, 3, steps);
      OrphanUnbalanced(s, 1);
    } else {
      forall threads: nat, steps: seq<Step> | Exec(rule, Start(threads), steps).Some?
        ensures CanFinish(rule, Exec(rule, Start(threads), steps).value)
      {
        AlwaysFinishes(rule, threads, steps);
      }
    }
  }
}
