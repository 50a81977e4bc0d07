/**
  What becomes of the packets that the decoder thread of ffplay takes from its queue: each is dealt
  with once, in order, and thrown away only if its serial is out of date. And how an abort ends it.
 */
module SerialLaws {
  import opened Options
  import opened PacketQueues
  import opened SerialProtocol

  // ---- every packet once -------------------------------------------------------------------------

  /** What is done with a packet. */
  datatype Fate = Fed | UsedAsFlush | ThrownAway

  datatype Dealt = Dealt(pkt: Packet, fate: Fate)

  function Packets(s: seq<Dealt>): (p: seq<Packet>)
    ensures |p| == |s|
  {
    seq(|s|, i requires 0 <= i < |s| => s[i].pkt)
  }

  /** The packet that the decoder holds: in its hand, or put aside for later. */
  function Held(s: State): seq<Packet> {
    if s.pc.Check? || s.pc.Feed? then [s.pc.pkt] else s.pending
  }

  /** The packet that a step takes from the queue. */
  function TakenBy(codec: Codec, s: State, step: Step): seq<Packet>
    requires Enabled(codec, s, step)
  {
    if step.TakeQueued? && !s.queue.abort then [s.queue.entries[0].pkt] else []
  }

  /** The packets that have been taken from the queue. */
  function Taken(codec: Codec, start: State, steps: seq<Step>): seq<Packet>
    requires Exec(codec, start, steps).Some?
  {
    if steps == [] then []
    else
      var before, step := steps[..|steps| - 1], steps[|steps| - 1];
      Taken(codec, start, before) + TakenBy(codec, Exec(codec, start, before).value, step)
  }

  /**
    What a step deals with: a packet whose serial is not that of the queue is thrown away, a flush packet
    is used, and any other is fed to the codec if that accepts it; a subtitle decoder keeps the empty
    packet for as long as it gets subtitles out of it.
   */
  function DealtWith(codec: Codec, s: State, step: Step): seq<Dealt>
    requires Enabled(codec, s, step)
  {
    match step
    case CompareAgain => if s.queue.serial != s.pktSerial then [Dealt(s.pc.pkt, ThrownAway)] else []
    case UseFlush => [Dealt(s.pc.pkt, UsedAsFlush)]
    case Send(accepted) => if accepted then [Dealt(s.pc.pkt, Fed)] else []
    case DecodeSubtitle(outcome) => if outcome.GotFrame? && s.pc.pkt.kind.Null? then [] else [Dealt(s.pc.pkt, Fed)]
    case _ => []
  }

  function AllDealtWith(codec: Codec, start: State, steps: seq<Step>): seq<Dealt>
    requires Exec(codec, start, steps).Some?
  {
    if steps == [] then []
    else
      var before, step := steps[..|steps| - 1], steps[|steps| - 1];
      AllDealtWith(codec, start, before) + DealtWith(codec, Exec(codec, start, before).value, step)
  }

  /** Nothing is put aside while a packet is in the hand. */
  predicate OneAtATime(s: State) {
    |s.pending| <= 1 && (s.pc.Check? || s.pc.Feed? ==> s.pending == [])
  }

  lemma PacketsAppend(a: seq<Dealt>, b: seq<Dealt>)
    ensures Packets(a + b) == Packets(a) + Packets(b)
  {
  }

  lemma StepOneAtATime(codec: Codec, s: State, step: Step)
    requires Enabled(codec, s, step) && OneAtATime(s)
    ensures OneAtATime(Do(codec, s, step))
  {
  }

  /** A step deals with the packet held, takes one, or leaves it. */
  lemma StepHolds(codec: Codec, s: State, step: Step)
    requires Enabled(codec, s, step) && OneAtATime(s)
    ensures Held(s) + TakenBy(codec, s, step) == Packets(DealtWith(codec, s, step)) + Held(Do(codec, s, step))
  {
    if step.TakePending? {
      assert s.pending == [s.pending[0]];
    }
  }

  /**
    On every run, the packets taken from the queue are, in order, those dealt with and the one held: none
    is lost, dealt with twice or passed over.
   */
  lemma {:induction false} EachPacketOnce(codec: Codec, serial: int, flush: Packet, steps: seq<Step>)
    requires Exec(codec, Start(serial, flush), steps).Some?
    ensures var start := Start(serial, flush); var s := Exec(codec, start, steps).value;
            && OneAtATime(s)
            && Taken(codec, start, steps) == Packets(AllDealtWith(codec, start, steps)) + Held(s)
  {
    if steps != [] {
      var before, step := steps[..|steps| - 1], steps[|steps| - 1];
      EachPacketOnce(codec, serial, flush, before);
      var start := Start(serial, flush);
      var s := Exec(codec, start, before).value;
      StepOneAtATime(codec, s, step);
      StepHolds(codec, s, step);
      var done, more := AllDealtWith(codec, start, before), DealtWith(codec, s, step);
      PacketsAppend(done, more);
      Regroup(Taken(codec, start, before), TakenBy(codec, s, step), Packets(done), Held(s),
              Packets(more), Held(Do(codec, s, step)));
    }
  }

  lemma Regroup(taken: seq<Packet>, next: seq<Packet>, done: seq<Packet>, held: seq<Packet>,
                more: seq<Packet>, held': seq<Packet>)
    requires taken == done + held && held + next == more + held'
    ensures taken + next == done + more + held'
  {
    assert taken + next == done + (held + next);
  }

  // ---- what was put is taken ---------------------------------------------------------------------

  /** The packets in the queue. */
  function Waiting(entries: seq<Entry>): (p: seq<Packet>)
    ensures |p| == |entries|
  {
    seq(|entries|, i requires 0 <= i < |entries| => entries[i].pkt)
  }

  /** The packet that a step puts into the queue. */
  function PutBy(s: State, step: Step): seq<Packet> {
    match step
    case PutOrdinary(pkt) => if s.queue.abort then [] else [pkt]
    case SeekPut(flush) => [flush]
    case _ => []
  }

  /** The queue hands out its packets in the order they were put. */
  lemma QueueInOrder(codec: Codec, s: State, step: Step)
    requires Enabled(codec, s, step)
    ensures var t := Do(codec, s, step);
            if step.SeekFlush? then t.queue.entries == []
            else Waiting(s.queue.entries) + PutBy(s, step) == TakenBy(codec, s, step) + Waiting(t.queue.entries)
  {
  }

  // ---- aborting ----------------------------------------------------------------------------------

  /** Once the queue is aborted, no step takes that back, and no frame is returned but one that was under way. */
  lemma {:induction false} AbortStops(codec: Codec, s: State, steps: seq<Step>)
    requires s.queue.abort && !s.pc.Receive? && Exec(codec, s, steps).Some?
    ensures var t := Exec(codec, s, steps).value; t.queue.abort && !t.pc.Receive? && t.frames == s.frames
  {
    if steps != [] {
      AbortStops(codec, s, steps[..|steps| - 1]);
    }
  }

  /** From the top of its loop the decoder returns in two steps. */
  lemma AbortReturns(codec: Codec, s: State) returns (steps: seq<Step>, t: State)
    requires s.queue.abort && s.pc.Top? && s.pending == [] && !s.reader.Raising?
    ensures Exec(codec, s, steps) == Some(t) && t.pc.Idle? && |steps| == 2 && t.frames == s.frames
  {
    steps, t := Extend(codec, s, [], s, CompareTop);
    steps, t := Extend(codec, s, steps, t, if t.pc.AbortCheck? then LookAtAbort else TakeQueued);
  }
}
