/**
  The serial protocol of ffplay: the reader thread, which flushes a packet queue and puts the flush
  packet on every seek, and the decoder thread, which runs decoder_decode_frame over that queue.

  Each step is what one thread does between two points where the other can run. The codec is
  abstract: a frame it returns was decoded from packets fed to it since its buffers were last flushed.
 */
module SerialProtocol {
  import opened Options
  import opened PacketQueues

  /** The switch of decoder_decode_frame has no case for subtitles. */
  datatype Codec = AudioVideo | Subtitle

  /**
    Reading; or in a seek, between packet_queue_flush and the put of flush_pkt; or in that put, holding
    the mutex of the queue, between the rise of the serial and the appending.
   */
  datatype Reader = Reading | Flushed | Raising

  /** The value of the local variable ret that matters to the loops. */
  datatype Ret = Again | Eof | Okay

  datatype Pc =
    | Idle               // outside decoder_decode_frame
    | Top                // about to compare the serials
    | AbortCheck         // serials were equal; about to look at abort_request
    | Receive            // about to receive a frame
    | Fetch              // about to take a packet
    | Check(pkt: Packet) // packet taken; about to compare the serials again
    | Feed(pkt: Packet)  // serials were equal; about to use the packet

  /** A frame handed to the caller: the serial it is tagged with and the serial it was decoded from. */
  datatype Frame = Frame(tag: int, source: int)

  datatype State = State(
    queue: Queue, reader: Reader,
    pc: Pc, ret: Ret, pktSerial: int, pending: seq<Packet>,
    fed: set<int>,        // serials of the packets fed since the last avcodec_flush_buffers
    sub: int,             // serial of the packet the caller's AVSubtitle was last decoded from
    frames: seq<Frame>)

  datatype Outcome = GotFrame(source: int) | Drained | NeedsInput | Failed

  datatype Step =
    // reader thread, and whoever aborts the queue
    | PutOrdinary(pkt: Packet) | SeekFlush | SeekRaise | SeekPut(flush: Packet) | AbortQueue
    // decoder thread
    | Call | CompareTop | LookAtAbort | TakeFrame(result: Outcome) | TakePending | TakeQueued
    | CompareAgain | UseFlush | Send(accepted: bool) | DecodeSubtitle(outcome: Outcome)

  /** The state in which decoder_start leaves queue and decoder. */
  function Start(serial: int, flush: Packet): State {
    State(Queue([Entry(flush, serial)], serial, false), Reading, Idle, Again, -1, [], {}, -1, [])
  }

  /** Without a case of its own, a subtitle stream finds in ret what the last decoding left there. */
  function Kept(ret: Ret, sub: int): Outcome {
    match ret
    case Again => NeedsInput
    case Eof => Drained
    case Okay => GotFrame(sub)
  }

  predicate Enabled(codec: Codec, s: State, step: Step) {
    match step
    case PutOrdinary(pkt) => s.reader.Reading? && !pkt.kind.Flush?
    case SeekFlush => s.reader.Reading?
    case SeekRaise => s.reader.Flushed?
    case SeekPut(flush) => s.reader.Raising? && flush.kind.Flush?
    case AbortQueue => !s.reader.Raising?
    case Call => s.pc.Idle?
    case CompareTop => s.pc.Top?
    case LookAtAbort => s.pc.AbortCheck?
    case TakeFrame(result) =>
      s.pc.Receive? &&
      (if codec.AudioVideo? then result.GotFrame? ==> result.source in s.fed else result == Kept(s.ret, s.sub))
    case TakePending => s.pc.Fetch? && s.pending != []
    case TakeQueued =>
      && s.pc.Fetch? && s.pending == [] && !s.reader.Raising?
      && (s.queue.abort || s.queue.entries != [])
    case CompareAgain => s.pc.Check?
    case UseFlush => s.pc.Feed? && s.pc.pkt.kind.Flush?
    case Send(accepted) => s.pc.Feed? && !s.pc.pkt.kind.Flush? && codec.AudioVideo?
    case DecodeSubtitle(outcome) =>
      s.pc.Feed? && !s.pc.pkt.kind.Flush? && codec.Subtitle?
      && (outcome.GotFrame? ==> outcome.source in s.fed + {s.pktSerial}) && !outcome.Drained?
  }

  function Do(codec: Codec, s: State, step: Step): State
    requires Enabled(codec, s, step)
  {
    match step
    case PutOrdinary(pkt) => s.(queue := Put(s.queue, pkt))
    case SeekFlush => s.(queue := Emptied(s.queue), reader := Flushed)
    case SeekRaise => if s.queue.abort then s.(reader := Reading) else s.(queue := Raised(s.queue), reader := Raising)
    case SeekPut(flush) => s.(queue := Appended(s.queue, flush), reader := Reading)
    case AbortQueue => s.(queue := s.queue.(abort := true))
    case Call => s.(pc := Top, ret := Again)
    case CompareTop => s.(pc := if s.queue.serial == s.pktSerial then AbortCheck else Fetch)
    case LookAtAbort => s.(pc := if s.queue.abort then Idle else Receive)
    case TakeFrame(result) =>
      (match result
       case GotFrame(source) => s.(pc := Idle, ret := Okay, frames := s.frames + [Frame(s.pktSerial, source)])
       case Drained => s.(pc := Idle, ret := Eof, fed := {})
       case NeedsInput => s.(pc := Fetch, ret := Again)
       case Failed => s.(pc := AbortCheck))
    case TakePending => s.(pc := Check(s.pending[0]), pending := [])
    case TakeQueued =>
      if s.queue.abort then s.(pc := Idle)
      else
        var e := s.queue.entries[0];
        s.(pc := Check(e.pkt), pktSerial := e.serial, queue := s.queue.(entries := s.queue.entries[1..]))
    case CompareAgain => s.(pc := if s.queue.serial == s.pktSerial then Feed(s.pc.pkt) else Fetch)
    case UseFlush => s.(pc := Top, fed := {})
    case Send(accepted) =>
      if accepted then s.(pc := Top, fed := s.fed + {s.pktSerial})
      else s.(pc := Top, pending := [s.pc.pkt])
    case DecodeSubtitle(outcome) =>
      var fed := s.(pc := Top, fed := s.fed + {s.pktSerial});
      match outcome
      case GotFrame(source) =>
        fed.(ret := Okay, sub := source, pending := if s.pc.pkt.kind.Null? then [s.pc.pkt] else s.pending)
      case NeedsInput => fed.(ret := if s.pc.pkt.kind.Data? then Again else Eof)
      case _ => fed.(ret := Again)
  }

  /** The state after a sequence of steps, if each was possible. */
  function Exec(codec: Codec, s: State, steps: seq<Step>): Option<State> {
    if steps == [] then Some(s)
    else
      var before := Exec(codec, s, steps[..|steps| - 1]);
      if before.None? || !Enabled(codec, before.value, steps[|steps| - 1]) then None
      else Some(Do(codec, before.value, steps[|steps| - 1]))
  }

  // ---- the property ----------------------------------------------------------------------------

  predicate OneSerialFed(s: State) {
    forall a, b :: a in s.fed && b in s.fed ==> a == b
  }

  predicate FramesTagged(s: State) {
    forall i :: 0 <= i < |s.frames| ==> s.frames[i].tag == s.frames[i].source
  }

  // ---- the invariant ---------------------------------------------------------------------------

  /** After a packet of serial c: a flush packet raises the serial, other packets carry the current one. */
  predicate Chain(c: int, es: seq<Entry>)
    decreases |es|
  {
    es == [] ||
    (if es[0].pkt.kind.Flush? then es[0].serial > c && Chain(es[0].serial, es[1..])
     else es[0].serial == c && Chain(c, es[1..]))
  }

  function LastSerial(c: int, es: seq<Entry>): int {
    if es == [] then c else es[|es| - 1].serial
  }

  lemma {:induction false} ChainAppend(c: int, es: seq<Entry>, e: Entry)
    requires Chain(c, es)
    requires if e.pkt.kind.Flush? then e.serial > LastSerial(c, es) else e.serial == LastSerial(c, es)
    ensures Chain(c, es + [e])
    decreases |es|
  {
    if es != [] {
      assert (es + [e])[1..] == es[1..] + [e];
      ChainAppend(es[0].serial, es[1..], e);
    }
  }

  /** Along a chain the serials never go down. */
  lemma {:induction false} ChainRises(c: int, es: seq<Entry>)
    requires Chain(c, es)
    ensures c <= LastSerial(c, es)
    ensures es != [] ==> c <= es[0].serial <= LastSerial(c, es) == LastSerial(es[0].serial, es[1..])
    decreases |es|
  {
    if es != [] {
      ChainRises(es[0].serial, es[1..]);
    }
  }

  predicate FlushInFlight(pc: Pc) {
    (pc.Check? || pc.Feed?) && pc.pkt.kind.Flush?
  }

  /**
    epoch is the serial of the last flush packet the decoder used. Everything fed since carries it,
    and the decoder only feeds or receives while its own serial is the epoch.
   */
  predicate Inv(s: State, epoch: int) {
    && s.fed <= {epoch}
    && s.pktSerial <= s.queue.serial
    && LastSerial(s.pktSerial, s.queue.entries) <= s.queue.serial
    && Chain(s.pktSerial, s.queue.entries)
    && (s.reader.Reading? && !s.queue.abort ==> LastSerial(s.pktSerial, s.queue.entries) == s.queue.serial)
    && (s.reader.Raising? ==> !s.queue.abort && LastSerial(s.pktSerial, s.queue.entries) < s.queue.serial)
    && |s.pending| <= 1 && (s.pending != [] ==> !s.pending[0].kind.Flush?)
    && (epoch == s.pktSerial || s.pktSerial < s.queue.serial || FlushInFlight(s.pc))
    && (s.pc.AbortCheck? || s.pc.Receive? ==> epoch == s.pktSerial)
    && (s.pc.Feed? && !s.pc.pkt.kind.Flush? ==> epoch == s.pktSerial)
    && epoch <= s.pktSerial && (FlushInFlight(s.pc) ==> epoch < s.pktSerial)
  }

  /** The epoch after a step. */
  function NextEpoch(s: State, step: Step, epoch: int): int {
    if step.UseFlush? then s.pktSerial else epoch
  }

  predicate ReaderStep(step: Step) {
    step.PutOrdinary? || step.SeekFlush? || step.SeekRaise? || step.SeekPut? || step.AbortQueue?
  }

  lemma QueueStepKeepsInv(codec: Codec, s: State, step: Step, epoch: int)
    requires Inv(s, epoch) && Enabled(codec, s, step) && ReaderStep(step)
    ensures Inv(Do(codec, s, step), epoch)
  {
    var es := s.queue.entries;
    if step.PutOrdinary? && !s.queue.abort {
      ChainAppend(s.pktSerial, es, Entry(step.pkt, s.queue.serial));
    } else if step.SeekPut? {
      ChainAppend(s.pktSerial, es, Entry(step.flush, s.queue.serial));
    }
  }

  lemma DecoderStepKeepsInv(codec: Codec, s: State, step: Step, epoch: int)
    requires Inv(s, epoch) && Enabled(codec, s, step) && !ReaderStep(step)
    ensures Inv(Do(codec, s, step), NextEpoch(s, step, epoch))
  {
    ChainRises(s.pktSerial, s.queue.entries);
  }

  lemma StepKeepsInv(codec: Codec, s: State, step: Step, epoch: int)
    requires Inv(s, epoch) && Enabled(codec, s, step)
    ensures Inv(Do(codec, s, step), NextEpoch(s, step, epoch))
  {
    if ReaderStep(step) {
      QueueStepKeepsInv(codec, s, step, epoch);
    } else {
      DecoderStepKeepsInv(codec, s, step, epoch);
    }
  }

  /** A flush packet was used since a subtitle was last decoded. */
  predicate FlushedSince(steps: seq<Step>) {
    steps != [] &&
    match steps[|steps| - 1]
    case UseFlush => true
    case DecodeSubtitle(GotFrame(_)) => false
    case _ => FlushedSince(steps[..|steps| - 1])
  }

  /** A frame is returned that was decoded before the last flush packet was used. */
  predicate Late(before: seq<Step>, step: Step) {
    step.TakeFrame? && step.result.GotFrame? && FlushedSince(before)
  }

  predicate NeverLate(steps: seq<Step>) {
    steps == [] || (NeverLate(steps[..|steps| - 1]) && !Late(steps[..|steps| - 1], steps[|steps| - 1]))
  }

  /** What a subtitle that is still to be returned was decoded from. */
  predicate SubInv(codec: Codec, s: State, epoch: int, flushed: bool) {
    codec.Subtitle? && s.ret.Okay? ==> s.sub <= epoch && (flushed <==> s.sub < epoch)
  }

  lemma SubtitleStep(codec: Codec, s: State, before: seq<Step>, steps: seq<Step>, step: Step, epoch: int)
    requires Inv(s, epoch) && SubInv(codec, s, epoch, FlushedSince(before)) && Enabled(codec, s, step)
    requires steps != [] && steps[|steps| - 1] == step && steps[..|steps| - 1] == before
    ensures SubInv(codec, Do(codec, s, step), NextEpoch(s, step, epoch), FlushedSince(steps))
  {
  }

  /** A step keeps the frames tagged unless it returns a subtitle late. */
  lemma FrameStep(codec: Codec, s: State, before: seq<Step>, step: Step, epoch: int)
    requires Inv(s, epoch) && SubInv(codec, s, epoch, FlushedSince(before)) && Enabled(codec, s, step)
    ensures FramesTagged(Do(codec, s, step))
            <==> FramesTagged(s) && (codec.AudioVideo? || !Late(before, step))
  {
    var frames, frames' := s.frames, Do(codec, s, step).frames;
    if step.TakeFrame? && step.result.GotFrame? {
      var n := |frames|;
      assert frames' == frames + [Frame(s.pktSerial, step.result.source)];
      assert FramesTagged(Do(codec, s, step)) ==> frames'[n].tag == frames'[n].source;
      assert forall i :: 0 <= i < n ==> frames'[i] == frames[i];
    } else {
      assert frames' == frames;
    }
  }

  /** Every interleaving keeps the invariants. */
  lemma {:induction false} Reachable(codec: Codec, serial: int, flush: Packet, steps: seq<Step>) returns (epoch: int)
    requires serial >= 0 && flush.kind.Flush? && Exec(codec, Start(serial, flush), steps).Some?
    ensures var s := Exec(codec, Start(serial, flush), steps).value;
            && Inv(s, epoch) && SubInv(codec, s, epoch, FlushedSince(steps))
            && (FramesTagged(s) <==> codec.AudioVideo? || NeverLate(steps))
  {
    if steps == [] {
      epoch := -1;
      assert [Entry(flush, serial)][1..] == [];
    } else {
      var before, step := steps[..|steps| - 1], steps[|steps| - 1];
      epoch := Reachable(codec, serial, flush, before);
      var s := Exec(codec, Start(serial, flush), before).value;
      StepKeepsInv(codec, s, step, epoch);
      SubtitleStep(codec, s, before, steps, step, epoch);
      FrameStep(codec, s, before, step, epoch);
      epoch := NextEpoch(s, step, epoch);
    }
  }

  /**
    On every run the returned frames are tagged with the serials they were decoded from, if and only if
    the codec is not for subtitles or no subtitle was returned after a flush packet that was used
    since its decoding.
   */
  lemma TaggedIff(codec: Codec, serial: int, flush: Packet, steps: seq<Step>)
    requires serial >= 0 && flush.kind.Flush? && Exec(codec, Start(serial, flush), steps).Some?
    ensures FramesTagged(Exec(codec, Start(serial, flush), steps).value)
            <==> codec.AudioVideo? || NeverLate(steps)
  {
    var epoch := Reachable(codec, serial, flush, steps);
  }

  /** All packets fed to the codec since its buffers were last flushed carry one serial. */
  lemma FedIsolated(codec: Codec, serial: int, flush: Packet, steps: seq<Step>)
    requires serial >= 0 && flush.kind.Flush? && Exec(codec, Start(serial, flush), steps).Some?
    ensures OneSerialFed(Exec(codec, Start(serial, flush), steps).value)
  {
    var epoch := Reachable(codec, serial, flush, steps);
  }

  /** On every run, every returned frame is tagged with the serial it was decoded from. */
  ghost predicate Isolated(codec: Codec) {
    forall serial: int, flush: Packet, steps: seq<Step> ::
      serial >= 0 && flush.kind.Flush? && Exec(codec, Start(serial, flush), steps).Some? ==>
        FramesTagged(Exec(codec, Start(serial, flush), steps).value)
  }

  lemma Extend(codec: Codec, start: State, steps: seq<Step>, s: State, step: Step)
    returns (steps': seq<Step>, s': State)
    requires Exec(codec, start, steps) == Some(s) && Enabled(codec, s, step)
    ensures steps' == steps + [step] && s' == Do(codec, s, step) && Exec(codec, start, steps') == Some(s')
  {
    steps', s' := steps + [step], Do(codec, s, step);
    assert steps'[..|steps'| - 1] == steps;
  }

  lemma FlushTaken(flush: Packet, data: Packet) returns (steps: seq<Step>, s: State)
    requires flush.kind.Flush? && data.kind.Data?
    ensures Exec(Subtitle, Start(1, flush), steps) == Some(s)
    ensures s == State(Queue([Entry(data, 1)], 1, false), Reading, Check(flush), Again, 1, [], {}, -1, [])
  {
    var c, start := Subtitle, Start(1, flush);
    steps, s := [], start;
    steps, s := Extend(c, start, steps, s, PutOrdinary(data));
    steps, s := Extend(c, start, steps, s, Call);
    steps, s := Extend(c, start, steps, s, CompareTop);
    steps, s := Extend(c, start, steps, s, TakeQueued);
  }

  lemma FlushUsed(flush: Packet, data: Packet) returns (steps: seq<Step>, s: State)
    requires flush.kind.Flush? && data.kind.Data?
    ensures Exec(Subtitle, Start(1, flush), steps) == Some(s)
    ensures s == State(Queue([Entry(data, 1)], 1, false), Reading, Fetch, Again, 1, [], {}, -1, [])
  {
    var c, start := Subtitle, Start(1, flush);
    steps, s := FlushTaken(flush, data);
    steps, s := Extend(c, start, steps, s, CompareAgain);
    steps, s := Extend(c, start, steps, s, UseFlush);
    steps, s := Extend(c, start, steps, s, CompareTop);
    steps, s := Extend(c, start, steps, s, LookAtAbort);
    steps, s := Extend(c, start, steps, s, TakeFrame(NeedsInput));
  }

  lemma SubtitleDecoded(flush: Packet, data: Packet) returns (steps: seq<Step>, s: State)
    requires flush.kind.Flush? && data.kind.Data?
    ensures Exec(Subtitle, Start(1, flush), steps) == Some(s)
    ensures s == State(Queue([], 1, false), Reading, Top, Okay, 1, [], {1}, 1, [])
  {
    var c, start := Subtitle, Start(1, flush);
    steps, s := FlushUsed(flush, data);
    steps, s := Extend(c, start, steps, s, TakeQueued);
    steps, s := Extend(c, start, steps, s, CompareAgain);
    steps, s := Extend(c, start, steps, s, DecodeSubtitle(GotFrame(1)));
  }

  /** A subtitle is decoded, and a seek comes in before the serials are compared again. */
  lemma StaleSubtitleDecoded(flush: Packet, data: Packet) returns (steps: seq<Step>, s: State)
    requires flush.kind.Flush? && data.kind.Data?
    ensures Exec(Subtitle, Start(1, flush), steps) == Some(s)
    ensures s == State(Queue([Entry(flush, 2)], 2, false), Reading, Top, Okay, 1, [], {1}, 1, [])
  {
    var c, start := Subtitle, Start(1, flush);
    steps, s := SubtitleDecoded(flush, data);
    steps, s := Extend(c, start, steps, s, SeekFlush);
    steps, s := Extend(c, start, steps, s, SeekRaise);
    steps, s := Extend(c, start, steps, s, SeekPut(flush));
  }

  /** The loop then uses the new flush packet. */
  lemma NewFlushUsed(flush: Packet, data: Packet) returns (steps: seq<Step>, s: State)
    requires flush.kind.Flush? && data.kind.Data?
    ensures Exec(Subtitle, Start(1, flush), steps) == Some(s)
    ensures s == State(Queue([], 2, false), Reading, Top, Okay, 2, [], {}, 1, [])
  {
    var c, start := Subtitle, Start(1, flush);
    steps, s := StaleSubtitleDecoded(flush, data);
    steps, s := Extend(c, start, steps, s, CompareTop);
    steps, s := Extend(c, start, steps, s, TakeQueued);
    steps, s := Extend(c, start, steps, s, CompareAgain);
    steps, s := Extend(c, start, steps, s, UseFlush);
  }

  /** It still holds ret == 0, and returns the old subtitle. */
  lemma StaleSubtitleReturned(flush: Packet, data: Packet) returns (steps: seq<Step>, s: State)
    requires flush.kind.Flush? && data.kind.Data?
    ensures Exec(Subtitle, Start(1, flush), steps) == Some(s) && s.frames == [Frame(2, 1)]
  {
    var c, start := Subtitle, Start(1, flush);
    steps, s := NewFlushUsed(flush, data);
    steps, s := Extend(c, start, steps, s, CompareTop);
    steps, s := Extend(c, start, steps, s, LookAtAbort);
    steps, s := Extend(c, start, steps, s, TakeFrame(GotFrame(1)));
  }

  /** Serial isolation of returned frames holds for audio and video, and only for them. */
  lemma IsolatedIff(codec: Codec)
    ensures Isolated(codec) <==> codec.AudioVideo?
  {
    if codec.AudioVideo? {
      forall serial: int, flush: Packet, steps: seq<Step>
        | serial >= 0 && flush.kind.Flush? && Exec(codec, Start(serial, flush), steps).Some?
        ensures FramesTagged(Exec(codec, Start(serial, flush), steps).value)
      {
        var epoch := Reachable(codec, serial, flush, steps);
      }
    } else {
      var flush := Packet(Flush, 0, 0);
      var steps, s := StaleSubtitleReturned(flush, Packet(Data, 0, 0));
      assert s.frames[0].tag != s.frames[0].source;
      assert !FramesTagged(s);
    }
  }
}
