/**
  What becomes of the timestamps of a packet on its way to the muxer, said of the packets that go in
  and those that come out, and not of the steps between.
 */
module MuxLaws {
  import opened Options
  import opened Muxing

  // ---- one packet ------------------------------------------------------------------------------

  /** A packet in the time base of the stream, or without timestamps where sync discards them. */
  function Converted(cfg: Config, rescale: bool, p: Packet): (q: Packet)
    ensures q.id == p.id
  {
    if cfg.dropSync then Packet(p.id, NOPTS, NOPTS)
    else if !rescale then p
    else Packet(p.id, if p.pts == NOPTS then NOPTS else cfg.rescale(p.pts),
                if p.dts == NOPTS then NOPTS else cfg.rescale(p.dts))
  }

  /** The least dts allowed after this one. */
  function Least(cfg: Config, last: Timestamp): int {
    if cfg.nonStrict then last else last + 1
  }

  /** The dts is before the least allowed, on a stream whose dts are kept in order. */
  predicate Late(cfg: Config, q: Packet, last: Timestamp) {
    && !cfg.noTimestamps && (cfg.media.Audio? || cfg.media.Video? || cfg.media.Subtitle?) && !cfg.vp9Copy
    && last != NOPTS && q.dts != NOPTS && q.dts < Least(cfg, last)
  }

  /** The dts is after the pts. */
  predicate Reversed(cfg: Config, q: Packet) {
    !cfg.noTimestamps && q.pts != NOPTS && q.dts != NOPTS && q.pts < q.dts
  }

  /** The number from low to high that is nearest to x. */
  function Nearest(x: int, low: int, high: int): (m: int)
    requires low <= high
    ensures low <= m <= high && (low <= x <= high ==> m == x) && (x < low ==> m == low) && (high < x ==> m == high)
  {
    if x < low then low else if high < x then high else x
  }

  /** A reversed packet gets one timestamp: from its pts to its dts, nearest to the one after the last dts. */
  function Straightened(cfg: Config, q: Packet, last: Timestamp): (r: Packet)
    ensures r.id == q.id && !Reversed(cfg, r) && (!Reversed(cfg, q) ==> r == q)
  {
    if Reversed(cfg, q) then
      var t: Timestamp := Nearest(last + 1, q.pts, q.dts);
      Packet(q.id, t, t)
    else q
  }

  /** What passes if nothing is late, and else has the least dts allowed, with the pts not before it. */
  predicate OnTime(cfg: Config, q: Packet, last: Timestamp, out: Packet) {
    && out.id == q.id
    && (!Late(cfg, q, last) ==> out == q)
    && (Late(cfg, q, last) ==>
          && out.dts == Least(cfg, last)
          && (q.pts == NOPTS ==> out.pts == NOPTS)
          && (q.pts != NOPTS ==> out.pts >= q.pts && out.pts >= out.dts && (out.pts == q.pts || out.pts == out.dts)))
  }

  /**
    The packet the muxer gets for q after one with dts last: q itself if nothing is wrong with its
    timestamps. If its dts is after its pts both are replaced first.
   */
  predicate Delivered(cfg: Config, q: Packet, last: Timestamp, out: Packet) {
    OnTime(cfg, Straightened(cfg, q, last), last, out)
  }

  /** The delivered packet is one only. */
  lemma DeliveredUnique(cfg: Config, q: Packet, last: Timestamp, a: Packet, b: Packet)
    requires Delivered(cfg, q, last, a) && Delivered(cfg, q, last, b)
    ensures a == b
  {
  }

  /** Where the dts is late, with exit_on_error the program ends. */
  predicate Fatal(cfg: Config, q: Packet, last: Timestamp) {
    cfg.exitOnError && Late(cfg, Straightened(cfg, q, last), last)
  }

  lemma PreparedIsConverted(cfg: Config, s: Stream, p: Packet)
    ensures Prepared(cfg, s, p) == Converted(cfg, !s.muxTimebaseSet, p)
  {
  }

  lemma GuessedIsStraightened(cfg: Config, s: Stream, q: Packet)
    ensures Guessed(cfg, s, q) == Straightened(cfg, q, s.lastMuxDts)
  {
    if Reversed(cfg, q) {
      GuessIsClamp(q.pts, q.dts, s.lastMuxDts + 1);
    }
  }

  /** One call: fatal as said, or else exactly one more packet at the muxer, delivered as said. */
  lemma MuxDelivers(cfg: Config, s: Stream, p: Packet)
    ensures var q := Converted(cfg, !s.muxTimebaseSet, p);
            && (Mux(cfg, s, p).None? <==> Fatal(cfg, q, s.lastMuxDts))
            && (Mux(cfg, s, p).Some? ==>
                  var out := Repaired(cfg, s, p);
                  && Delivered(cfg, q, s.lastMuxDts, out)
                  && Mux(cfg, s, p).value == s.(muxed := s.muxed + [out], lastMuxDts := out.dts))
  {
    PreparedIsConverted(cfg, s, p);
    GuessedIsStraightened(cfg, s, Prepared(cfg, s, p));
  }

  // ---- whole runs ------------------------------------------------------------------------------

  /** Stream i had a packet waiting when the header was written. */
  predicate Waited(cfgs: seq<Config>, steps: seq<Step>, i: nat)
    requires i < |cfgs|
  {
    steps != [] &&
    var before := steps[..|steps| - 1];
    if steps[|steps| - 1].Header? then Admitted(cfgs[i], Outputs(before, i)) != [] else Waited(cfgs, before, i)
  }

  function DtsBefore(muxed: seq<Packet>, k: nat): Timestamp
    requires k <= |muxed|
  {
    if k == 0 then NOPTS else muxed[k - 1].dts
  }

  /** Packet k at the muxer is the one due for packet k accepted, after the one before it. */
  predicate DeliveredAt(cfg: Config, rescale: bool, accepted: seq<Packet>, muxed: seq<Packet>, k: nat)
    requires k < |muxed| && k < |accepted|
  {
    Delivered(cfg, Converted(cfg, rescale, accepted[k]), DtsBefore(muxed, k), muxed[k])
  }

  predicate AllDelivered(cfg: Config, rescale: bool, accepted: seq<Packet>, muxed: seq<Packet>) {
    |muxed| <= |accepted| && forall k :: 0 <= k < |muxed| ==> DeliveredAt(cfg, rescale, accepted, muxed, k)
  }

  /** Later packets make no difference. */
  lemma DeliveredStays(cfg: Config, rescale: bool, accepted: seq<Packet>, muxed: seq<Packet>,
                       accepted': seq<Packet>, muxed': seq<Packet>, k: nat)
    requires accepted <= accepted' && muxed <= muxed' && k < |muxed| <= |accepted|
    requires DeliveredAt(cfg, rescale, accepted, muxed, k)
    ensures k < |muxed'| && k < |accepted'| && DeliveredAt(cfg, rescale, accepted', muxed', k)
  {
    assert accepted'[k] == accepted[k] && muxed'[k] == muxed[k] && DtsBefore(muxed', k) == DtsBefore(muxed, k);
  }

  lemma OneMoreDelivered(cfg: Config, rescale: bool, accepted: seq<Packet>, muxed: seq<Packet>, out: Packet)
    requires AllDelivered(cfg, rescale, accepted, muxed) && |muxed| < |accepted|
    requires Delivered(cfg, Converted(cfg, rescale, accepted[|muxed|]), DtsBefore(muxed, |muxed|), out)
    ensures AllDelivered(cfg, rescale, accepted, muxed + [out])
  {
    var all := muxed + [out];
    forall k | 0 <= k < |all| ensures DeliveredAt(cfg, rescale, accepted, all, k) {
      if k < |muxed| {
        DeliveredStays(cfg, rescale, accepted, muxed, accepted, all, k);
      } else {
        assert DtsBefore(all, k) == DtsBefore(muxed, k);
      }
    }
  }

  /** What has not gone to the muxer waits in the queue, as it was accepted. */
  predicate Flow(cfg: Config, s: Stream) {
    && AllDelivered(cfg, !s.muxTimebaseSet, s.accepted, s.muxed)
    && s.queue == s.accepted[|s.muxed|..] && s.lastMuxDts == DtsBefore(s.muxed, |s.muxed|)
  }

  lemma DrainFlowOne(cfg: Config, s: Stream)
    requires Flow(cfg, s) && s.queue != [] && Mux(cfg, s.(queue := s.queue[1..]), s.queue[0]).Some?
    ensures Flow(cfg, Mux(cfg, s.(queue := s.queue[1..]), s.queue[0]).value)
  {
    var popped, p := s.(queue := s.queue[1..]), s.queue[0];
    MuxDelivers(cfg, popped, p);
    OneMoreDelivered(cfg, !s.muxTimebaseSet, s.accepted, s.muxed, Repaired(cfg, popped, p));
  }

  lemma {:induction false} DrainFlow(cfg: Config, s: Stream)
    requires Flow(cfg, s) && Drained(cfg, s).Some?
    ensures var t := Drained(cfg, s).value;
            Flow(cfg, t) && t.queue == [] && t.accepted == s.accepted && t.muxTimebaseSet == s.muxTimebaseSet
    decreases |s.queue|
  {
    if s.queue != [] {
      DrainFlowOne(cfg, s);
      DrainFlow(cfg, Mux(cfg, s.(queue := s.queue[1..]), s.queue[0]).value);
    }
  }

  /** Accepting a packet leaves what is at the muxer as it is. */
  lemma AcceptFlow(cfg: Config, s: Stream, p: Packet)
    requires Flow(cfg, s)
    ensures AllDelivered(cfg, !s.muxTimebaseSet, s.accepted + [p], s.muxed)
    ensures (s.accepted + [p])[|s.muxed|..] == s.queue + [p]
  {
    var more, rescale := s.accepted + [p], !s.muxTimebaseSet;
    forall k | 0 <= k < |s.muxed| ensures DeliveredAt(cfg, rescale, more, s.muxed, k) {
      DeliveredStays(cfg, rescale, s.accepted, s.muxed, more, s.muxed, k);
    }
  }

  lemma SendFlow(cfg: Config, s: Stream, p: Packet)
    requires Flow(cfg, s) && s.queue == [] && Mux(cfg, Accepted(cfg, s, p), p).Some?
    ensures var t := Mux(cfg, Accepted(cfg, s, p), p).value;
            Flow(cfg, t) && t.queue == [] && t.muxTimebaseSet == s.muxTimebaseSet
  {
    var a := Accepted(cfg, s, p);
    AcceptFlow(cfg, s, p);
    MuxDelivers(cfg, a, p);
    assert |s.muxed| == |s.accepted|;
    OneMoreDelivered(cfg, !s.muxTimebaseSet, a.accepted, s.muxed, Repaired(cfg, a, p));
  }

  lemma WaitFlow(cfg: Config, s: Stream, p: Packet)
    requires Flow(cfg, s) && Enqueue(cfg, Accepted(cfg, s, p), p).Some?
    ensures var t := Enqueue(cfg, Accepted(cfg, s, p), p).value;
            Flow(cfg, t) && t.muxed == s.muxed && t.muxTimebaseSet == s.muxTimebaseSet
  {
    AcceptFlow(cfg, s, p);
  }

  lemma WriteFlow(cfg: Config, s: Stream, p: Packet, header: bool)
    requires Flow(cfg, s) && (header ==> s.queue == []) && Write(cfg, s, p, header).Some?
    ensures var t := Write(cfg, s, p, header).value; Flow(cfg, t) && t.muxTimebaseSet == s.muxTimebaseSet
    ensures if header then Write(cfg, s, p, header).value.queue == []
            else Write(cfg, s, p, header).value.muxed == s.muxed
  {
    if !Refused(cfg, s) {
      if header {
        SendFlow(cfg, s, p);
      } else {
        WaitFlow(cfg, s, p);
      }
    }
  }

  /** Before the header nothing is at the muxer; after it nothing waits. */
  predicate FlowInv(cfg: Config, s: Stream, header: bool, waited: bool) {
    && Flow(cfg, s)
    && if header then s.queue == [] && s.muxTimebaseSet == !waited else s.muxed == [] && !s.muxTimebaseSet
  }

  lemma HeaderFlow(cfg: Config, s: Stream, waited: bool)
    requires FlowInv(cfg, s, false, false) && waited == (s.accepted != []) && Opened(cfg, s).Some?
    ensures FlowInv(cfg, Opened(cfg, s).value, true, waited)
  {
    assert s.queue == s.accepted;
    DrainFlow(cfg, Opening(s));
  }

  lemma {:induction false} RunFlow(cfgs: seq<Config>, steps: seq<Step>, i: nat)
    requires Run(cfgs, steps).Some? && i < |cfgs|
    ensures var f := Run(cfgs, steps).value;
            FlowInv(cfgs[i], f.streams[i], f.header, Waited(cfgs, steps, i)) && (!f.header ==> !Waited(cfgs, steps, i))
  {
    if steps != [] {
      var before, step := steps[..|steps| - 1], steps[|steps| - 1];
      RunFlow(cfgs, before, i);
      FirstFramesAccepted(cfgs, before, i);
      var f := Run(cfgs, before).value;
      match step
      case Output(j, p) => if i == j { WriteFlow(cfgs[i], f.streams[i], p, f.header); }
      case Header => HeaderFlow(cfgs[i], f.streams[i], Waited(cfgs, steps, i));
    }
  }

  /**
    On every run without fatal exit, what the muxer has got from a stream is, packet by packet, what is
    due for the first max_frames packets output, each converted once: if a packet of the stream was
    queued, from the time base before the header to that of the stream, and else not at all.
   */
  lemma MuxerGetsDelivered(cfgs: seq<Config>, steps: seq<Step>, i: nat)
    requires Run(cfgs, steps).Some? && i < |cfgs|
    ensures var f := Run(cfgs, steps).value; var admitted := Admitted(cfgs[i], Outputs(steps, i));
            f.header ==>
              && |f.streams[i].muxed| == |admitted|
              && AllDelivered(cfgs[i], Waited(cfgs, steps, i), admitted, f.streams[i].muxed)
  {
    RunFlow(cfgs, steps, i);
    FirstFramesAccepted(cfgs, steps, i);
  }

  // ---- packets in order pass -------------------------------------------------------------------

  /** Nothing is wrong with the converted packets: pts not before dts, and each dts at least the least allowed. */
  predicate Sound(cfg: Config, packets: seq<Packet>) {
    && (forall k :: 0 <= k < |packets| ==> packets[k].dts != NOPTS)
    && (forall k :: 0 <= k < |packets| && packets[k].pts != NOPTS ==> packets[k].pts >= packets[k].dts)
    && (forall k, next :: 0 <= k && next == k + 1 < |packets| ==>
          packets[next].dts >= packets[k].dts + if cfg.nonStrict then 0 else 1)
  }

  function AllConverted(cfg: Config, rescale: bool, packets: seq<Packet>): (s: seq<Packet>)
    ensures |s| == |packets|
  {
    seq(|packets|, k requires 0 <= k < |packets| => Converted(cfg, rescale, packets[k]))
  }

  /** A packet with nothing wrong passes. */
  lemma SoundPasses(cfg: Config, q: Packet, last: Timestamp, out: Packet)
    requires Delivered(cfg, q, last, out) && (q.pts != NOPTS ==> q.pts >= q.dts)
    requires last == NOPTS || q.dts >= last + if cfg.nonStrict then 0 else 1
    ensures out == q
  {
  }

  lemma {:induction false} SoundUnchanged(cfg: Config, rescale: bool, accepted: seq<Packet>, muxed: seq<Packet>, k: nat)
    requires AllDelivered(cfg, rescale, accepted, muxed) && Sound(cfg, AllConverted(cfg, rescale, accepted))
    requires k < |muxed|
    ensures muxed[k] == Converted(cfg, rescale, accepted[k])
  {
    var all := AllConverted(cfg, rescale, accepted);
    assert all[k].dts != NOPTS && (all[k].pts != NOPTS ==> all[k].pts >= all[k].dts);
    if k > 0 {
      SoundUnchanged(cfg, rescale, accepted, muxed, k - 1);
      assert all[k].dts >= all[k - 1].dts + if cfg.nonStrict then 0 else 1;
      assert DtsBefore(muxed, k) == all[k - 1].dts;
    }
    assert DeliveredAt(cfg, rescale, accepted, muxed, k);
    SoundPasses(cfg, all[k], DtsBefore(muxed, k), muxed[k]);
  }

  /** If nothing is wrong with what is output, the muxer gets exactly that, converted. */
  lemma SoundRunUnchanged(cfgs: seq<Config>, steps: seq<Step>, i: nat)
    requires Run(cfgs, steps).Some? && i < |cfgs| && Run(cfgs, steps).value.header
    requires var all := Admitted(cfgs[i], Outputs(steps, i));
             Sound(cfgs[i], AllConverted(cfgs[i], Waited(cfgs, steps, i), all))
    ensures Run(cfgs, steps).value.streams[i].muxed
            == AllConverted(cfgs[i], Waited(cfgs, steps, i), Admitted(cfgs[i], Outputs(steps, i)))
  {
    MuxerGetsDelivered(cfgs, steps, i);
    var all, muxed := Admitted(cfgs[i], Outputs(steps, i)), Run(cfgs, steps).value.streams[i].muxed;
    forall k | 0 <= k < |muxed| ensures muxed[k] == AllConverted(cfgs[i], Waited(cfgs, steps, i), all)[k] {
      SoundUnchanged(cfgs[i], Waited(cfgs, steps, i), all, muxed, k);
    }
  }

  // ---- when a run ends -------------------------------------------------------------------------

  /**
    After the header, a packet that is not refused for the frame limit ends the program exactly if
    exit_on_error is set and its dts, converted and if need be guessed, is before the least allowed.
   */
  lemma FatalIff(cfgs: seq<Config>, steps: seq<Step>, i: nat, p: Packet)
    requires Run(cfgs, steps).Some? && i < |cfgs| && Run(cfgs, steps).value.header
    ensures var muxed := Run(cfgs, steps).value.streams[i].muxed;
            var refused := !(cfgs[i].media.Video? && cfgs[i].encoded) && |muxed| >= cfgs[i].maxFrames;
            Run(cfgs, steps + [Output(i, p)]).None? <==>
              !refused && Fatal(cfgs[i], Converted(cfgs[i], Waited(cfgs, steps, i), p), DtsBefore(muxed, |muxed|))
  {
    RunFlow(cfgs, steps, i);
    RunKeepsInv(cfgs, steps, i);
    assert (steps + [Output(i, p)])[..|steps|] == steps;
    var s := Run(cfgs, steps).value.streams[i];
    assert |s.muxed| == |Ids(s.muxed) + Ids(s.queue)| == |s.accepted|;
    MuxDelivers(cfgs[i], Accepted(cfgs[i], s, p), p);
  }

  // ---- the queue -------------------------------------------------------------------------------

  predicate Roomy(cfg: Config, s: Stream) {
    8 <= s.capacity <= Max(8, cfg.maxQueue) && |s.queue| <= s.capacity
  }

  /** A queue refuses a packet exactly when it holds eight, or the number allowed if that is more. */
  lemma EnqueueIff(cfg: Config, s: Stream, p: Packet)
    requires Roomy(cfg, s)
    ensures Enqueue(cfg, s, p).None? <==> |s.queue| >= 8 && |s.queue| >= cfg.maxQueue
    ensures Enqueue(cfg, s, p).Some? ==> Roomy(cfg, Enqueue(cfg, s, p).value)
  {
  }

  lemma {:induction false} DrainRoomy(cfg: Config, s: Stream)
    requires Roomy(cfg, s) && Drained(cfg, s).Some?
    ensures Roomy(cfg, Drained(cfg, s).value)
    decreases |s.queue|
  {
    if s.queue != [] {
      DrainRoomy(cfg, Mux(cfg, s.(queue := s.queue[1..]), s.queue[0]).value);
    }
  }

  lemma {:induction false} RunRoomy(cfgs: seq<Config>, steps: seq<Step>, i: nat)
    requires Run(cfgs, steps).Some? && i < |cfgs|
    ensures Roomy(cfgs[i], Run(cfgs, steps).value.streams[i])
  {
    if steps != [] {
      var before, step := steps[..|steps| - 1], steps[|steps| - 1];
      RunRoomy(cfgs, before, i);
      var f := Run(cfgs, before).value;
      match step
      case Output(j, p) => if i == j { EnqueueIff(cfgs[i], Accepted(cfgs[i], f.streams[i], p), p); }
      case Header => DrainRoomy(cfgs[i], Opening(f.streams[i]));
    }
  }

  /**
    Before the header, a packet that is not refused for the frame limit ends the program exactly if
    eight packets wait already, and as many as allowed.
   */
  lemma OverflowIff(cfgs: seq<Config>, steps: seq<Step>, i: nat, p: Packet)
    requires Run(cfgs, steps).Some? && i < |cfgs| && !Run(cfgs, steps).value.header
    ensures var waiting := |Admitted(cfgs[i], Outputs(steps, i))|;
            var refused := !(cfgs[i].media.Video? && cfgs[i].encoded) && waiting >= cfgs[i].maxFrames;
            Run(cfgs, steps + [Output(i, p)]).None? <==> !refused && waiting >= 8 && waiting >= cfgs[i].maxQueue
  {
    RunRoomy(cfgs, steps, i);
    RunFlow(cfgs, steps, i);
    RunKeepsInv(cfgs, steps, i);
    FirstFramesAccepted(cfgs, steps, i);
    assert (steps + [Output(i, p)])[..|steps|] == steps;
    var s := Run(cfgs, steps).value.streams[i];
    EnqueueIff(cfgs[i], Accepted(cfgs[i], s, p), p);
  }
}
