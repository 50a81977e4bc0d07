/**
  The way of a packet to the muxer in ffmpeg.c: write_packet counts it, queues it while the header is
  not written, and repairs its timestamps; check_init_output_file writes the header and empties the
  queues. The muxer is a sink that records what it is given.
 */
module Muxing {
  import opened Options

  /** AV_NOPTS_VALUE is the least timestamp. */
  const NOPTS: int := -0x8000_0000_0000_0000

  type Timestamp = t: int | NOPTS <= t witness NOPTS

  datatype Packet = Packet(id: int, pts: Timestamp, dts: Timestamp)

  datatype Media = Audio | Video | Subtitle | Other

  datatype Config = Config(
    media: Media,
    encoded: bool,                     // encoding_needed
    vp9Copy: bool,                     // a VP9 stream that is copied
    dropSync: bool,                    // the sync method of the medium discards timestamps
    maxFrames: int,
    maxQueue: int,                     // max_muxing_queue_size, in packets
    noTimestamps: bool,                // AVFMT_NOTIMESTAMPS
    nonStrict: bool,                   // AVFMT_TS_NONSTRICT
    exitOnError: bool,
    rescale: Timestamp -> Timestamp)   // from mux_timebase to the time base of the stream

  /** An output stream, the packets the muxer got from it, and those accepted from the encoder. */
  datatype Stream = Stream(
    frameNumber: int, lastMuxDts: Timestamp, queue: seq<Packet>, capacity: nat, muxTimebaseSet: bool,
    muxed: seq<Packet>, accepted: seq<Packet>)

  function Fresh(): Stream {
    Stream(0, NOPTS, [], 8, false, [], [])
  }

  // ---- timestamps ------------------------------------------------------------------------------

  function Min(a: int, b: int): int { if a <= b then a else b }
  function Max(a: int, b: int): int { if a >= b then a else b }

  /** The replacement for pts and dts when dts > pts. */
  function Guess(pts: int, dts: int, next: int): int {
    pts + dts + next - Min(Min(pts, dts), next) - Max(Max(pts, dts), next)
  }

  function Clamp(x: int, low: int, high: int): int {
    if x < low then low else if x > high then high else x
  }

  /** The guess is the next expected dts, clamped between pts and dts. */
  lemma GuessIsClamp(pts: int, dts: int, next: int)
    requires pts <= dts
    ensures Guess(pts, dts, next) == Clamp(next, pts, dts)
  {
  }

  function Rescaled(cfg: Config, s: Stream, t: Timestamp): Timestamp {
    if t == NOPTS || s.muxTimebaseSet then t else cfg.rescale(t)
  }

  /** Without sync the timestamps go; otherwise they are converted. */
  function Prepared(cfg: Config, s: Stream, p: Packet): Packet {
    var q := if cfg.dropSync then p.(pts := NOPTS, dts := NOPTS) else p;
    q.(pts := Rescaled(cfg, s, q.pts), dts := Rescaled(cfg, s, q.dts))
  }

  /** A stream whose timestamps are neither discarded, nor lost or reordered in conversion. */
  ghost predicate Faithful(cfg: Config) {
    && KeepsTimestamps(cfg)
    && forall a: Timestamp, b: Timestamp :: NOPTS < a <= b ==> cfg.rescale(a) <= cfg.rescale(b)
  }

  predicate Inverted(cfg: Config, p: Packet) {
    !cfg.noTimestamps && p.dts != NOPTS && p.pts != NOPTS && p.dts > p.pts
  }

  function Guessed(cfg: Config, s: Stream, p: Packet): Packet {
    if Inverted(cfg, p) then
      GuessIsClamp(p.pts, p.dts, s.lastMuxDts + 1);
      var guess: Timestamp := Guess(p.pts, p.dts, s.lastMuxDts + 1);
      p.(pts := guess, dts := guess)
    else p
  }

  /** The streams whose dts are kept in order. */
  predicate Ordered(cfg: Config) {
    !cfg.noTimestamps && !cfg.media.Other? && !cfg.vp9Copy
  }

  function Gap(cfg: Config): nat {
    if cfg.nonStrict then 0 else 1
  }

  predicate TooEarly(cfg: Config, s: Stream, p: Packet) {
    Ordered(cfg) && p.dts != NOPTS && s.lastMuxDts != NOPTS && p.dts < s.lastMuxDts + Gap(cfg)
  }

  function Raised(cfg: Config, s: Stream, p: Packet): Packet {
    if TooEarly(cfg, s, p) then
      var least: Timestamp := s.lastMuxDts + Gap(cfg);
      p.(pts := if p.pts >= p.dts then (if p.pts >= least then p.pts else least) else p.pts, dts := least)
    else p
  }

  function Candidate(cfg: Config, s: Stream, p: Packet): Packet {
    Guessed(cfg, s, Prepared(cfg, s, p))
  }

  /** The packet the muxer gets for p. */
  function Repaired(cfg: Config, s: Stream, p: Packet): Packet {
    Raised(cfg, s, Candidate(cfg, s, p))
  }

  // ---- write_packet ----------------------------------------------------------------------------

  /** None is a fatal exit. */
  function Mux(cfg: Config, s: Stream, p: Packet): Option<Stream> {
    var r := Repaired(cfg, s, p);
    if cfg.exitOnError && TooEarly(cfg, s, Candidate(cfg, s, p)) then None
    else Some(s.(lastMuxDts := r.dts, muxed := s.muxed + [r]))
  }

  function Enqueue(cfg: Config, s: Stream, p: Packet): Option<Stream> {
    var grown := Min(2 * |s.queue|, cfg.maxQueue);
    if |s.queue| < s.capacity then Some(s.(queue := s.queue + [p]))
    else if grown <= |s.queue| then None
    else Some(s.(queue := s.queue + [p], capacity := grown))
  }

  /** Frames of encoded video are counted before encoding. */
  predicate CountsHere(cfg: Config) {
    !(cfg.media.Video? && cfg.encoded)
  }

  predicate Refused(cfg: Config, s: Stream) {
    CountsHere(cfg) && s.frameNumber >= cfg.maxFrames
  }

  function Accepted(cfg: Config, s: Stream, p: Packet): Stream {
    s.(accepted := s.accepted + [p], frameNumber := s.frameNumber + if CountsHere(cfg) then 1 else 0)
  }

  /** A packet that has not been in the queue. */
  function Write(cfg: Config, s: Stream, p: Packet, header: bool): Option<Stream> {
    if Refused(cfg, s) then Some(s)
    else if header then Mux(cfg, Accepted(cfg, s, p), p)
    else Enqueue(cfg, Accepted(cfg, s, p), p)
  }

  function Drained(cfg: Config, s: Stream): Option<Stream>
    decreases |s.queue|
  {
    if s.queue == [] then Some(s)
    else
      var next := Mux(cfg, s.(queue := s.queue[1..]), s.queue[0]);
      if next.None? then None else Drained(cfg, next.value)
  }

  /** A stream about to be drained when the header has been written. */
  function Opening(s: Stream): Stream {
    if s.queue == [] then s.(muxTimebaseSet := true) else s
  }

  /** A stream when the header has been written. */
  function Opened(cfg: Config, s: Stream): Option<Stream> {
    Drained(cfg, Opening(s))
  }

  class OutputStream {
    const cfg: Config
    var frameNumber: int
    var lastMuxDts: Timestamp
    var queue: seq<Packet>
    var capacity: nat
    var muxTimebaseSet: bool
    var muxed: seq<Packet>
    ghost var accepted: seq<Packet>

    constructor (cfg: Config)
      ensures this.cfg == cfg && Value() == Fresh()
    {
      this.cfg := cfg;
      frameNumber, lastMuxDts, queue, capacity, muxTimebaseSet, muxed, accepted := 0, NOPTS, [], 8, false, [], [];
    }

    ghost function Value(): Stream
      reads this
    {
      Stream(frameNumber, lastMuxDts, queue, capacity, muxTimebaseSet, muxed, accepted)
    }

    /**
      Discards or converts the timestamps: none is invented, and a conversion that keeps order puts no
      dts behind its pts.
     */
    method Prepare(p: Packet) returns (pkt: Packet)
      ensures pkt == Prepared(cfg, Value(), p) && pkt.id == p.id
      ensures cfg.dropSync ==> pkt.pts == pkt.dts == NOPTS
      ensures (p.pts == NOPTS ==> pkt.pts == NOPTS) && (p.dts == NOPTS ==> pkt.dts == NOPTS)
      ensures Faithful(cfg) ==> (Inverted(cfg, pkt) ==> Inverted(cfg, p))
      ensures Faithful(cfg) ==> (pkt.pts == NOPTS <==> p.pts == NOPTS) && (pkt.dts == NOPTS <==> p.dts == NOPTS)
    {
      pkt := p;
      if cfg.dropSync {
        pkt := pkt.(pts := NOPTS, dts := NOPTS);
      }
      if !muxTimebaseSet {
        pkt := pkt.(pts := if pkt.pts != NOPTS then cfg.rescale(pkt.pts) else NOPTS,
                    dts := if pkt.dts != NOPTS then cfg.rescale(pkt.dts) else NOPTS);
      }
    }

    /** Replaces a dts after the pts by a guess, and a dts before the last one by the least allowed. */
    method Repair(p: Packet) returns (pkt: Packet, fatal: bool)
      ensures fatal == (cfg.exitOnError && TooEarly(cfg, Value(), Guessed(cfg, Value(), p)))
      ensures !fatal ==> pkt == Raised(cfg, Value(), Guessed(cfg, Value(), p))
    {
      pkt, fatal := p, false;
      if !cfg.noTimestamps {
        if pkt.dts != NOPTS && pkt.pts != NOPTS && pkt.dts > pkt.pts {
          GuessIsClamp(pkt.pts, pkt.dts, lastMuxDts + 1);
          var guess: Timestamp := Guess(pkt.pts, pkt.dts, lastMuxDts + 1);
          pkt := pkt.(pts := guess, dts := guess);
        }
        assert pkt == Guessed(cfg, Value(), p);
        if !cfg.media.Other? && pkt.dts != NOPTS && !cfg.vp9Copy && lastMuxDts != NOPTS {
          var max: Timestamp := lastMuxDts + if cfg.nonStrict then 0 else 1;
          if pkt.dts < max {
            if cfg.exitOnError {
              return pkt, true;
            }
            if pkt.pts >= pkt.dts {
              pkt := pkt.(pts := if pkt.pts >= max then pkt.pts else max);
            }
            pkt := pkt.(dts := max);
          }
        }
      }
    }

    /** From the discarding of timestamps to the call of the muxer. */
    method SendToMuxer(p: Packet) returns (fatal: bool)
      modifies this
      ensures var r := Mux(cfg, old(Value()), p);
              fatal == r.None? && (r.Some? ==> Value() == r.value)
    {
      var pkt := Prepare(p);
      pkt, fatal := Repair(pkt);
      if !fatal {
        lastMuxDts := pkt.dts;
        muxed := muxed + [pkt];
      }
    }

    /** The queue doubles up to its limit. */
    method Queue(p: Packet) returns (fatal: bool)
      modifies this
      ensures var r := Enqueue(cfg, old(Value()), p);
              fatal == r.None? && (r.Some? ==> Value() == r.value)
    {
      if |queue| >= capacity {
        var newSize := Min(2 * |queue|, cfg.maxQueue);
        if newSize <= |queue| {
          return true;
        }
        capacity := newSize;
      }
      queue := queue + [p];
      fatal := false;
    }

    /** write_packet; header_written is a field of the file. */
    method WritePacket(p: Packet, headerWritten: bool, unqueue: bool) returns (fatal: bool)
      modifies this
      ensures var s := old(Value());
              var r := if !unqueue then Write(cfg, s, p, headerWritten)
                       else if headerWritten then Mux(cfg, s, p) else Enqueue(cfg, s, p);
              fatal == r.None? && (r.Some? ==> Value() == r.value)
    {
      if !unqueue {
        if !(cfg.media.Video? && cfg.encoded) {
          if frameNumber >= cfg.maxFrames {
            return false;
          }
          frameNumber := frameNumber + 1;
        }
        accepted := accepted + [p];
        assert Value() == Accepted(cfg, old(Value()), p);
      }
      if headerWritten {
        fatal := SendToMuxer(p);
      } else {
        fatal := Queue(p);
      }
    }

    /** The part of check_init_output_file for one stream. */
    method Open() returns (fatal: bool)
      modifies this
      ensures var r := Opened(cfg, old(Value()));
              fatal == r.None? && (r.Some? ==> Value() == r.value)
    {
      if |queue| == 0 {
        muxTimebaseSet := true;
      }
      while |queue| > 0
        invariant Drained(cfg, Value()) == Opened(cfg, old(Value()))
        decreases |queue|
      {
        ghost var s := Value();
        var p := queue[0];
        queue := queue[1..];
        ghost var n := |queue|;
        fatal := WritePacket(p, true, true);
        if fatal {
          return;
        }
      }
      fatal := false;
    }
  }

  class OutputFile {
    const streams: seq<OutputStream>
    var headerWritten: bool

    constructor (streams: seq<OutputStream>)
      ensures this.streams == streams && !headerWritten
    {
      this.streams, headerWritten := streams, false;
    }

    ghost predicate Distinct() {
      forall i, j :: 0 <= i < j < |streams| ==> streams[i] != streams[j]
    }

    /** check_init_output_file, once all streams are initialized: every queue is emptied, in order. */
    method WriteHeader() returns (fatal: bool)
      requires Distinct()
      modifies this, streams
      ensures headerWritten
      ensures !fatal ==> forall i :: 0 <= i < |streams| ==>
                Opened(streams[i].cfg, old(streams[i].Value())) == Some(streams[i].Value())
      ensures fatal ==> exists i :: 0 <= i < |streams| && Opened(streams[i].cfg, old(streams[i].Value())).None?
    {
      headerWritten := true;
      var i := 0;
      while i < |streams|
        invariant 0 <= i <= |streams|
        invariant headerWritten
        invariant forall j :: 0 <= j < i ==> Opened(streams[j].cfg, old(streams[j].Value())) == Some(streams[j].Value())
        invariant forall j :: i <= j < |streams| ==> streams[j].Value() == old(streams[j].Value())
      {
        fatal := streams[i].Open();
        if fatal {
          return;
        }
        i := i + 1;
      }
      fatal := false;
    }
  }

  // ---- runs ------------------------------------------------------------------------------------

  /** A file: whether its header is written, and its streams. */
  datatype File = File(header: bool, streams: seq<Stream>)

  datatype Step = Output(stream: nat, pkt: Packet) | Header

  function OpenAll(cfgs: seq<Config>, streams: seq<Stream>): (r: Option<seq<Stream>>)
    requires |cfgs| == |streams|
    ensures r.Some? ==> |r.value| == |streams|
    ensures r.Some? ==> forall i :: 0 <= i < |streams| ==> Opened(cfgs[i], streams[i]) == Some(r.value[i])
  {
    if streams == [] then Some([])
    else
      var n := |streams| - 1;
      var before, last := OpenAll(cfgs[..n], streams[..n]), Opened(cfgs[n], streams[n]);
      if before.None? || last.None? then None else Some(before.value + [last.value])
  }

  /** None is a fatal exit, or a second header. */
  function Do(cfgs: seq<Config>, f: File, step: Step): Option<File>
    requires |cfgs| == |f.streams|
  {
    match step
    case Output(i, p) =>
      if i >= |cfgs| then None
      else
        var r := Write(cfgs[i], f.streams[i], p, f.header);
        if r.None? then None else Some(f.(streams := f.streams[i := r.value]))
    case Header =>
      if f.header then None
      else
        var r := OpenAll(cfgs, f.streams);
        if r.None? then None else Some(File(true, r.value))
  }

  /** The file after a run without fatal exit. */
  function Run(cfgs: seq<Config>, steps: seq<Step>): (f: Option<File>)
    ensures f.Some? ==> |f.value.streams| == |cfgs|
  {
    if steps == [] then Some(File(false, seq(|cfgs|, _ => Fresh())))
    else
      var before := Run(cfgs, steps[..|steps| - 1]);
      if before.None? then None else Do(cfgs, before.value, steps[|steps| - 1])
  }

  // ---- order -----------------------------------------------------------------------------------

  function Ids(s: seq<Packet>): seq<int> {
    seq(|s|, i requires 0 <= i < |s| => s[i].id)
  }

  lemma IdsAppend(a: seq<Packet>, b: seq<Packet>)
    ensures Ids(a + b) == Ids(a) + Ids(b)
  {
  }

  /** The muxer's packets and then the queue are what was accepted, each packet once and counted once. */
  predicate InOrder(cfg: Config, s: Stream) {
    && Ids(s.muxed) + Ids(s.queue) == Ids(s.accepted)
    && s.frameNumber == (if CountsHere(cfg) then |s.accepted| else 0)
    && (CountsHere(cfg) ==> |s.accepted| <= Max(0, cfg.maxFrames))
  }

  /** What the header separates. */
  predicate Phase(header: bool, s: Stream) {
    if header then s.queue == [] else s.muxed == [] && s.lastMuxDts == NOPTS
  }

  /** last_mux_dts is the dts of the last packet. */
  predicate LastKnown(s: Stream) {
    s.lastMuxDts == if s.muxed == [] then NOPTS else s.muxed[|s.muxed| - 1].dts
  }

  // ---- timestamps ------------------------------------------------------------------------------

  /** A valid pts is not before its dts. */
  predicate PtsAfterDts(cfg: Config, s: Stream) {
    !cfg.noTimestamps ==> forall k :: 0 <= k < |s.muxed| && s.muxed[k].pts != NOPTS ==> s.muxed[k].pts >= s.muxed[k].dts
  }

  /** Of two packets next to each other with valid dts, the second is later. */
  predicate Neighbours(cfg: Config, s: Stream) {
    Ordered(cfg) ==>
      forall k, next :: 0 <= k && next == k + 1 < |s.muxed| && s.muxed[k].dts != NOPTS && s.muxed[next].dts != NOPTS ==>
        s.muxed[next].dts >= s.muxed[k].dts + Gap(cfg)
  }

  predicate Good(cfg: Config, s: Stream) {
    && Ids(s.muxed) + Ids(s.queue) == Ids(s.accepted)
    && LastKnown(s) && PtsAfterDts(cfg, s) && Neighbours(cfg, s)
  }

  lemma MuxStep(cfg: Config, s: Stream, p: Packet)
    requires Mux(cfg, s, p).Some? && LastKnown(s) && PtsAfterDts(cfg, s) && Neighbours(cfg, s)
    ensures var t := Mux(cfg, s, p).value;
            && LastKnown(t) && PtsAfterDts(cfg, t) && Neighbours(cfg, t)
            && Ids(t.muxed) == Ids(s.muxed) + [p.id] && t.queue == s.queue
  {
    IdsAppend(s.muxed, [Repaired(cfg, s, p)]);
  }

  /** The first packet of the queue goes to the muxer. */
  lemma DrainOne(cfg: Config, s: Stream)
    requires s.queue != [] && Good(cfg, s) && Mux(cfg, s.(queue := s.queue[1..]), s.queue[0]).Some?
    ensures Good(cfg, Mux(cfg, s.(queue := s.queue[1..]), s.queue[0]).value)
  {
    var p, rest := s.queue[0], s.queue[1..];
    MuxStep(cfg, s.(queue := rest), p);
    IdsAppend([p], rest);
    assert [p] + rest == s.queue && Ids([p]) == [p.id];
  }

  /** Emptying the queue moves its packets to the muxer, in order. */
  lemma {:induction false} DrainStep(cfg: Config, s: Stream)
    requires Drained(cfg, s).Some? && Good(cfg, s)
    ensures var t := Drained(cfg, s).value;
            && Good(cfg, t) && t.queue == [] && t.accepted == s.accepted && t.frameNumber == s.frameNumber
    decreases |s.queue|
  {
    if s.queue != [] {
      DrainOne(cfg, s);
      DrainStep(cfg, Mux(cfg, s.(queue := s.queue[1..]), s.queue[0]).value);
    }
  }

  predicate Inv(cfg: Config, header: bool, s: Stream) {
    Good(cfg, s) && InOrder(cfg, s) && Phase(header, s)
  }

  lemma WriteStep(cfg: Config, header: bool, s: Stream, p: Packet)
    requires Inv(cfg, header, s) && Write(cfg, s, p, header).Some?
    ensures Inv(cfg, header, Write(cfg, s, p, header).value)
  {
    if !Refused(cfg, s) {
      var a := Accepted(cfg, s, p);
      IdsAppend(s.accepted, [p]);
      if header {
        MuxStep(cfg, a, p);
      } else {
        IdsAppend(s.queue, [p]);
      }
    }
  }

  lemma OpenStep(cfg: Config, s: Stream)
    requires Inv(cfg, false, s) && Opened(cfg, s).Some?
    ensures Inv(cfg, true, Opened(cfg, s).value)
  {
    DrainStep(cfg, Opening(s));
  }

  /** On every run without a fatal exit, every stream keeps its packets in order and its timestamps repaired. */
  lemma {:induction false} RunKeepsInv(cfgs: seq<Config>, steps: seq<Step>, i: nat)
    requires Run(cfgs, steps).Some? && i < |cfgs|
    ensures Inv(cfgs[i], Run(cfgs, steps).value.header, Run(cfgs, steps).value.streams[i])
  {
    if steps != [] {
      var before, step := steps[..|steps| - 1], steps[|steps| - 1];
      RunKeepsInv(cfgs, before, i);
      var f := Run(cfgs, before).value;
      match step
      case Output(j, p) => if i == j { WriteStep(cfgs[i], f.header, f.streams[i], p); }
      case Header => OpenStep(cfgs[i], f.streams[i]);
    }
  }

  // ---- which packets ---------------------------------------------------------------------------

  /** What the encoder, or the copied input, of stream i has output. */
  function Outputs(steps: seq<Step>, i: nat): seq<Packet> {
    if steps == [] then []
    else
      var before, step := Outputs(steps[..|steps| - 1], i), steps[|steps| - 1];
      if step.Output? && step.stream == i then before + [step.pkt] else before
  }

  function Admitted(cfg: Config, outputs: seq<Packet>): seq<Packet> {
    if CountsHere(cfg) && |outputs| > Max(0, cfg.maxFrames) then outputs[..Max(0, cfg.maxFrames)] else outputs
  }

  lemma AdmitOne(cfg: Config, s: Stream, outputs: seq<Packet>, p: Packet)
    requires InOrder(cfg, s) && s.accepted == Admitted(cfg, outputs)
    ensures Admitted(cfg, outputs + [p]) == if Refused(cfg, s) then s.accepted else s.accepted + [p]
  {
  }

  lemma {:induction false} DrainAccepts(cfg: Config, s: Stream)
    requires Drained(cfg, s).Some?
    ensures Drained(cfg, s).value.accepted == s.accepted
    decreases |s.queue|
  {
    if s.queue != [] {
      DrainAccepts(cfg, Mux(cfg, s.(queue := s.queue[1..]), s.queue[0]).value);
    }
  }

  /** The packets accepted are the first max_frames of those output. */
  lemma {:induction false} FirstFramesAccepted(cfgs: seq<Config>, steps: seq<Step>, i: nat)
    requires Run(cfgs, steps).Some? && i < |cfgs|
    ensures Run(cfgs, steps).value.streams[i].accepted == Admitted(cfgs[i], Outputs(steps, i))
  {
    if steps != [] {
      var before, step := steps[..|steps| - 1], steps[|steps| - 1];
      FirstFramesAccepted(cfgs, before, i);
      RunKeepsInv(cfgs, before, i);
      var f := Run(cfgs, before).value;
      match step
      case Output(j, p) =>
        if i == j { AdmitOne(cfgs[i], f.streams[i], Outputs(before, i), p); }
      case Header =>
        var s := f.streams[i];
        DrainAccepts(cfgs[i], Opening(s));
    }
  }

  /** Once the header is written, the muxer has got exactly the first max_frames packets output, in order. */
  lemma MuxerGetsAll(cfgs: seq<Config>, steps: seq<Step>, i: nat)
    requires Run(cfgs, steps).Some? && i < |cfgs|
    ensures var f := Run(cfgs, steps).value; var admitted := Admitted(cfgs[i], Outputs(steps, i));
            && Ids(f.streams[i].muxed) <= Ids(admitted)
            && (f.header ==> Ids(f.streams[i].muxed) == Ids(admitted))
            && f.streams[i].frameNumber == if CountsHere(cfgs[i]) then |admitted| else 0
  {
    RunKeepsInv(cfgs, steps, i);
    FirstFramesAccepted(cfgs, steps, i);
  }

  // ---- increasing dts --------------------------------------------------------------------------

  predicate Valid(s: seq<Packet>) {
    forall k :: 0 <= k < |s| ==> s[k].dts != NOPTS
  }

  /** A stream whose timestamps are neither discarded nor lost in conversion. */
  ghost predicate KeepsTimestamps(cfg: Config) {
    !cfg.dropSync && forall t: Timestamp :: t != NOPTS ==> cfg.rescale(t) != NOPTS
  }

  lemma MuxValid(cfg: Config, s: Stream, p: Packet)
    requires KeepsTimestamps(cfg) && Valid(s.muxed) && p.dts != NOPTS && Mux(cfg, s, p).Some?
    ensures Valid(Mux(cfg, s, p).value.muxed)
  {
    var q := Prepared(cfg, s, p);
    if Inverted(cfg, q) {
      GuessIsClamp(q.pts, q.dts, s.lastMuxDts + 1);
    }
  }

  lemma {:induction false} DrainValid(cfg: Config, s: Stream)
    requires KeepsTimestamps(cfg) && Valid(s.muxed) && Valid(s.queue) && Drained(cfg, s).Some?
    ensures Valid(Drained(cfg, s).value.muxed) && Drained(cfg, s).value.queue == []
    decreases |s.queue|
  {
    if s.queue != [] {
      var popped := s.(queue := s.queue[1..]);
      MuxValid(cfg, popped, s.queue[0]);
      DrainValid(cfg, Mux(cfg, popped, s.queue[0]).value);
    }
  }

  lemma {:induction false} RunValid(cfgs: seq<Config>, steps: seq<Step>, i: nat)
    requires Run(cfgs, steps).Some? && i < |cfgs| && KeepsTimestamps(cfgs[i]) && Valid(Outputs(steps, i))
    ensures Valid(Run(cfgs, steps).value.streams[i].muxed) && Valid(Run(cfgs, steps).value.streams[i].queue)
  {
    if steps != [] {
      var before, step := steps[..|steps| - 1], steps[|steps| - 1];
      assert Outputs(before, i) <= Outputs(steps, i);
      assert Valid(Outputs(before, i)) by {
        forall k | 0 <= k < |Outputs(before, i)| ensures Outputs(before, i)[k].dts != NOPTS {
          assert Outputs(before, i)[k] == Outputs(steps, i)[k];
        }
      }
      RunValid(cfgs, before, i);
      var f := Run(cfgs, before).value;
      var s := f.streams[i];
      match step
      case Output(j, p) =>
        if i == j {
          assert p == Outputs(steps, i)[|Outputs(before, i)|];
          if f.header && !Refused(cfgs[i], s) { MuxValid(cfgs[i], Accepted(cfgs[i], s, p), p); }
        }
      case Header =>
        DrainValid(cfgs[i], Opening(s));
    }
  }

  /** All pairs of packets with valid dts are in order. */
  predicate Increasing(cfg: Config, s: seq<Packet>) {
    forall j, k :: 0 <= j < k < |s| && s[j].dts != NOPTS && s[k].dts != NOPTS ==> s[j].dts + Gap(cfg) <= s[k].dts
  }

  lemma {:induction false} ChainIncreases(cfg: Config, s: Stream, j: nat, k: nat)
    requires Ordered(cfg) && Neighbours(cfg, s) && Valid(s.muxed) && j < k < |s.muxed|
    ensures s.muxed[j].dts + Gap(cfg) <= s.muxed[k].dts
    decreases k - j
  {
    var before := k - 1;
    if j < before {
      ChainIncreases(cfg, s, j, before);
    }
    assert before + 1 == k;
  }

  /**
    If every packet output has a dts, the dts of what the muxer gets increase strictly, or do not
    decrease under TS_NONSTRICT.
   */
  lemma DtsIncrease(cfgs: seq<Config>, steps: seq<Step>, i: nat)
    requires Run(cfgs, steps).Some? && i < |cfgs|
    requires Ordered(cfgs[i]) && KeepsTimestamps(cfgs[i]) && Valid(Outputs(steps, i))
    ensures Increasing(cfgs[i], Run(cfgs, steps).value.streams[i].muxed)
  {
    RunValid(cfgs, steps, i);
    RunKeepsInv(cfgs, steps, i);
    var cfg, s := cfgs[i], Run(cfgs, steps).value.streams[i];
    forall j, k | 0 <= j < k < |s.muxed| ensures s.muxed[j].dts + Gap(cfg) <= s.muxed[k].dts {
      ChainIncreases(cfg, s, j, k);
    }
  }

  /** The last valid dts of a log. */
  function LastValid(s: seq<Packet>): Timestamp {
    if s == [] then NOPTS
    else if s[|s| - 1].dts != NOPTS then s[|s| - 1].dts else LastValid(s[..|s| - 1])
  }

  /** Later than everything before means later than the last valid dts. */
  lemma {:induction false} LastValidIsGreatest(cfg: Config, s: seq<Packet>)
    requires Increasing(cfg, s)
    ensures forall k :: 0 <= k < |s| && s[k].dts != NOPTS ==> s[k].dts <= LastValid(s) && LastValid(s) != NOPTS
    ensures LastValid(s) != NOPTS ==> exists k :: 0 <= k < |s| && s[k].dts == LastValid(s)
  {
    if s != [] {
      var before := s[..|s| - 1];
      LastValidIsGreatest(cfg, before);
      if s[|s| - 1].dts != NOPTS {
        assert s[|s| - 1].dts == LastValid(s);
      } else if LastValid(s) != NOPTS {
        var k :| 0 <= k < |before| && before[k].dts == LastValid(before);
        assert s[k].dts == LastValid(s);
      }
    }
  }

  /** A packet with a dts that comes right after one without, and too early for the last that had one. */
  predicate Unguarded(cfg: Config, s: Stream, p: Packet) {
    var c := Candidate(cfg, s, p);
    s.lastMuxDts == NOPTS && c.dts != NOPTS && LastValid(s.muxed) != NOPTS && c.dts < LastValid(s.muxed) + Gap(cfg)
  }

  /** The order of valid dts survives a packet exactly when it is not unguarded. */
  lemma MuxIncreasingIff(cfg: Config, s: Stream, p: Packet)
    requires Ordered(cfg) && LastKnown(s) && Increasing(cfg, s.muxed) && Mux(cfg, s, p).Some?
    ensures Increasing(cfg, Mux(cfg, s, p).value.muxed) <==> !Unguarded(cfg, s, p)
  {
    LastValidIsGreatest(cfg, s.muxed);
    var t, n := Mux(cfg, s, p).value, |s.muxed|;
    assert t.muxed[..n] == s.muxed;
    if Unguarded(cfg, s, p) {
      var k :| 0 <= k < n && s.muxed[k].dts == LastValid(s.muxed);
      assert t.muxed[k].dts == LastValid(s.muxed) && t.muxed[n].dts == Candidate(cfg, s, p).dts;
    }
  }

  /** What is out of order stays out of order. */
  lemma OrderOfPrefix(cfg: Config, s: seq<Packet>, t: seq<Packet>)
    requires s <= t && Increasing(cfg, t)
    ensures Increasing(cfg, s)
  {
    assert forall k :: 0 <= k < |s| ==> s[k] == t[k];
  }

  /** No packet of the queue is unguarded when its turn comes. */
  predicate QueueGuarded(cfg: Config, s: Stream)
    requires Drained(cfg, s).Some?
    decreases |s.queue|
  {
    s.queue == [] ||
    var popped := s.(queue := s.queue[1..]);
    !Unguarded(cfg, popped, s.queue[0]) && QueueGuarded(cfg, Mux(cfg, popped, s.queue[0]).value)
  }

  lemma {:induction false} DrainExtends(cfg: Config, s: Stream)
    requires Drained(cfg, s).Some?
    ensures s.muxed <= Drained(cfg, s).value.muxed
    decreases |s.queue|
  {
    if s.queue != [] {
      DrainExtends(cfg, Mux(cfg, s.(queue := s.queue[1..]), s.queue[0]).value);
    }
  }

  lemma {:induction false} DrainIncreasingIff(cfg: Config, s: Stream)
    requires Ordered(cfg) && LastKnown(s) && Increasing(cfg, s.muxed) && Drained(cfg, s).Some?
    ensures Increasing(cfg, Drained(cfg, s).value.muxed) <==> QueueGuarded(cfg, s)
    decreases |s.queue|
  {
    if s.queue != [] {
      var popped := s.(queue := s.queue[1..]);
      var next := Mux(cfg, popped, s.queue[0]).value;
      MuxIncreasingIff(cfg, popped, s.queue[0]);
      if Increasing(cfg, next.muxed) {
        DrainIncreasingIff(cfg, next);
      } else {
        DrainExtends(cfg, next);
        if Increasing(cfg, Drained(cfg, s).value.muxed) {
          OrderOfPrefix(cfg, next.muxed, Drained(cfg, s).value.muxed);
        }
      }
    }
  }

  /** No packet of stream i was unguarded when it went to the muxer. */
  ghost predicate AllGuarded(cfgs: seq<Config>, steps: seq<Step>, i: nat)
    requires Run(cfgs, steps).Some? && i < |cfgs|
  {
    steps == [] ||
    var before, step := steps[..|steps| - 1], steps[|steps| - 1];
    AllGuarded(cfgs, before, i) &&
    var f := Run(cfgs, before).value;
    var s := f.streams[i];
    match step
    case Output(j, p) => i == j && f.header && !Refused(cfgs[i], s) ==> !Unguarded(cfgs[i], Accepted(cfgs[i], s, p), p)
    case Header => QueueGuarded(cfgs[i], Opening(s))
  }

  lemma {:induction false} MuxedGrows(cfgs: seq<Config>, steps: seq<Step>, i: nat)
    requires Run(cfgs, steps).Some? && i < |cfgs| && steps != []
    ensures Run(cfgs, steps[..|steps| - 1]).value.streams[i].muxed <= Run(cfgs, steps).value.streams[i].muxed
  {
    if steps[|steps| - 1].Header? {
      DrainExtends(cfgs[i], Opening(Run(cfgs, steps[..|steps| - 1]).value.streams[i]));
    }
  }

  lemma StepIncreasingIff(cfgs: seq<Config>, f: File, step: Step, i: nat)
    requires i < |cfgs| == |f.streams| && Ordered(cfgs[i]) && Do(cfgs, f, step).Some?
    requires LastKnown(f.streams[i]) && Increasing(cfgs[i], f.streams[i].muxed)
    ensures Increasing(cfgs[i], Do(cfgs, f, step).value.streams[i].muxed) <==>
      match step
      case Output(j, p) =>
        i == j && f.header && !Refused(cfgs[i], f.streams[i]) ==>
          !Unguarded(cfgs[i], Accepted(cfgs[i], f.streams[i], p), p)
      case Header => QueueGuarded(cfgs[i], Opening(f.streams[i]))
  {
    var cfg, s := cfgs[i], f.streams[i];
    match step
    case Output(j, p) =>
      if i == j && f.header && !Refused(cfg, s) {
        MuxIncreasingIff(cfg, Accepted(cfg, s, p), p);
      }
    case Header => DrainIncreasingIff(cfg, Opening(s));
  }

  /** On every run, the muxer gets the valid dts of a stream in order exactly when no packet of it was unguarded. */
  lemma {:induction false} DtsIncreaseIff(cfgs: seq<Config>, steps: seq<Step>, i: nat)
    requires Run(cfgs, steps).Some? && i < |cfgs| && Ordered(cfgs[i])
    ensures Increasing(cfgs[i], Run(cfgs, steps).value.streams[i].muxed) <==> AllGuarded(cfgs, steps, i)
  {
    if steps != [] {
      var before := steps[..|steps| - 1];
      DtsIncreaseIff(cfgs, before, i);
      var f := Run(cfgs, before).value;
      if Increasing(cfgs[i], f.streams[i].muxed) {
        RunKeepsInv(cfgs, before, i);
        StepIncreasingIff(cfgs, f, steps[|steps| - 1], i);
      } else {
        MuxedGrows(cfgs, steps, i);
        if Increasing(cfgs[i], Run(cfgs, steps).value.streams[i].muxed) {
          OrderOfPrefix(cfgs[i], f.streams[i].muxed, Run(cfgs, steps).value.streams[i].muxed);
        }
      }
    }
  }

  // ---- a run whose dts go back -----------------------------------------------------------------

  const PLAIN := Config(Audio, true, false, false, 1000, 128, false, false, false, t => t)

  lemma RunOne(cfgs: seq<Config>, steps: seq<Step>, f: File, step: Step) returns (steps': seq<Step>, f': Option<File>)
    requires Run(cfgs, steps) == Some(f)
    ensures steps' == steps + [step] && f' == Do(cfgs, f, step) && Run(cfgs, steps') == f'
  {
    steps', f' := steps + [step], Do(cfgs, f, step);
    assert steps'[..|steps'| - 1] == steps;
  }

  /** One stream after the header, with these dts at the muxer. */
  predicate Muxed(f: File, dts: seq<int>) {
    && |f.streams| == 1 && f.header && LastKnown(f.streams[0])
    && f.streams[0].frameNumber == |dts| == |f.streams[0].muxed|
    && forall k :: 0 <= k < |dts| ==> f.streams[0].muxed[k].dts == dts[k]
  }

  lemma MuxOne(steps: seq<Step>, f: File, dts: seq<int>, p: Packet) returns (steps': seq<Step>, f': File)
    requires Run([PLAIN], steps) == Some(f) && Muxed(f, dts) && |dts| < 10
    requires p.pts == p.dts && (dts == [] || p.dts == NOPTS || dts[|dts| - 1] == NOPTS)
    ensures Run([PLAIN], steps') == Some(f') && Muxed(f', dts + [p.dts])
    ensures Outputs(steps', 0) == Outputs(steps, 0) + [p]
  {
    var r;
    steps', r := RunOne([PLAIN], steps, f, Output(0, p));
    f' := r.value;
    assert steps'[..|steps'| - 1] == steps;
  }

  lemma HeaderFirst() returns (steps: seq<Step>, f: File)
    ensures Run([PLAIN], steps) == Some(f) && Muxed(f, [])
  {
    var start := Run([PLAIN], []).value;
    var r;
    assert start.streams == [Fresh()] && [PLAIN][..0] == [] && start.streams[..0] == [];
    assert OpenAll([], []) == Some([]) && Opened(PLAIN, Fresh()) == Some(Fresh().(muxTimebaseSet := true));
    assert OpenAll([PLAIN], start.streams).Some?;
    steps, r := RunOne([PLAIN], [], start, Header);
    f := r.value;
  }

  /** After a packet without dts the next dts is not compared with any: 10, none, 5 reaches the muxer unchanged. */
  lemma DtsGoBack() returns (steps: seq<Step>, f: File)
    ensures Run([PLAIN], steps) == Some(f) && Muxed(f, [10, NOPTS, 5]) && !Increasing(PLAIN, f.streams[0].muxed)
  {
    steps, f := HeaderFirst();
    steps, f := MuxOne(steps, f, [], Packet(0, 10, 10));
    steps, f := MuxOne(steps, f, [10], Packet(1, NOPTS, NOPTS));
    steps, f := MuxOne(steps, f, [10, NOPTS], Packet(2, 5, 5));
    assert [10, NOPTS] + [5] == [10, NOPTS, 5];
    assert f.streams[0].muxed[0].dts == 10 && f.streams[0].muxed[2].dts == 5;
  }
}
