/**
  Frame-rate conversion in do_video_out: each picture that leaves the filters is encoded zero, one or
  several times, so that the output has the frames its rate asks for.

  Times are reals in units of the encoder's time base. lrint and lrintf may return any integer within
  one half of their argument. A picture is an identifier; the encoder records what it is sent.
 */
module RateConversion {
  import opened Options

  datatype Sync = Vscfr | Cfr | Vfr | Drop | Passthrough

  /** What is fixed for a stream: the synchronisation method and the cut-offs. */
  datatype Config = Config(
    sync: Sync,
    dropThreshold: real,      // frame_drop_threshold
    errorThreshold: real,     // dts_error_threshold
    maxFrames: int,
    timeLimit: Option<int>)   // the pts from which check_recording_time says no

  /** A frame sent to the encoder. */
  datatype Sent = Sent(picture: int, pts: int)

  /** The fields of OutputStream that rate conversion uses, and how many pictures it has received. */
  datatype Stream = Stream(
    syncOpts: int, frameNumber: int, lastDropped: bool, lastNb0: (int, int, int), lastFrame: Option<int>,
    encoded: seq<Sent>, received: nat)

  /** nb_frames_dup and nb_frames_drop, shared by all streams. */
  datatype Totals = Totals(dup: int, drop: int)

  /** A call: a picture with its time and duration, or no picture, to flush. */
  datatype Call = Picture(id: int, syncIpts: real, duration: real) | Flush

  /** How a call returns. */
  datatype Exit = Normal | TooLarge | OutOfTime | NoPicture

  /** What the first half of a call decides: nb_frames, nb0_frames and the new sync_opts. */
  datatype Choice = Choice(nb: int, nb0: int, syncOpts: int)

  datatype Result = Result(stream: Stream, totals: Totals, exit: Exit)

  function Min(a: int, b: int): int {
    if a <= b then a else b
  }

  /** mid_pred: the median. */
  function MidPred(a: int, b: int, c: int): (m: int)
    ensures m in {a, b, c}
    ensures (a <= m && b <= m) || (a <= m && c <= m) || (b <= m && c <= m)
    ensures (a >= m && b >= m) || (a >= m && c >= m) || (b >= m && c >= m)
  {
    if a > b then
      if c > b then (if c > a then a else c) else b
    else
      if b > c then (if c > a then c else a) else b
  }

  /** n is a result that lrint may have on x. */
  predicate Near(n: int, x: real) {
    n as real - 0.5 <= x <= n as real + 0.5
  }

  // ---- choosing how many frames ----------------------------------------------------------------

  /** The common part of the constant-rate methods. */
  ghost predicate ConstantRate(cfg: Config, s: Stream, delta: real, delta0: real, ch: Choice) {
    if cfg.dropThreshold != 0.0 && delta < cfg.dropThreshold && s.frameNumber != 0 then ch.nb == 0 && ch.nb0 == 0
    else if delta < -1.1 then ch.nb == 0 && ch.nb0 == 0
    else if delta > 1.1 then Near(ch.nb, delta) && if delta0 > 1.1 then Near(ch.nb0, delta0 - 0.6) else ch.nb0 == 0
    else ch.nb == 1 && ch.nb0 == 0
  }

  /** The switch over the synchronisation method, after a frame that starts too early has been clipped. */
  ghost predicate Switch(cfg: Config, s: Stream, syncIpts: real, duration: real, delta: real, ch: Choice) {
    var delta0 := syncIpts - s.syncOpts as real;
    match cfg.sync
    case Vscfr =>
      if s.frameNumber == 0 && delta0 >= 0.5 then
        Near(ch.syncOpts, syncIpts) && ConstantRate(cfg, s, duration, 0.0, ch)
      else ch.syncOpts == s.syncOpts && ConstantRate(cfg, s, delta, delta0, ch)
    case Cfr => ch.syncOpts == s.syncOpts && ConstantRate(cfg, s, delta, delta0, ch)
    case Vfr =>
      && ch.nb0 == 0 && ch.nb == (if delta <= -0.6 then 0 else 1)
      && if delta > 0.6 then Near(ch.syncOpts, syncIpts) else ch.syncOpts == s.syncOpts
    case _ => ch.nb0 == 0 && ch.nb == 1 && Near(ch.syncOpts, syncIpts)
  }

  predicate Clipped(cfg: Config, s: Stream, call: Call)
    requires call.Picture?
  {
    var delta0 := call.syncIpts - s.syncOpts as real;
    delta0 < 0.0 && delta0 + call.duration > 0.0 && !cfg.sync.Passthrough? && !cfg.sync.Drop?
  }

  /** The choices a call may make. */
  ghost predicate Chosen(cfg: Config, s: Stream, call: Call, ch: Choice) {
    match call
    case Flush =>
      var m := MidPred(s.lastNb0.0, s.lastNb0.1, s.lastNb0.2);
      ch == Choice(m, m, s.syncOpts)
    case Picture(_, syncIpts, duration) =>
      var so := s.syncOpts as real;
      if Clipped(cfg, s, call) then Switch(cfg, s, so, duration + (syncIpts - so), syncIpts - so + duration, ch)
      else Switch(cfg, s, syncIpts, duration, syncIpts - so + duration, ch)
  }

  // ---- counting and encoding -------------------------------------------------------------------

  function B(b: bool): int {
    if b then 1 else 0
  }

  /** Clipping to max_frames. */
  function Limited(cfg: Config, s: Stream, ch: Choice): Choice {
    var nb := Min(ch.nb, cfg.maxFrames - s.frameNumber);
    Choice(nb, Min(ch.nb0, nb), ch.syncOpts)
  }

  /** The last dropped picture is now known to be dropped for good. */
  predicate DropsLast(s: Stream, l: Choice) {
    l.nb0 == 0 && s.lastDropped
  }

  /** How many of the frames are duplicates. */
  function Extra(s: Stream, l: Choice): int {
    l.nb - B(l.nb0 != 0 && s.lastDropped) - B(l.nb > l.nb0)
  }

  function Next(call: Call): Option<int> {
    if call.Picture? then Some(call.id) else None
  }

  /** The picture for frame i. */
  function Picked(s: Stream, next: Option<int>, nb0: int, i: int): Option<int> {
    if i < nb0 && s.lastFrame.Some? then s.lastFrame else next
  }

  predicate InTime(cfg: Config, pts: int) {
    cfg.timeLimit.None? || pts < cfg.timeLimit.value
  }

  /** Frame i can be encoded. */
  predicate CanEncode(cfg: Config, s: Stream, next: Option<int>, nb0: int, i: int) {
    Picked(s, next, nb0, i).Some? && InTime(cfg, s.syncOpts + i)
  }

  /** How many of nb frames are encoded before the loop ends or returns. */
  function Encodable(cfg: Config, s: Stream, next: Option<int>, l: Choice, from: nat): (k: nat)
    requires from <= Max0(l.nb)
    ensures from <= k <= Max0(l.nb)
    ensures forall i :: from <= i < k ==> CanEncode(cfg, s, next, l.nb0, i)
    ensures k < l.nb ==> !CanEncode(cfg, s, next, l.nb0, k)
    decreases Max0(l.nb) - from
  {
    if from < l.nb && CanEncode(cfg, s, next, l.nb0, from) then Encodable(cfg, s, next, l, from + 1) else from
  }

  function Max0(n: int): nat {
    if n < 0 then 0 else n
  }

  function Frames(cfg: Config, s: Stream, next: Option<int>, l: Choice, k: nat): (f: seq<Sent>)
    requires forall i :: 0 <= i < k ==> CanEncode(cfg, s, next, l.nb0, i)
    ensures |f| == k
  {
    seq(k, i requires 0 <= i < k && CanEncode(cfg, s, next, l.nb0, i) =>
      Sent(Picked(s, next, l.nb0, i).value, s.syncOpts + i))
  }

  /** A stream once the first i of some frames are encoded. */
  function Advanced(m: Stream, frames: seq<Sent>, i: nat): Stream
    requires i <= |frames|
  {
    m.(encoded := m.encoded + frames[..i], syncOpts := m.syncOpts + i, frameNumber := m.frameNumber + i)
  }

  lemma AdvanceOne(m: Stream, frames: seq<Sent>, i: nat, next: nat)
    requires next == i + 1 && next <= |frames|
    ensures var a := Advanced(m, frames, i);
            Advanced(m, frames, next)
            == a.(encoded := a.encoded + [frames[i]], syncOpts := a.syncOpts + 1, frameNumber := a.frameNumber + 1)
  {
    assert frames[..next] == frames[..i] + [frames[i]];
  }

  /** The counters and the history after nb_frames and nb0_frames are known. */
  function Recorded(s: Stream, call: Call, l: Choice): Stream {
    s.(syncOpts := l.syncOpts, lastNb0 := (l.nb0, s.lastNb0.0, s.lastNb0.1), received := s.received + B(call.Picture?))
  }

  predicate Excessive(cfg: Config, s: Stream, l: Choice) {
    Extra(s, l) > 0 && l.nb as real > cfg.errorThreshold * 30.0
  }

  /** Whether the picture of this call is left over, to be repeated or dropped by the next. */
  function Marked(s: Stream, call: Call, l: Choice): Stream {
    s.(lastDropped := l.nb == l.nb0 && call.Picture?)
  }

  function EncodeExit(cfg: Config, s: Stream, next: Option<int>, l: Choice): Exit {
    var k := Encodable(cfg, s, next, l, 0);
    if k >= l.nb then Normal else if Picked(s, next, l.nb0, k).None? then NoPicture else OutOfTime
  }

  function Encoded(cfg: Config, s: Stream, next: Option<int>, l: Choice): Stream {
    var k := Encodable(cfg, s, next, l, 0);
    Advanced(s, Frames(cfg, s, next, l, k), k)
  }

  /** The rest of a call. */
  function Output(cfg: Config, s: Stream, t: Totals, call: Call, l: Choice): Result {
    var r := Recorded(s, call, l);
    var totals := Counted(cfg, s, t, l);
    if Excessive(cfg, s, l) then Result(r, totals, TooLarge)
    else
      var m := Marked(r, call, l);
      var e, exit := Encoded(cfg, m, Next(call), l), EncodeExit(cfg, m, Next(call), l);
      Result(if exit.Normal? then e.(lastFrame := Next(call)) else e, totals, exit)
  }

  function Counted(cfg: Config, s: Stream, t: Totals, l: Choice): Totals {
    var drop := t.drop + B(DropsLast(s, l));
    if Excessive(cfg, s, l) then Totals(t.dup, drop + 1) else Totals(t.dup + Max0(Extra(s, l)), drop)
  }

  /** The calls that a stream and a choice allow. */
  function Do(cfg: Config, s: Stream, t: Totals, call: Call, ch: Choice): Result {
    Output(cfg, s, t, call, Limited(cfg, s, ch))
  }

  // ---- the code --------------------------------------------------------------------------------

  /** The global counters. */
  class Counters {
    var dup: int
    var drop: int

    function Value(): Totals
      reads this
    {
      Totals(dup, drop)
    }
  }

  method Lrint(x: real) returns (n: int)
    ensures Near(n, x)
  {
    n := (x + 0.5).Floor;
  }

  class OutputStream {
    const cfg: Config
    var syncOpts: int
    var frameNumber: int
    var lastDropped: bool
    var lastNb0: (int, int, int)
    var lastFrame: Option<int>
    var encoder: seq<Sent>
    ghost var received: nat

    constructor (cfg: Config)
      ensures this.cfg == cfg && Value() == Fresh()
    {
      this.cfg := cfg;
      syncOpts, frameNumber, lastDropped, lastNb0, lastFrame, encoder, received := 0, 0, false, (0, 0, 0), None, [], 0;
    }

    ghost function Value(): Stream
      reads this
    {
      Stream(syncOpts, frameNumber, lastDropped, lastNb0, lastFrame, encoder, received)
    }

    /** The VSYNC_CFR case, which VSYNC_VSCFR falls into. */
    method SelectConstant(delta: real, delta0: real) returns (nb: int, nb0: int)
      ensures forall so :: ConstantRate(cfg, Value(), delta, delta0, Choice(nb, nb0, so))
    {
      nb, nb0 := 1, 0;
      if cfg.dropThreshold != 0.0 && delta < cfg.dropThreshold && frameNumber != 0 {
        nb := 0;
      } else if delta < -1.1 {
        nb := 0;
      } else if delta > 1.1 {
        nb := Lrint(delta);
        if delta0 > 1.1 {
          nb0 := Lrint(delta0 - 0.6);
        }
      }
    }

    /** From the drift to the number of frames; a picture that starts too early is clipped first. */
    method Select(call: Call) returns (nb: int, nb0: int)
      modifies `syncOpts
      ensures Chosen(cfg, old(Value()), call, Choice(nb, nb0, syncOpts))
    {
      if call.Flush? {
        nb0 := MidPred(lastNb0.0, lastNb0.1, lastNb0.2);
        nb := nb0;
        return;
      }
      var syncIpts, duration := call.syncIpts, call.duration;
      var delta0 := syncIpts - syncOpts as real;
      var delta := delta0 + duration;
      nb0 := 0;
      nb := 1;
      if delta0 < 0.0 && delta > 0.0 && !cfg.sync.Passthrough? && !cfg.sync.Drop? {
        syncIpts := syncOpts as real;
        duration := duration + delta0;
        delta0 := 0.0;
      }
      match cfg.sync {
        case Vscfr =>
          if frameNumber == 0 && delta0 >= 0.5 {
            delta := duration;
            delta0 := 0.0;
            nb, nb0 := SelectConstant(delta, delta0);
            syncOpts := Lrint(syncIpts);
          } else {
            nb, nb0 := SelectConstant(delta, delta0);
          }
        case Cfr =>
          nb, nb0 := SelectConstant(delta, delta0);
        case Vfr =>
          if delta <= -0.6 {
            nb := 0;
          } else if delta > 0.6 {
            syncOpts := Lrint(syncIpts);
          }
        case _ =>
          syncOpts := Lrint(syncIpts);
      }
    }

    /** The loop that sends frames to the encoder; it returns early without a picture or out of time. */
    method Encode(next: Option<int>, nb: int, nb0: int) returns (exit: Exit)
      modifies `syncOpts, `frameNumber, `encoder
      ensures var m, l := old(Value()), Choice(nb, nb0, old(syncOpts));
              Value() == Encoded(cfg, m, next, l) && exit == EncodeExit(cfg, m, next, l)
    {
      ghost var m, l := Value(), Choice(nb, nb0, syncOpts);
      ghost var k := Encodable(cfg, m, next, l, 0);
      ghost var frames := Frames(cfg, m, next, l, k);
      var i := 0;
      while i < nb
        invariant 0 <= i <= k
        invariant Value() == Advanced(m, frames, i)
      {
        var picture := if i < nb0 && lastFrame.Some? then lastFrame else next;
        if picture.None? {
          assert !CanEncode(cfg, m, next, nb0, i);
          return NoPicture;
        }
        if cfg.timeLimit.Some? && syncOpts >= cfg.timeLimit.value {
          assert !CanEncode(cfg, m, next, nb0, i);
          return OutOfTime;
        }
        assert CanEncode(cfg, m, next, nb0, i);
        AdvanceOne(m, frames, i, i + 1);
        encoder := encoder + [Sent(picture.value, syncOpts)];
        syncOpts := syncOpts + 1;
        frameNumber := frameNumber + 1;
        i := i + 1;
      }
      exit := Normal;
    }

    /** The counters of dropped and duplicated frames; too many duplicates end the call. */
    method Count(nb: int, nb0: int, counters: Counters) returns (excessive: bool)
      modifies counters
      ensures var l := Choice(nb, nb0, syncOpts);
              && excessive == Excessive(cfg, Value(), l)
              && counters.Value() == Counted(cfg, Value(), old(counters.Value()), l)
    {
      if nb0 == 0 && lastDropped {
        counters.drop := counters.drop + 1;
      }
      if nb > B(nb0 != 0 && lastDropped) + B(nb > nb0) {
        if nb as real > cfg.errorThreshold * 30.0 {
          counters.drop := counters.drop + 1;
          return true;
        }
        counters.dup := counters.dup + nb - B(nb0 != 0 && lastDropped) - B(nb > nb0);
      }
      excessive := false;
    }

    /** From the counters on. */
    method Finish(call: Call, nb: int, nb0: int, counters: Counters, ghost s: Stream) returns (exit: Exit)
      requires Value() == s.(syncOpts := syncOpts)
      modifies this, counters
      ensures var l := Choice(nb, nb0, old(syncOpts));
              Result(Value(), counters.Value(), exit) == Output(cfg, s, old(counters.Value()), call, l)
    {
      ghost var l := Choice(nb, nb0, syncOpts);
      var excessive := Count(nb, nb0, counters);
      assert excessive == Excessive(cfg, s, l) && counters.Value() == Counted(cfg, s, old(counters.Value()), l);
      received := received + B(call.Picture?);
      lastNb0 := (nb0, lastNb0.0, lastNb0.1);
      assert Value() == Recorded(s, call, l);
      if excessive {
        return TooLarge;
      }
      lastDropped := nb == nb0 && call.Picture?;
      assert Value() == Marked(Recorded(s, call, l), call, l);
      exit := Encode(Next(call), nb, nb0);
      if exit.Normal? {
        lastFrame := Next(call);
      }
    }

    /** do_video_out. */
    method DoVideoOut(call: Call, counters: Counters) returns (ghost ch: Choice, exit: Exit)
      modifies this, counters
      ensures Chosen(cfg, old(Value()), call, ch)
      ensures Result(Value(), counters.Value(), exit) == Do(cfg, old(Value()), old(counters.Value()), call, ch)
    {
      ghost var s := Value();
      var nb, nb0 := Select(call);
      ch := Choice(nb, nb0, syncOpts);
      nb := Min(nb, cfg.maxFrames - frameNumber);
      nb0 := Min(nb0, nb);
      assert Choice(nb, nb0, syncOpts) == Limited(cfg, s, ch);
      exit := Finish(call, nb, nb0, counters, s);
    }
  }

  function Fresh(): Stream {
    Stream(0, 0, false, (0, 0, 0), None, [], 0)
  }

  // ---- one call --------------------------------------------------------------------------------

  /** A frame limit below 0, which the option parser accepts: every call is limited to it. */
  predicate Negative(cfg: Config) {
    cfg.maxFrames < 0
  }

  predicate SaneCount(cfg: Config, n: int) {
    n >= 0 || n == cfg.maxFrames
  }

  /** What every stream keeps. */
  predicate Sane(cfg: Config, s: Stream) {
    && (if Negative(cfg) then s.frameNumber == 0 else s.frameNumber <= cfg.maxFrames)
    && SaneCount(cfg, s.lastNb0.0) && SaneCount(cfg, s.lastNb0.1) && SaneCount(cfg, s.lastNb0.2)
  }

  lemma ChosenSane(cfg: Config, s: Stream, call: Call, ch: Choice)
    requires Sane(cfg, s) && Chosen(cfg, s, call, ch)
    ensures SaneCount(cfg, ch.nb) && SaneCount(cfg, ch.nb0)
    ensures if call.Flush? then ch.nb == ch.nb0 else ch.nb >= 0 && ch.nb0 >= 0
  {
  }

  /** Below a negative limit all counts are that limit. */
  lemma NegativeLimit(cfg: Config, s: Stream, call: Call, ch: Choice)
    requires Sane(cfg, s) && Chosen(cfg, s, call, ch) && Negative(cfg)
    ensures var l := Limited(cfg, s, ch); l.nb == l.nb0 == cfg.maxFrames
  {
    ChosenSane(cfg, s, call, ch);
  }

  lemma NaturalLimit(cfg: Config, s: Stream, call: Call, ch: Choice)
    requires Sane(cfg, s) && Chosen(cfg, s, call, ch) && !Negative(cfg)
    ensures var l := Limited(cfg, s, ch); 0 <= l.nb0 <= l.nb && (call.Flush? ==> l.nb0 == l.nb)
  {
    ChosenSane(cfg, s, call, ch);
  }

  lemma LimitCases(cfg: Config, s: Stream, call: Call, ch: Choice)
    requires Sane(cfg, s) && Chosen(cfg, s, call, ch)
    ensures var l := Limited(cfg, s, ch);
            if Negative(cfg) then l.nb == l.nb0 == cfg.maxFrames
            else 0 <= l.nb0 <= l.nb && (call.Flush? ==> l.nb0 == l.nb)
  {
    if Negative(cfg) {
      NegativeLimit(cfg, s, call, ch);
    } else {
      NaturalLimit(cfg, s, call, ch);
    }
  }

  lemma CallKeepsSane(cfg: Config, s: Stream, t: Totals, call: Call, ch: Choice)
    requires Sane(cfg, s) && Chosen(cfg, s, call, ch)
    ensures Sane(cfg, Do(cfg, s, t, call, ch).stream)
  {
    LimitCases(cfg, s, call, ch);
  }

  /** Frames encoded, plus the picture that is held as dropped, minus pictures received. */
  function Surplus(s: Stream): int {
    |s.encoded| + B(s.lastDropped) - s.received
  }

  /** The frames counted but not encoded. */
  function Missing(cfg: Config, s: Stream, call: Call, l: Choice): nat {
    Max0(l.nb) - Encodable(cfg, Marked(Recorded(s, call, l), call, l), Next(call), l, 0)
  }

  /** Under a negative limit a held picture is neither repeated nor counted as dropped. */
  predicate Uncounted(cfg: Config, s: Stream) {
    Negative(cfg) && s.lastDropped
  }

  /** The counters account for every frame of a call except those missing, and a held picture that is not counted. */
  lemma CallBalance(cfg: Config, s: Stream, t: Totals, call: Call, ch: Choice)
    requires Sane(cfg, s) && Chosen(cfg, s, call, ch)
    requires !Do(cfg, s, t, call, ch).exit.TooLarge?
    ensures var r := Do(cfg, s, t, call, ch); var lost := Missing(cfg, s, call, Limited(cfg, s, ch));
            && Surplus(r.stream) - Surplus(s)
               == (r.totals.dup - t.dup) - (r.totals.drop - t.drop) - lost - B(Uncounted(cfg, s))
            && (r.exit.Normal? <==> lost == 0)
  {
    LimitCases(cfg, s, call, ch);
  }

  /** A flush that owes frames and has no last picture to make them from. */
  predicate Unfed(cfg: Config, s: Stream, call: Call) {
    && call.Flush? && s.lastFrame.None?
    && Min(MidPred(s.lastNb0.0, s.lastNb0.1, s.lastNb0.2), cfg.maxFrames - s.frameNumber) > 0
  }

  /** Frames go missing for want of a picture only on such a flush. */
  lemma NoPictureIff(cfg: Config, s: Stream, t: Totals, call: Call, ch: Choice)
    requires Sane(cfg, s) && Chosen(cfg, s, call, ch)
    requires !Excessive(cfg, s, Limited(cfg, s, ch))
    ensures Do(cfg, s, t, call, ch).exit.NoPicture? <==> Unfed(cfg, s, call)
  {
    LimitCases(cfg, s, call, ch);
  }

  /** Without a cut-off a picture has all its frames encoded. */
  lemma PictureEncoded(cfg: Config, s: Stream, t: Totals, call: Call, ch: Choice)
    requires Sane(cfg, s) && Chosen(cfg, s, call, ch) && call.Picture?
    requires Do(cfg, s, t, call, ch).exit.Normal?
    ensures var r := Do(cfg, s, t, call, ch).stream; var nb := Limited(cfg, s, ch).nb;
            |r.encoded| == |s.encoded| + Max0(nb) && r.syncOpts == ch.syncOpts + Max0(nb)
  {
    LimitCases(cfg, s, call, ch);
  }

  // ---- runs ------------------------------------------------------------------------------------

  datatype Event = Event(stream: nat, call: Call, ch: Choice)

  datatype World = World(streams: seq<Stream>, totals: Totals, exits: seq<Exit>)

  function Start(n: nat): World {
    World(seq(n, _ => Fresh()), Totals(0, 0), [])
  }

  function Apply(cfgs: seq<Config>, w: World, e: Event): World
    requires e.stream < |w.streams| == |cfgs|
  {
    var r := Do(cfgs[e.stream], w.streams[e.stream], w.totals, e.call, e.ch);
    World(w.streams[e.stream := r.stream], r.totals, w.exits + [r.exit])
  }

  /** Any interleaving of calls on any number of streams, if the choices were ones a call may make. */
  ghost function Exec(cfgs: seq<Config>, events: seq<Event>): (w: Option<World>)
    ensures w.Some? ==> |w.value.streams| == |cfgs|
  {
    if events == [] then Some(Start(|cfgs|))
    else
      var before, e := Exec(cfgs, events[..|events| - 1]), events[|events| - 1];
      if before.None? || e.stream >= |cfgs| then None
      else if !Chosen(cfgs[e.stream], before.value.streams[e.stream], e.call, e.ch) then None
      else Some(Apply(cfgs, before.value, e))
  }

  predicate AllSane(cfgs: seq<Config>, streams: seq<Stream>)
    requires |cfgs| == |streams|
  {
    forall i :: 0 <= i < |cfgs| ==> Sane(cfgs[i], streams[i])
  }

  lemma {:induction false} RunSane(cfgs: seq<Config>, events: seq<Event>)
    requires Exec(cfgs, events).Some?
    ensures AllSane(cfgs, Exec(cfgs, events).value.streams)
  {
    if events != [] {
      var before, e := events[..|events| - 1], events[|events| - 1];
      RunSane(cfgs, before);
      var w := Exec(cfgs, before).value;
      CallKeepsSane(cfgs[e.stream], w.streams[e.stream], w.totals, e.call, e.ch);
    }
  }

  // ---- conservation ----------------------------------------------------------------------------

  function Total(streams: seq<Stream>, f: Stream -> int): int {
    if streams == [] then 0 else Total(streams[..|streams| - 1], f) + f(streams[|streams| - 1])
  }

  lemma {:induction false} TotalUpdate(streams: seq<Stream>, i: nat, s: Stream, f: Stream -> int)
    requires i < |streams|
    ensures Total(streams[i := s], f) == Total(streams, f) - f(streams[i]) + f(s)
  {
    var n := |streams| - 1;
    if i == n {
      assert streams[i := s][..n] == streams[..n];
    } else {
      TotalUpdate(streams[..n], i, s, f);
      assert streams[i := s][..n] == streams[..n][i := s];
    }
  }

  lemma {:induction false} TotalFresh(n: nat, f: Stream -> int)
    requires f(Fresh()) == 0
    ensures Total(seq(n, _ => Fresh()), f) == 0
  {
    if n > 0 {
      TotalFresh(n - 1, f);
      assert seq(n, _ => Fresh())[..n - 1] == seq(n - 1, _ => Fresh());
    }
  }

  function EncodedBy(s: Stream): int { |s.encoded| }
  function ReceivedBy(s: Stream): int { s.received }
  function HeldBy(s: Stream): int { B(s.lastDropped) }

  lemma {:induction false} SurplusSplits(streams: seq<Stream>)
    ensures Total(streams, Surplus) == Total(streams, EncodedBy) + Total(streams, HeldBy) - Total(streams, ReceivedBy)
  {
    if streams != [] {
      SurplusSplits(streams[..|streams| - 1]);
    }
  }

  /** nb_frames_drop after the final report has added last_dropped of every stream. */
  function FinalDrop(w: World): int {
    w.totals.drop + Total(w.streams, HeldBy)
  }

  predicate NoCutOff(exits: seq<Exit>) {
    forall i :: 0 <= i < |exits| ==> !exits[i].TooLarge? && !exits[i].OutOfTime?
  }

  /** No call of the run was an unfed flush. */
  ghost predicate AllFed(cfgs: seq<Config>, events: seq<Event>)
    requires Exec(cfgs, events).Some?
  {
    events == [] ||
    var before, e := events[..|events| - 1], events[|events| - 1];
    AllFed(cfgs, before) && !Unfed(cfgs[e.stream], Exec(cfgs, before).value.streams[e.stream], e.call)
  }

  /** No call of the run left a held picture uncounted. */
  ghost predicate AllCounted(cfgs: seq<Config>, events: seq<Event>)
    requires Exec(cfgs, events).Some?
  {
    events == [] ||
    var before, e := events[..|events| - 1], events[|events| - 1];
    AllCounted(cfgs, before) && !Uncounted(cfgs[e.stream], Exec(cfgs, before).value.streams[e.stream])
  }

  /** The shortfall is what went missing or uncounted; there is one exactly when a call was of one of these kinds. */
  lemma {:induction false} RunBalance(cfgs: seq<Config>, events: seq<Event>) returns (lost: nat)
    requires Exec(cfgs, events).Some? && NoCutOff(Exec(cfgs, events).value.exits)
    ensures var w := Exec(cfgs, events).value;
            && Total(w.streams, Surplus) == w.totals.dup - w.totals.drop - lost
            && (lost == 0 <==> AllFed(cfgs, events) && AllCounted(cfgs, events))
  {
    if events == [] {
      lost := 0;
      TotalFresh(|cfgs|, Surplus);
    } else {
      var before, e := events[..|events| - 1], events[|events| - 1];
      var w, w' := Exec(cfgs, before).value, Exec(cfgs, events).value;
      assert w.exits == w'.exits[..|w.exits|];
      lost := RunBalance(cfgs, before);
      RunSane(cfgs, before);
      var cfg, s := cfgs[e.stream], w.streams[e.stream];
      var r := Do(cfg, s, w.totals, e.call, e.ch);
      assert w'.exits[|w.exits|] == r.exit;
      CallBalance(cfg, s, w.totals, e.call, e.ch);
      NoPictureIff(cfg, s, w.totals, e.call, e.ch);
      TotalUpdate(w.streams, e.stream, r.stream, Surplus);
      lost := lost + Missing(cfg, s, e.call, Limited(cfg, s, e.ch)) + B(Uncounted(cfg, s));
    }
  }

  /** Frames encoded = pictures received + duplicates - drops, after the final report. */
  predicate Conserved(w: World) {
    Total(w.streams, EncodedBy) == Total(w.streams, ReceivedBy) + w.totals.dup - FinalDrop(w)
  }

  /**
    Over all streams, frame limits and runs without a cut-off, frames are conserved exactly when no
    flush was unfed and no held picture was left uncounted.
   */
  lemma ConservedIff(cfgs: seq<Config>, events: seq<Event>)
    requires Exec(cfgs, events).Some? && NoCutOff(Exec(cfgs, events).value.exits)
    ensures Conserved(Exec(cfgs, events).value) <==> AllFed(cfgs, events) && AllCounted(cfgs, events)
  {
    var lost := RunBalance(cfgs, events);
    SurplusSplits(Exec(cfgs, events).value.streams);
  }

  /** With limits of at least 0 only unfed flushes lose frames. */
  lemma {:induction false} NaturalLimitsCount(cfgs: seq<Config>, events: seq<Event>)
    requires Exec(cfgs, events).Some? && forall i :: 0 <= i < |cfgs| ==> !Negative(cfgs[i])
    ensures AllCounted(cfgs, events)
  {
    if events != [] {
      NaturalLimitsCount(cfgs, events[..|events| - 1]);
    }
  }

  // ---- runs that lose frames -------------------------------------------------------------------

  lemma ExecOne(cfgs: seq<Config>, events: seq<Event>, w: World, e: Event) returns (events': seq<Event>, w': World)
    requires Exec(cfgs, events) == Some(w) && e.stream < |cfgs|
    requires Chosen(cfgs[e.stream], w.streams[e.stream], e.call, e.ch)
    ensures events' == events + [e] && w' == Apply(cfgs, w, e) && Exec(cfgs, events') == Some(w')
  {
    events', w' := events + [e], Apply(cfgs, w, e);
    assert events'[..|events'| - 1] == events;
  }

  const PLAIN := Config(Cfr, 0.0, 108000.0, 1000, None)

  /** A picture that comes three frames late is encoded four times, twice of which for the picture before. */
  lemma LatePicture(s: Stream, t: Totals, call: Call, ch: Choice)
    requires !s.lastDropped && s.frameNumber <= 900 && Sane(PLAIN, s)
    requires call.Picture? && call.syncIpts == s.syncOpts as real + 3.0 && call.duration == 1.0
    requires ch == Choice(4, 2, s.syncOpts)
    ensures Chosen(PLAIN, s, call, ch)
    ensures var r := Do(PLAIN, s, t, call, ch);
            && r.exit.Normal? && Sane(PLAIN, r.stream) && !r.stream.lastDropped
            && r.stream.syncOpts == s.syncOpts + 4 && r.stream.frameNumber == s.frameNumber + 4
            && r.stream.lastNb0 == (2, s.lastNb0.0, s.lastNb0.1) && r.stream.lastFrame.Some?
  {
  }

  /** One stream that has encoded n frames, with these last nb0_frames. */
  predicate Steadied(w: World, n: int, history: (int, int, int)) {
    && |w.streams| == 1 && NoCutOff(w.exits)
    && var s := w.streams[0];
    s.syncOpts == s.frameNumber == n && !s.lastDropped && s.lastNb0 == history && Sane(PLAIN, s)
  }

  lemma LateEvent(events: seq<Event>, w: World, n: int, history: (int, int, int))
    returns (events': seq<Event>, w': World)
    requires Exec([PLAIN], events) == Some(w) && Steadied(w, n, history) && n <= 900
    ensures Exec([PLAIN], events') == Some(w')
    ensures Steadied(w', n + 4, (2, history.0, history.1)) && w'.streams[0].lastFrame.Some?
  {
    var call, ch := Picture(0, n as real + 3.0, 1.0), Choice(4, 2, n);
    LatePicture(w.streams[0], w.totals, call, ch);
    events', w' := ExecOne([PLAIN], events, w, Event(0, call, ch));
  }

  /** Two late pictures leave two of three calls with nb0_frames == 2. */
  lemma TwoLatePictures() returns (events: seq<Event>, w: World)
    ensures Exec([PLAIN], events) == Some(w) && Steadied(w, 8, (2, 2, 0)) && w.streams[0].lastFrame.Some?
  {
    events, w := [], Start(1);
    events, w := LateEvent(events, w, 0, (0, 0, 0));
    events, w := LateEvent(events, w, 4, (2, 0, 0));
  }

  /** The first flush encodes two more frames, and leaves no last picture. */
  lemma FirstFlush() returns (events: seq<Event>, w: World)
    ensures Exec([PLAIN], events) == Some(w) && Steadied(w, 10, (2, 2, 2)) && w.streams[0].lastFrame.None?
  {
    events, w := TwoLatePictures();
    events, w := ExecOne([PLAIN], events, w, Event(0, Flush, Choice(2, 2, 8)));
  }

  /** A second flush, as when another filter graph ends, counts two duplicates that nothing encodes. */
  lemma SecondFlushLoses() returns (events: seq<Event>, w: World)
    ensures Exec([PLAIN], events) == Some(w) && NoCutOff(w.exits) && !AllFed([PLAIN], events)
    ensures !Conserved(w)
  {
    var first, before := FirstFlush();
    events, w := ExecOne([PLAIN], first, before, Event(0, Flush, Choice(2, 2, 10)));
    assert events[..|events| - 1] == first;
    ConservedIff([PLAIN], events);
  }

  const LIMITED := PLAIN.(maxFrames := -1)

  /** A picture under the limit -1: nothing is encoded, and the picture is held. */
  lemma HeldPicture(s: Stream, t: Totals, call: Call, ch: Choice)
    requires Sane(LIMITED, s) && call.Picture? && Chosen(LIMITED, s, call, ch)
    ensures var r := Do(LIMITED, s, t, call, ch);
            r.exit.Normal? && r.stream.lastDropped && r.stream.syncOpts == ch.syncOpts && Sane(LIMITED, r.stream)
  {
    NegativeLimit(LIMITED, s, call, ch);
    CallKeepsSane(LIMITED, s, t, call, ch);
  }

  /** A picture that is on time asks for one frame. */
  lemma OnTime(s: Stream, call: Call)
    requires s.syncOpts == 0 && call.Picture? && call.syncIpts == 0.0 && call.duration == 1.0
    ensures Chosen(LIMITED, s, call, Choice(1, 0, 0))
  {
  }

  /** One stream under the limit -1, whose time has not moved. */
  predicate Stalled(w: World) {
    && |w.streams| == 1 && NoCutOff(w.exits)
    && w.streams[0].syncOpts == 0 && Sane(LIMITED, w.streams[0])
  }

  lemma HeldEvent(events: seq<Event>, w: World, call: Call) returns (events': seq<Event>, w': World)
    requires Exec([LIMITED], events) == Some(w) && Stalled(w)
    requires call.Picture? && call.syncIpts == 0.0 && call.duration == 1.0
    ensures Exec([LIMITED], events') == Some(w') && Stalled(w') && w'.streams[0].lastDropped
    ensures events' == events + [Event(0, call, Choice(1, 0, 0))]
  {
    var s, ch := w.streams[0], Choice(1, 0, 0);
    OnTime(s, call);
    HeldPicture(s, w.totals, call, ch);
    events', w' := ExecOne([LIMITED], events, w, Event(0, call, ch));
    assert w' == Apply([LIMITED], w, Event(0, call, ch));
  }

  lemma OneHeld() returns (events: seq<Event>, w: World)
    ensures Exec([LIMITED], events) == Some(w) && Stalled(w) && w.streams[0].lastDropped
  {
    events, w := HeldEvent([], Start(1), Picture(0, 0.0, 1.0));
  }

  /** Of two pictures under the limit -1 the first is neither encoded nor counted as dropped. */
  lemma NegativeLimitLoses() returns (events: seq<Event>, w: World)
    ensures Exec([LIMITED], events) == Some(w) && NoCutOff(w.exits) && !AllCounted([LIMITED], events)
    ensures !Conserved(w)
  {
    var first, before := OneHeld();
    events, w := HeldEvent(first, before, Picture(1, 0.0, 1.0));
    LastUncounted(first, before, events);
    ConservedIff([LIMITED], events);
  }

  lemma LastUncounted(first: seq<Event>, before: World, events: seq<Event>)
    requires Exec([LIMITED], first) == Some(before) && Stalled(before) && before.streams[0].lastDropped
    requires |events| == |first| + 1 && events[..|first|] == first && events[|first|].stream == 0
    requires Exec([LIMITED], events).Some?
    ensures !AllCounted([LIMITED], events)
  {
    assert events[..|events| - 1] == first;
  }

  // ---- drift -----------------------------------------------------------------------------------

  function EndTime(call: Call): real
    requires call.Picture?
  {
    call.syncIpts + call.duration
  }

  /** The end time of the last picture of a stream; 0 before the first. */
  function LastEnd(events: seq<Event>, i: nat): real {
    if events == [] then 0.0
    else
      var e := events[|events| - 1];
      if e.stream == i && e.call.Picture? then EndTime(e.call) else LastEnd(events[..|events| - 1], i)
  }

  predicate InBand(drift: real) {
    -2.1 <= drift <= 0.5
  }

  /** At a constant rate a picture moves sync_opts to within the band of its end time. */
  lemma CallDrift(cfg: Config, s: Stream, t: Totals, call: Call, ch: Choice)
    requires cfg.sync.Cfr? && cfg.dropThreshold == 0.0 && Sane(cfg, s)
    requires call.Picture? && Chosen(cfg, s, call, ch)
    requires Do(cfg, s, t, call, ch).exit.Normal? && ch.nb <= cfg.maxFrames - s.frameNumber
    requires EndTime(call) - s.syncOpts as real >= -2.1
    ensures InBand(EndTime(call) - Do(cfg, s, t, call, ch).stream.syncOpts as real)
  {
    PictureEncoded(cfg, s, t, call, ch);
  }

  /** Stream i gets pictures whose end times do not go back, none before 0, and none is cut off. */
  ghost predicate Steady(cfgs: seq<Config>, events: seq<Event>, i: nat)
    requires i < |cfgs| && Exec(cfgs, events).Some?
  {
    events == [] ||
    var before, e := events[..|events| - 1], events[|events| - 1];
    && Steady(cfgs, before, i)
    && (e.stream == i ==>
      var cfg, s := cfgs[i], Exec(cfgs, before).value.streams[i];
      && e.call.Picture? && EndTime(e.call) >= LastEnd(before, i)
      && Do(cfg, s, Exec(cfgs, before).value.totals, e.call, e.ch).exit.Normal?
      && e.ch.nb <= cfg.maxFrames - s.frameNumber)
  }

  /**
    After every call, at a constant rate, the end of the last picture is at most 2.1 frames before
    sync_opts, and at most half a frame after.
   */
  lemma {:induction false} DriftBounded(cfgs: seq<Config>, events: seq<Event>, i: nat)
    requires i < |cfgs| && Exec(cfgs, events).Some?
    requires cfgs[i].sync.Cfr? && cfgs[i].dropThreshold == 0.0 && Steady(cfgs, events, i)
    ensures InBand(LastEnd(events, i) - Exec(cfgs, events).value.streams[i].syncOpts as real)
  {
    if events != [] {
      var before, e := events[..|events| - 1], events[|events| - 1];
      DriftBounded(cfgs, before, i);
      RunSane(cfgs, before);
      if e.stream == i {
        var w := Exec(cfgs, before).value;
        CallDrift(cfgs[i], w.streams[i], w.totals, e.call, e.ch);
      }
    }
  }

  // ---- timestamps ------------------------------------------------------------------------------

  /** The frames sent to the encoder have increasing pts, all below sync_opts. */
  predicate Increasing(s: Stream) {
    && (forall i, j :: 0 <= i < j < |s.encoded| ==> s.encoded[i].pts < s.encoded[j].pts)
    && (forall i :: 0 <= i < |s.encoded| ==> s.encoded[i].pts < s.syncOpts)
  }

  predicate KeepsTime(sync: Sync) {
    !sync.Drop? && !sync.Passthrough?
  }

  /** The switch never sets sync_opts back, except when it passes times through. */
  lemma SyncOptsForward(cfg: Config, s: Stream, call: Call, ch: Choice)
    requires KeepsTime(cfg.sync) && Chosen(cfg, s, call, ch)
    ensures ch.syncOpts >= s.syncOpts
  {
  }

  lemma CallIncreasing(cfg: Config, s: Stream, t: Totals, call: Call, ch: Choice)
    requires KeepsTime(cfg.sync) && Chosen(cfg, s, call, ch) && Increasing(s)
    ensures Increasing(Do(cfg, s, t, call, ch).stream)
  {
    SyncOptsForward(cfg, s, call, ch);
    var l := Limited(cfg, s, ch);
    var m := Marked(Recorded(s, call, l), call, l);
    var k := Encodable(cfg, m, Next(call), l, 0);
    FramesIncrease(m, Frames(cfg, m, Next(call), l, k));
  }

  lemma FramesIncrease(m: Stream, frames: seq<Sent>)
    requires Increasing(m)
    requires forall i :: 0 <= i < |frames| ==> frames[i].pts == m.syncOpts + i
    ensures Increasing(Advanced(m, frames, |frames|))
  {
  }

  /** On every run, whatever the cut-offs, the encoder of a stream gets strictly increasing pts. */
  lemma {:induction false} PtsIncrease(cfgs: seq<Config>, events: seq<Event>, i: nat)
    requires i < |cfgs| && Exec(cfgs, events).Some? && KeepsTime(cfgs[i].sync)
    ensures Increasing(Exec(cfgs, events).value.streams[i])
  {
    if events != [] {
      var before, e := events[..|events| - 1], events[|events| - 1];
      PtsIncrease(cfgs, before, i);
      if e.stream == i {
        var w := Exec(cfgs, before).value;
        CallIncreasing(cfgs[i], w.streams[i], w.totals, e.call, e.ch);
      }
    }
  }
}
