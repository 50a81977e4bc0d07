/**
  What a call of do_video_out sends to the encoder, said of the times of its picture and of the frames
  that come out: how many there are, at which times, and which picture each of them shows.
 */
module RateLaws {
  import opened Options
  import opened RateConversion

  /** The result of a call that is neither limited nor cut off. */
  ghost predicate Unlimited(cfg: Config, s: Stream, t: Totals, call: Call, ch: Choice) {
    && Sane(cfg, s) && Chosen(cfg, s, call, ch) && Do(cfg, s, t, call, ch).exit.Normal?
    && ch.nb <= cfg.maxFrames - s.frameNumber
  }

  function Starts(call: Call): real
    requires call.Picture?
  {
    call.syncIpts
  }

  function Later(a: real, b: real): real {
    if a >= b then a else b
  }

  /** An integer that is nearest to x. */
  predicate Nearest(n: int, x: real) {
    -0.5 <= n as real - x <= 0.5
  }

  /** Frames from a time on, one after the other. */
  predicate Consecutive(frames: seq<Sent>, from: int) {
    forall j :: 0 <= j < |frames| ==> frames[j].pts == from + j
  }

  predicate AllShow(frames: seq<Sent>, picture: int) {
    forall j :: 0 <= j < |frames| ==> frames[j].picture == picture
  }

  /** What a call has added at the encoder. */
  function New(s: Stream, r: Stream): seq<Sent>
    requires |s.encoded| <= |r.encoded|
  {
    r.encoded[|s.encoded|..]
  }

  // ---- the shape of a call -----------------------------------------------------------------------

  /** Frame j of a call shows the last picture if it is one of the first nb0 and there is a last picture. */
  predicate Repeating(s: Stream, next: Option<int>, frames: seq<Sent>, nb0: int) {
    forall j :: 0 <= j < |frames| ==>
      Some(frames[j].picture) == if j < nb0 && s.lastFrame.Some? then s.lastFrame else next
  }

  /** All frames are sent, from the new sync_opts on. */
  lemma CallSends(cfg: Config, s: Stream, t: Totals, call: Call, ch: Choice)
    requires Unlimited(cfg, s, t, call, ch)
    ensures var r := Do(cfg, s, t, call, ch).stream;
            && s.encoded <= r.encoded && |New(s, r)| == Max0(ch.nb) && r.syncOpts == ch.syncOpts + Max0(ch.nb)
            && Consecutive(New(s, r), ch.syncOpts) && Repeating(s, Next(call), New(s, r), Min(ch.nb0, ch.nb))
            && r.lastFrame == Next(call)
  {
    var l := Limited(cfg, s, ch);
    var m := Marked(Recorded(s, call, l), call, l);
    var k := Encodable(cfg, m, Next(call), l, 0);
    var frames := Frames(cfg, m, Next(call), l, k);
    var r := Do(cfg, s, t, call, ch).stream;
    assert r.encoded == s.encoded + frames[..k] && frames[..k] == frames;
    assert New(s, r) == frames;
  }

  // ---- limits and cut-offs -----------------------------------------------------------------------

  /** How many frames are left to send after the frame limit, and how many of these repeat the last picture. */
  function Left(cfg: Config, s: Stream, n: int): int {
    if n <= cfg.maxFrames - s.frameNumber then n else cfg.maxFrames - s.frameNumber
  }

  /**
    A call gives up exactly if it is to duplicate frames, and there are more frames than thirty times the
    error threshold; it sends nothing then.
   */
  lemma TooLargeIff(cfg: Config, s: Stream, t: Totals, call: Call, ch: Choice)
    requires Sane(cfg, s) && Chosen(cfg, s, call, ch) && cfg.maxFrames >= 0
    ensures var r := Do(cfg, s, t, call, ch);
            var nb, nb0 := Left(cfg, s, ch.nb), Left(cfg, s, Min(ch.nb0, ch.nb));
            && (r.exit.TooLarge? <==>
                  && nb > (if nb0 > 0 && s.lastDropped then 1 else 0) + (if nb > nb0 then 1 else 0)
                  && nb as real > 30.0 * cfg.errorThreshold)
            && (r.exit.TooLarge? ==>
                  && r.stream.encoded == s.encoded && r.stream.frameNumber == s.frameNumber
                  && r.totals == Totals(t.dup, t.drop + 1 + if nb0 == 0 && s.lastDropped then 1 else 0))
  {
    LimitCases(cfg, s, call, ch);
  }

  /** How many of so many frames from a time on are before the time limit. */
  function BeforeLimit(cfg: Config, from: int, n: nat): (k: nat)
    ensures k <= n
  {
    match cfg.timeLimit
    case None => n
    case Some(limit) => if limit <= from then 0 else if limit - from < n then limit - from else n
  }

  /** Any other call that has a picture sends the frames before the time limit, and ends early if there are more. */
  lemma TimeLimitCuts(cfg: Config, s: Stream, t: Totals, call: Call, ch: Choice)
    requires Sane(cfg, s) && Chosen(cfg, s, call, ch) && (call.Picture? || s.lastFrame.Some?)
    requires !Do(cfg, s, t, call, ch).exit.TooLarge?
    ensures var r, nb := Do(cfg, s, t, call, ch), Max0(Left(cfg, s, ch.nb));
            var n := BeforeLimit(cfg, ch.syncOpts, nb);
            && |r.stream.encoded| == |s.encoded| + n && r.stream.frameNumber == s.frameNumber + n
            && r.stream.syncOpts == ch.syncOpts + n && r.exit == if n < nb then OutOfTime else Normal
  {
    LimitCases(cfg, s, call, ch);
    var l := Limited(cfg, s, ch);
    var m := Marked(Recorded(s, call, l), call, l);
    var k := Encodable(cfg, m, Next(call), l, 0);
    var n := BeforeLimit(cfg, ch.syncOpts, Max0(l.nb));
    if k < n {
      assert !CanEncode(cfg, m, Next(call), l.nb0, k);
    } else if n < k {
      assert CanEncode(cfg, m, Next(call), l.nb0, n);
    }
  }

  // ---- variable rate -----------------------------------------------------------------------------

  /**
    At a variable rate a picture that ends 0.6 or more before sync_opts is left out. Any other is sent
    once: at sync_opts if it ends at most 0.6 after that, and else at the time nearest to its start, or to
    sync_opts if it starts before that.
   */
  lemma VfrCall(cfg: Config, s: Stream, t: Totals, call: Call, ch: Choice)
    requires cfg.sync.Vfr? && call.Picture? && Unlimited(cfg, s, t, call, ch)
    ensures var r, late := Do(cfg, s, t, call, ch).stream, EndTime(call) - s.syncOpts as real;
            if late <= -0.6 then r.encoded == s.encoded && r.syncOpts == s.syncOpts
            else
              && r.encoded == s.encoded + [Sent(call.id, r.syncOpts - 1)]
              && (late <= 0.6 ==> r.syncOpts - 1 == s.syncOpts)
              && (late > 0.6 ==> Nearest(r.syncOpts - 1, Later(Starts(call), s.syncOpts as real)))
  {
    CallSends(cfg, s, t, call, ch);
    var r := Do(cfg, s, t, call, ch).stream;
    assert r.encoded == s.encoded + New(s, r);
    if |New(s, r)| == 1 {
      assert New(s, r) == [Sent(call.id, r.syncOpts - 1)];
    }
  }

  /** Without synchronisation every picture is sent once, at the time nearest to its start. */
  lemma PassCall(cfg: Config, s: Stream, t: Totals, call: Call, ch: Choice)
    requires (cfg.sync.Drop? || cfg.sync.Passthrough?) && call.Picture? && Unlimited(cfg, s, t, call, ch)
    ensures var r := Do(cfg, s, t, call, ch).stream;
            r.encoded == s.encoded + [Sent(call.id, r.syncOpts - 1)] && Nearest(r.syncOpts - 1, Starts(call))
  {
    CallSends(cfg, s, t, call, ch);
    var r := Do(cfg, s, t, call, ch).stream;
    assert r.encoded == s.encoded + New(s, r);
    assert New(s, r) == [Sent(call.id, r.syncOpts - 1)];
  }

  // ---- constant rate -----------------------------------------------------------------------------

  /** How many frames are due when so much time is owed. */
  predicate Due(n: int, owed: real) {
    && (owed < -1.1 ==> n == 0) && (-1.1 <= owed <= 1.1 ==> n == 1) && (owed > 1.1 ==> Nearest(n, owed))
  }

  /** The picture lies below the threshold for dropping. */
  predicate BelowThreshold(cfg: Config, s: Stream, owed: real) {
    cfg.dropThreshold != 0.0 && owed < cfg.dropThreshold && s.frameNumber != 0
  }

  /** The first picture of a stream with variable start. */
  predicate FirstMoved(cfg: Config, s: Stream, call: Call)
    requires call.Picture?
  {
    cfg.sync.Vscfr? && s.frameNumber == 0 && Starts(call) - s.syncOpts as real >= 0.5
  }

  /**
    At a constant rate the frames fill the time from sync_opts to the end of the picture. Those up to
    1.1 before its start show the last picture, if there is one, and the others show this one.
   */
  lemma ConstantCall(cfg: Config, s: Stream, t: Totals, call: Call, ch: Choice)
    requires call.Picture? && (cfg.sync.Cfr? || cfg.sync.Vscfr?) && !FirstMoved(cfg, s, call)
    requires Unlimited(cfg, s, t, call, ch)
    ensures var r, owed := Do(cfg, s, t, call, ch).stream, EndTime(call) - s.syncOpts as real;
            && s.encoded <= r.encoded && Consecutive(New(s, r), s.syncOpts) && r.syncOpts == s.syncOpts + |New(s, r)|
            && (BelowThreshold(cfg, s, owed) ==> New(s, r) == [])
            && (!BelowThreshold(cfg, s, owed) ==> Due(|New(s, r)|, owed))
            && (s.lastFrame.None? ==> AllShow(New(s, r), call.id))
            && (s.lastFrame.Some? && call.duration >= 0.0 ==>
                  OnTime(New(s, r), s.lastFrame.value, call.id, Starts(call) - 1.1))
  {
    CallSends(cfg, s, t, call, ch);
    var r := Do(cfg, s, t, call, ch).stream;
    ConstantChoice(cfg, s, call, ch);
    if s.lastFrame.Some? && call.duration >= 0.0 {
      RepeatsOnTime(s, call, New(s, r), ch);
    }
  }

  /** Frames before a time show one picture, and frames after it another. */
  predicate OnTime(frames: seq<Sent>, last: int, next: int, time: real) {
    forall j :: 0 <= j < |frames| ==>
      && (frames[j].pts as real < time ==> frames[j].picture == last)
      && (frames[j].pts as real > time ==> frames[j].picture == next)
  }

  /** What the choice is, where sync_opts is kept. */
  lemma ConstantChoice(cfg: Config, s: Stream, call: Call, ch: Choice)
    requires call.Picture? && (cfg.sync.Cfr? || cfg.sync.Vscfr?) && !FirstMoved(cfg, s, call)
    requires Chosen(cfg, s, call, ch)
    ensures var owed, ahead := EndTime(call) - s.syncOpts as real, Starts(call) - s.syncOpts as real;
            && ch.syncOpts == s.syncOpts && ch.nb >= 0
            && (BelowThreshold(cfg, s, owed) ==> ch.nb == 0)
            && (!BelowThreshold(cfg, s, owed) ==> Due(ch.nb, owed))
            && (ch.nb > 0 && call.duration >= 0.0 ==>
                  if ahead > 1.1 then Nearest(ch.nb0, ahead - 0.6) else ch.nb0 == 0)
  {
  }

  lemma RepeatsOnTime(s: Stream, call: Call, frames: seq<Sent>, ch: Choice)
    requires call.Picture? && s.lastFrame.Some? && Consecutive(frames, s.syncOpts)
    requires |frames| == Max0(ch.nb) && Repeating(s, Next(call), frames, Min(ch.nb0, ch.nb))
    requires var ahead := Starts(call) - s.syncOpts as real;
             ch.nb > 0 ==> if ahead > 1.1 then Nearest(ch.nb0, ahead - 0.6) else ch.nb0 == 0
    ensures OnTime(frames, s.lastFrame.value, call.id, Starts(call) - 1.1)
  {
    forall j | 0 <= j < |frames|
      ensures frames[j].pts as real < Starts(call) - 1.1 ==> frames[j].picture == s.lastFrame.value
      ensures frames[j].pts as real > Starts(call) - 1.1 ==> frames[j].picture == call.id
    {
      assert frames[j].pts == s.syncOpts + j;
    }
  }

  /** With a variable start the first picture moves sync_opts to its start, and fills its own duration. */
  lemma FirstMovedCall(cfg: Config, s: Stream, t: Totals, call: Call, ch: Choice)
    requires call.Picture? && FirstMoved(cfg, s, call) && Unlimited(cfg, s, t, call, ch)
    ensures var r := Do(cfg, s, t, call, ch).stream;
            && s.encoded <= r.encoded && AllShow(New(s, r), call.id) && Due(|New(s, r)|, call.duration)
            && Consecutive(New(s, r), r.syncOpts - |New(s, r)|)
            && Nearest(r.syncOpts - |New(s, r)|, Starts(call))
  {
    CallSends(cfg, s, t, call, ch);
    ChosenSane(cfg, s, call, ch);
  }

  // ---- the end of a stream -----------------------------------------------------------------------

  /** A flush repeats the last picture, and forgets it. */
  lemma FlushCall(cfg: Config, s: Stream, t: Totals, ch: Choice)
    requires s.lastFrame.Some? && Unlimited(cfg, s, t, Flush, ch)
    ensures var r, n := Do(cfg, s, t, Flush, ch).stream, MidPred(s.lastNb0.0, s.lastNb0.1, s.lastNb0.2);
            && s.encoded <= r.encoded && |New(s, r)| == (if n >= 0 then n else 0)
            && Consecutive(New(s, r), s.syncOpts) && AllShow(New(s, r), s.lastFrame.value)
            && r.syncOpts == s.syncOpts + |New(s, r)| && r.lastFrame.None?
  {
    CallSends(cfg, s, t, Flush, ch);
  }

  /** How many frames the calls of stream i were to repeat, in order. */
  ghost function Repeats(cfgs: seq<Config>, events: seq<Event>, i: nat): seq<int>
    requires i < |cfgs| && Exec(cfgs, events).Some?
  {
    if events == [] then []
    else
      var before, e := events[..|events| - 1], events[|events| - 1];
      var room := cfgs[i].maxFrames - Exec(cfgs, before).value.streams[i].frameNumber;
      if e.stream == i then Repeats(cfgs, before, i) + [Min(e.ch.nb0, Min(e.ch.nb, room))]
      else Repeats(cfgs, before, i)
  }

  /** The one so many from the end, or 0. */
  function FromEnd(s: seq<int>, k: nat): int
    requires k >= 1
  {
    if k <= |s| then s[|s| - k] else 0
  }

  /** So the number that a flush takes is the median of the last three. */
  lemma {:induction false} LastThree(cfgs: seq<Config>, events: seq<Event>, i: nat)
    requires i < |cfgs| && Exec(cfgs, events).Some?
    ensures var h := Repeats(cfgs, events, i);
            Exec(cfgs, events).value.streams[i].lastNb0 == (FromEnd(h, 1), FromEnd(h, 2), FromEnd(h, 3))
  {
    if events != [] {
      var before, e := events[..|events| - 1], events[|events| - 1];
      LastThree(cfgs, before, i);
      if e.stream == i {
        var w, h := Exec(cfgs, before).value, Repeats(cfgs, before, i);
        var nb0 := Min(e.ch.nb0, Min(e.ch.nb, cfgs[i].maxFrames - w.streams[i].frameNumber));
        HistoryShifts(cfgs[i], w.streams[i], w.totals, e.call, e.ch, nb0);
        OneMore(h, nb0);
        assert Repeats(cfgs, events, i) == h + [nb0];
      }
    }
  }

  lemma HistoryShifts(cfg: Config, s: Stream, t: Totals, call: Call, ch: Choice, nb0: int)
    requires nb0 == Min(ch.nb0, Min(ch.nb, cfg.maxFrames - s.frameNumber))
    ensures Do(cfg, s, t, call, ch).stream.lastNb0 == (nb0, s.lastNb0.0, s.lastNb0.1)
  {
  }

  lemma OneMore(h: seq<int>, n: int)
    ensures FromEnd(h + [n], 1) == n && FromEnd(h + [n], 2) == FromEnd(h, 1) && FromEnd(h + [n], 3) == FromEnd(h, 2)
  {
  }

  // ---- the drift at a variable rate --------------------------------------------------------------

  /** Stream i gets pictures, none limited or cut off, of at most this duration, whose ends do not go back. */
  ghost predicate Flowing(cfgs: seq<Config>, events: seq<Event>, i: nat, longest: real)
    requires i < |cfgs| && Exec(cfgs, events).Some?
  {
    events == [] ||
    var before, e := events[..|events| - 1], events[|events| - 1];
    && Flowing(cfgs, before, i, longest)
    && (e.stream == i ==>
          && e.call.Picture? && 0.0 <= e.call.duration <= longest && EndTime(e.call) >= LastEnd(before, i)
          && Unlimited(cfgs[i], Exec(cfgs, before).value.streams[i], Exec(cfgs, before).value.totals, e.call, e.ch))
  }

  predicate VfrBand(drift: real, longest: real) {
    -1.6 <= drift <= Later(longest - 0.5, 0.0)
  }

  lemma VfrStep(cfg: Config, s: Stream, t: Totals, call: Call, ch: Choice, end: real, longest: real)
    requires cfg.sync.Vfr? && call.Picture? && Unlimited(cfg, s, t, call, ch)
    requires 0.0 <= call.duration <= longest && EndTime(call) >= end && VfrBand(end - s.syncOpts as real, longest)
    ensures VfrBand(EndTime(call) - Do(cfg, s, t, call, ch).stream.syncOpts as real, longest)
  {
    VfrCall(cfg, s, t, call, ch);
  }

  /**
    At a variable rate, after every call, the end of the last picture is at most 1.6 frames before
    sync_opts, and at most the longest duration less half a frame after it.
   */
  lemma {:induction false} VfrDriftBounded(cfgs: seq<Config>, events: seq<Event>, i: nat, longest: real)
    requires i < |cfgs| && Exec(cfgs, events).Some?
    requires cfgs[i].sync.Vfr? && Flowing(cfgs, events, i, longest)
    ensures VfrBand(LastEnd(events, i) - Exec(cfgs, events).value.streams[i].syncOpts as real, longest)
  {
    if events != [] {
      var before, e := events[..|events| - 1], events[|events| - 1];
      VfrDriftBounded(cfgs, before, i, longest);
      if e.stream == i {
        var w := Exec(cfgs, before).value;
        VfrStep(cfgs[i], w.streams[i], w.totals, e.call, e.ch, LastEnd(before, i), longest);
      }
    }
  }
}
