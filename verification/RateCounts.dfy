/**
  What nb_frames_dup and nb_frames_drop count. A duplicate should be a frame that shows a picture shown
  before, and a drop a picture that no frame shows. The pictures of a stream are told apart by their
  identifiers.
 */
module RateCounts {
  import opened Options
  import opened RateConversion

  // ---- pictures shown ----------------------------------------------------------------------------

  /** The pictures that frames show. */
  function Shown(frames: seq<Sent>): set<int> {
    set f | f in frames :: f.picture
  }

  /** Frames that show what an earlier one has shown. */
  function RepeatsOf(s: Stream): int {
    |s.encoded| - |Shown(s.encoded)|
  }

  /** Pictures received that no frame shows. */
  function UnshownBy(s: Stream): int {
    s.received - |Shown(s.encoded)|
  }

  /** The last picture is marked as left over although a frame shows it. */
  predicate Mismarked(s: Stream) {
    s.lastDropped && s.lastFrame.Some? && s.lastFrame.value in Shown(s.encoded)
  }

  function MismarkedIn(s: Stream): int {
    B(Mismarked(s))
  }

  /** What is known of a stream that has received these pictures. */
  ghost predicate Known(s: Stream, seen: set<int>) {
    && Shown(s.encoded) <= seen
    && (s.lastFrame.Some? ==> s.lastFrame.value in seen)
    && (s.lastDropped ==> s.lastFrame.Some?)
    && (s.lastFrame.Some? && !s.lastDropped ==> s.lastFrame.value in Shown(s.encoded))
  }

  /** A picture counted as dropped although a frame shows it. */
  predicate FalseDrop(s: Stream, nb0: int) {
    Mismarked(s) && nb0 == 0
  }

  lemma ShownAppend(a: seq<Sent>, b: seq<Sent>)
    ensures Shown(a + b) == Shown(a) + Shown(b)
  {
    forall x | x in Shown(a) + Shown(b) ensures x in Shown(a + b) {
      if x in Shown(a) {
        var f :| f in a && f.picture == x;
        assert f in a + b;
      } else {
        var f :| f in b && f.picture == x;
        assert f in a + b;
      }
    }
  }

  /** The frames of a call: the first nb0 show the last picture, if there is one, and the others the next. */
  predicate Mixed(frames: seq<Sent>, last: Option<int>, next: Option<int>, nb0: int) {
    forall j :: 0 <= j < |frames| ==> Some(frames[j].picture) == if j < nb0 && last.Some? then last else next
  }

  /** Whether a call of nb frames shows the last picture, and whether it shows the next. */
  function Set1(b: bool, x: Option<int>): set<int> {
    if b && x.Some? then {x.value} else {}
  }

  lemma ShownMixed(frames: seq<Sent>, last: Option<int>, next: Option<int>, nb: nat, nb0: int)
    requires |frames| == nb && Mixed(frames, last, next, nb0) && 0 <= nb0 <= nb
    ensures Shown(frames) == Set1(nb0 > 0, last) + Set1(nb > nb0 || (nb > 0 && last.None?), next)
  {
    var all := Set1(nb0 > 0, last) + Set1(nb > nb0 || (nb > 0 && last.None?), next);
    forall x | x in all ensures x in Shown(frames) {
      if x in Set1(nb0 > 0, last) {
        assert frames[0].picture == x && frames[0] in frames;
      } else {
        assert Some(frames[nb - 1].picture) == next && frames[nb - 1] in frames;
      }
    }
    forall f | f in frames ensures f.picture in all {
      var j :| 0 <= j < |frames| && frames[j] == f;
    }
  }

  /** How many new pictures a call shows. */
  lemma NewPictures(shown: set<int>, last: Option<int>, next: Option<int>, a: bool, b: bool)
    requires next.Some? ==> next.value !in shown && (last.Some? ==> next.value != last.value)
    ensures |shown + (Set1(a, last) + Set1(b, next))|
         == |shown| + B(a && last.Some? && last.value !in shown) + B(b && next.Some?)
  {
    var one := shown + Set1(a, last);
    assert shown + (Set1(a, last) + Set1(b, next)) == one + Set1(b, next);
    if a && last.Some? && last.value in shown {
      assert one == shown;
    }
  }

  // ---- one call ----------------------------------------------------------------------------------

  /** The frames of a call that has sent all its frames. */
  lemma CallFrames(cfg: Config, s: Stream, t: Totals, call: Call, ch: Choice) returns (frames: seq<Sent>)
    requires Sane(cfg, s) && Chosen(cfg, s, call, ch) && Do(cfg, s, t, call, ch).exit.Normal?
    ensures var l, r := Limited(cfg, s, ch), Do(cfg, s, t, call, ch).stream;
            && r.encoded == s.encoded + frames && |frames| == Max0(l.nb)
            && Mixed(frames, s.lastFrame, Next(call), l.nb0)
            && r.lastFrame == Next(call) && r.lastDropped == (l.nb == l.nb0 && call.Picture?)
            && r.received == s.received + B(call.Picture?)
  {
    var l := Limited(cfg, s, ch);
    var m := Marked(Recorded(s, call, l), call, l);
    var k := Encodable(cfg, m, Next(call), l, 0);
    frames := Frames(cfg, m, Next(call), l, k);
    assert frames[..k] == frames;
  }

  /** The picture of a call has not been seen. */
  ghost predicate Unseen(call: Call, seen: set<int>) {
    call.Picture? ==> call.id !in seen
  }

  ghost function SeenAfter(call: Call, seen: set<int>): set<int> {
    if call.Picture? then seen + {call.id} else seen
  }

  lemma ShownAfter(s: Stream, call: Call, seen: set<int>, frames: seq<Sent>, nb: nat, nb0: int)
    requires Known(s, seen) && Unseen(call, seen) && |frames| == nb && 0 <= nb0 <= nb
    requires Mixed(frames, s.lastFrame, Next(call), nb0)
    ensures var last, all := s.lastFrame, Shown(s.encoded + frames);
            && all == Shown(s.encoded) + (Set1(nb0 > 0, last) + Set1(nb > nb0 || (nb > 0 && last.None?), Next(call)))
            && |all| == |Shown(s.encoded)| + B(nb0 > 0 && s.lastDropped && !Mismarked(s))
                        + B((nb > nb0 || (nb > 0 && last.None?)) && call.Picture?)
  {
    ShownAppend(s.encoded, frames);
    ShownMixed(frames, s.lastFrame, Next(call), nb, nb0);
    NewPictures(Shown(s.encoded), s.lastFrame, Next(call), nb0 > 0, nb > nb0 || (nb > 0 && s.lastFrame.None?));
  }

  /** What has to be known of a stream before a call. */
  ghost predicate Ready(cfg: Config, s: Stream, seen: set<int>) {
    Sane(cfg, s) && Known(s, seen) && (Negative(cfg) ==> s.encoded == [])
  }

  /** By how much the duplicates counted differ from the repeats shown, a mismarked picture counted in advance. */
  function Excess(s: Stream, t: Totals): int {
    t.dup - RepeatsOf(s) - MismarkedIn(s)
  }

  lemma KnownAfter(cfg: Config, s: Stream, t: Totals, call: Call, ch: Choice, seen: set<int>, frames: seq<Sent>)
    requires Ready(cfg, s, seen) && Chosen(cfg, s, call, ch) && Unseen(call, seen) && !Negative(cfg)
    requires Do(cfg, s, t, call, ch).exit.Normal?
    requires var l, r := Limited(cfg, s, ch), Do(cfg, s, t, call, ch).stream;
             && r.encoded == s.encoded + frames && |frames| == Max0(l.nb)
             && Mixed(frames, s.lastFrame, Next(call), l.nb0)
             && r.lastFrame == Next(call) && r.lastDropped == (l.nb == l.nb0 && call.Picture?)
    ensures var l, r := Limited(cfg, s, ch), Do(cfg, s, t, call, ch).stream;
            && Known(r, SeenAfter(call, seen))
            && (Mismarked(r) <==> call.Picture? && s.lastFrame.None? && l.nb == l.nb0 > 0)
  {
    LimitCases(cfg, s, call, ch);
    var l := Limited(cfg, s, ch);
    ShownAfter(s, call, seen, frames, l.nb, l.nb0);
  }

  /** A call that sends all its frames, under a limit of at least 0. */
  lemma SentCounts(cfg: Config, s: Stream, t: Totals, call: Call, ch: Choice, seen: set<int>)
    requires Ready(cfg, s, seen) && Chosen(cfg, s, call, ch) && Unseen(call, seen) && !Negative(cfg)
    requires Do(cfg, s, t, call, ch).exit.Normal?
    ensures var l, r := Limited(cfg, s, ch), Do(cfg, s, t, call, ch);
            && Known(r.stream, SeenAfter(call, seen))
            && (Mismarked(r.stream) <==> call.Picture? && s.lastFrame.None? && l.nb == l.nb0 > 0)
            && Excess(r.stream, r.totals) == Excess(s, t) + B(FalseDrop(s, l.nb0))
  {
    LimitCases(cfg, s, call, ch);
    var l := Limited(cfg, s, ch);
    var frames := CallFrames(cfg, s, t, call, ch);
    KnownAfter(cfg, s, t, call, ch, seen, frames);
    ShownAfter(s, call, seen, frames, l.nb, l.nb0);
    DupCounted(cfg, s, t, call, l);
  }

  /** What is added to the duplicates. */
  lemma DupCounted(cfg: Config, s: Stream, t: Totals, call: Call, l: Choice)
    requires !Excessive(cfg, s, l) && 0 <= l.nb0 <= l.nb
    ensures Output(cfg, s, t, call, l).totals.dup == t.dup + l.nb - B(l.nb0 > 0 && s.lastDropped) - B(l.nb > l.nb0)
  {
  }

  /** Under a negative limit nothing is sent, and nothing counted as a duplicate. */
  lemma HeldCounts(cfg: Config, s: Stream, t: Totals, call: Call, ch: Choice, seen: set<int>)
    requires Ready(cfg, s, seen) && Chosen(cfg, s, call, ch) && Negative(cfg)
    ensures var l, r := Limited(cfg, s, ch), Do(cfg, s, t, call, ch);
            && r.stream.encoded == [] && Known(r.stream, SeenAfter(call, seen))
            && Excess(r.stream, r.totals) == Excess(s, t) && !FalseDrop(s, l.nb0)
            && Missing(cfg, s, call, l) == 0
  {
    NegativeLimit(cfg, s, call, ch);
  }

  /** A call without a picture to send. */
  lemma UnfedCounts(cfg: Config, s: Stream, t: Totals, call: Call, ch: Choice, seen: set<int>)
    requires Ready(cfg, s, seen) && Chosen(cfg, s, call, ch) && !Negative(cfg)
    requires Do(cfg, s, t, call, ch).exit.NoPicture?
    ensures var l, r := Limited(cfg, s, ch), Do(cfg, s, t, call, ch);
            && Known(r.stream, SeenAfter(call, seen))
            && Excess(r.stream, r.totals) == Excess(s, t) + Missing(cfg, s, call, l) && !FalseDrop(s, l.nb0)
  {
    LimitCases(cfg, s, call, ch);
    NoPictureIff(cfg, s, t, call, ch);
    var l := Limited(cfg, s, ch);
    DupCounted(cfg, s, t, call, l);
    var m := Marked(Recorded(s, call, l), call, l);
    assert !CanEncode(cfg, m, None, l.nb0, 0);
    assert Do(cfg, s, t, call, ch).stream.encoded == s.encoded;
  }

  /** The excess grows by the frames missing and by the pictures falsely counted as dropped. */
  lemma CallCounts(cfg: Config, s: Stream, t: Totals, call: Call, ch: Choice, seen: set<int>)
    requires Ready(cfg, s, seen) && Chosen(cfg, s, call, ch) && Unseen(call, seen)
    requires var exit := Do(cfg, s, t, call, ch).exit; exit.Normal? || exit.NoPicture?
    ensures var l, r := Limited(cfg, s, ch), Do(cfg, s, t, call, ch);
            && Ready(cfg, r.stream, SeenAfter(call, seen))
            && Excess(r.stream, r.totals) == Excess(s, t) + Missing(cfg, s, call, l) + B(FalseDrop(s, l.nb0))
  {
    CallKeepsSane(cfg, s, t, call, ch);
    if Negative(cfg) {
      HeldCounts(cfg, s, t, call, ch, seen);
    } else if Do(cfg, s, t, call, ch).exit.Normal? {
      SentCounts(cfg, s, t, call, ch, seen);
      CallBalance(cfg, s, t, call, ch);
    } else {
      UnfedCounts(cfg, s, t, call, ch, seen);
    }
  }

  // ---- runs --------------------------------------------------------------------------------------

  /** The pictures that stream i has received. */
  ghost function SeenBy(events: seq<Event>, i: nat): set<int> {
    if events == [] then {}
    else
      var before, e := events[..|events| - 1], events[|events| - 1];
      if e.stream == i then SeenAfter(e.call, SeenBy(before, i)) else SeenBy(before, i)
  }

  /** No stream receives a picture twice. */
  ghost predicate AllNew(events: seq<Event>) {
    events == [] ||
    var before, e := events[..|events| - 1], events[|events| - 1];
    AllNew(before) && Unseen(e.call, SeenBy(before, e.stream))
  }

  ghost predicate AllReady(cfgs: seq<Config>, streams: seq<Stream>, events: seq<Event>)
    requires |cfgs| == |streams|
  {
    forall i :: 0 <= i < |cfgs| ==> Ready(cfgs[i], streams[i], SeenBy(events, i))
  }

  /** No call of the run counted a picture as dropped that a frame shows. */
  ghost predicate NoFalseDrop(cfgs: seq<Config>, events: seq<Event>)
    requires Exec(cfgs, events).Some?
  {
    events == [] ||
    var before, e := events[..|events| - 1], events[|events| - 1];
    var s := Exec(cfgs, before).value.streams[e.stream];
    NoFalseDrop(cfgs, before) && !FalseDrop(s, Limited(cfgs[e.stream], s, e.ch).nb0)
  }

  lemma StartReady(cfgs: seq<Config>)
    ensures AllReady(cfgs, Start(|cfgs|).streams, [])
  {
  }

  lemma EventReady(cfgs: seq<Config>, before: seq<Event>, events: seq<Event>, e: Event, w: World, r: Stream)
    requires |cfgs| == |w.streams| && e.stream < |cfgs| && events == before + [e]
    requires AllReady(cfgs, w.streams, before)
    requires Ready(cfgs[e.stream], r, SeenAfter(e.call, SeenBy(before, e.stream)))
    ensures AllReady(cfgs, w.streams[e.stream := r], events)
  {
    assert events[..|events| - 1] == before;
    forall i | 0 <= i < |cfgs| ensures Ready(cfgs[i], w.streams[e.stream := r][i], SeenBy(events, i)) {
      assert Ready(cfgs[i], w.streams[i], SeenBy(before, i));
    }
  }

  /** What a run has counted. */
  predicate Counts(w: World, missing: nat, uncounted: nat, falseDrops: nat) {
    && w.totals.dup - Total(w.streams, RepeatsOf) - Total(w.streams, MismarkedIn) == missing + falseDrops
    && Total(w.streams, Surplus) == w.totals.dup - w.totals.drop - missing - uncounted
  }

  lemma EventCounts(cfgs: seq<Config>, w: World, e: Event,
                    missing: nat, uncounted: nat, falseDrops: nat, seen: set<int>)
      returns (missing': nat, uncounted': nat, falseDrops': nat)
    requires |cfgs| == |w.streams| && e.stream < |cfgs| && Counts(w, missing, uncounted, falseDrops)
    requires var cfg, s := cfgs[e.stream], w.streams[e.stream];
             Ready(cfg, s, seen) && Chosen(cfg, s, e.call, e.ch) && Unseen(e.call, seen)
    requires var exit := Do(cfgs[e.stream], w.streams[e.stream], w.totals, e.call, e.ch).exit;
             exit.Normal? || exit.NoPicture?
    ensures Counts(Apply(cfgs, w, e), missing', uncounted', falseDrops')
    ensures var cfg, s := cfgs[e.stream], w.streams[e.stream]; var l := Limited(cfg, s, e.ch);
            && (missing' == 0 <==> missing == 0 && !Unfed(cfg, s, e.call))
            && (uncounted' == 0 <==> uncounted == 0 && !Uncounted(cfg, s))
            && (falseDrops' == 0 <==> falseDrops == 0 && !FalseDrop(s, l.nb0))
    ensures Ready(cfgs[e.stream], Apply(cfgs, w, e).streams[e.stream], SeenAfter(e.call, seen))
  {
    var cfg, s := cfgs[e.stream], w.streams[e.stream];
    var l, r := Limited(cfg, s, e.ch), Do(cfg, s, w.totals, e.call, e.ch);
    CallCounts(cfg, s, w.totals, e.call, e.ch, seen);
    CallBalance(cfg, s, w.totals, e.call, e.ch);
    NoPictureIff(cfg, s, w.totals, e.call, e.ch);
    TotalUpdate(w.streams, e.stream, r.stream, Surplus);
    TotalUpdate(w.streams, e.stream, r.stream, RepeatsOf);
    TotalUpdate(w.streams, e.stream, r.stream, MismarkedIn);
    missing' := missing + Missing(cfg, s, e.call, l);
    uncounted' := uncounted + B(Uncounted(cfg, s));
    falseDrops' := falseDrops + B(FalseDrop(s, l.nb0));
  }

  lemma StartCounts(n: nat)
    ensures Counts(Start(n), 0, 0, 0)
  {
    TotalFresh(n, Surplus);
    TotalFresh(n, RepeatsOf);
    TotalFresh(n, MismarkedIn);
  }

  lemma LastExit(cfgs: seq<Config>, before: seq<Event>, events: seq<Event>, e: Event)
    requires events == before + [e] && Exec(cfgs, events).Some? && NoCutOff(Exec(cfgs, events).value.exits)
    ensures Exec(cfgs, before).Some? && e.stream < |cfgs| && NoCutOff(Exec(cfgs, before).value.exits)
    ensures var w := Exec(cfgs, before).value; var cfg, s := cfgs[e.stream], w.streams[e.stream];
            && Exec(cfgs, events).value == Apply(cfgs, w, e) && Chosen(cfg, s, e.call, e.ch)
            && var exit := Do(cfg, s, w.totals, e.call, e.ch).exit; exit.Normal? || exit.NoPicture?
  {
    assert events[..|events| - 1] == before;
    var w, w' := Exec(cfgs, before).value, Exec(cfgs, events).value;
    assert w.exits == w'.exits[..|w.exits|];
    assert w'.exits[|w.exits|] == Do(cfgs[e.stream], w.streams[e.stream], w.totals, e.call, e.ch).exit;
  }

  lemma {:induction false} RunCounts(cfgs: seq<Config>, events: seq<Event>)
      returns (missing: nat, uncounted: nat, falseDrops: nat)
    requires Exec(cfgs, events).Some? && NoCutOff(Exec(cfgs, events).value.exits) && AllNew(events)
    ensures var w := Exec(cfgs, events).value;
            AllReady(cfgs, w.streams, events) && Counts(w, missing, uncounted, falseDrops)
    ensures (missing == 0 <==> AllFed(cfgs, events)) && (uncounted == 0 <==> AllCounted(cfgs, events))
    ensures falseDrops == 0 <==> NoFalseDrop(cfgs, events)
  {
    if events == [] {
      missing, uncounted, falseDrops := 0, 0, 0;
      StartReady(cfgs);
      StartCounts(|cfgs|);
    } else {
      var before, e := events[..|events| - 1], events[|events| - 1];
      assert events == before + [e];
      LastExit(cfgs, before, events, e);
      missing, uncounted, falseDrops := RunCounts(cfgs, before);
      var w, seen := Exec(cfgs, before).value, SeenBy(before, e.stream);
      missing, uncounted, falseDrops := EventCounts(cfgs, w, e, missing, uncounted, falseDrops, seen);
      EventReady(cfgs, before, events, e, w, Apply(cfgs, w, e).streams[e.stream]);
    }
  }

  // ---- what the counters tell --------------------------------------------------------------------

  lemma {:induction false} ShownCancels(streams: seq<Stream>)
    ensures Total(streams, RepeatsOf) - Total(streams, UnshownBy)
         == Total(streams, EncodedBy) - Total(streams, ReceivedBy)
  {
    if streams != [] {
      ShownCancels(streams[..|streams| - 1]);
    }
  }

  lemma {:induction false} MismarkedTotal(streams: seq<Stream>)
    ensures Total(streams, MismarkedIn) >= 0
    ensures Total(streams, MismarkedIn) == 0 <==> forall i :: 0 <= i < |streams| ==> !Mismarked(streams[i])
  {
    if streams != [] {
      var before := streams[..|streams| - 1];
      MismarkedTotal(before);
      assert forall i :: 0 <= i < |before| ==> before[i] == streams[i];
    }
  }

  /** No picture that a frame shows was counted as dropped, or will be in the final report. */
  ghost predicate NoMiscount(cfgs: seq<Config>, events: seq<Event>)
    requires Exec(cfgs, events).Some?
  {
    && NoFalseDrop(cfgs, events)
    && forall i :: 0 <= i < |cfgs| ==> !Mismarked(Exec(cfgs, events).value.streams[i])
  }

  /**
    On every run without a cut-off, with new pictures only: the duplicates counted are the repeats shown,
    the frames missing and the pictures miscounted; the drops counted are the pictures not shown and the
    pictures miscounted, less those left uncounted.
   */
  lemma CountersTell(cfgs: seq<Config>, events: seq<Event>) returns (missing: nat, uncounted: nat, miscounted: nat)
    requires Exec(cfgs, events).Some? && NoCutOff(Exec(cfgs, events).value.exits) && AllNew(events)
    ensures var w := Exec(cfgs, events).value;
            && w.totals.dup == Total(w.streams, RepeatsOf) + missing + miscounted
            && FinalDrop(w) == Total(w.streams, UnshownBy) + miscounted - uncounted
    ensures (missing == 0 <==> AllFed(cfgs, events)) && (uncounted == 0 <==> AllCounted(cfgs, events))
    ensures miscounted == 0 <==> NoMiscount(cfgs, events)
  {
    var falseDrops;
    missing, uncounted, falseDrops := RunCounts(cfgs, events);
    var streams := Exec(cfgs, events).value.streams;
    SurplusSplits(streams);
    ShownCancels(streams);
    MismarkedTotal(streams);
    miscounted := falseDrops + Total(streams, MismarkedIn);
  }

  /** The duplicates counted are the repeats shown exactly when no flush was unfed and no picture was miscounted. */
  lemma DupsAreRepeatsIff(cfgs: seq<Config>, events: seq<Event>)
    requires Exec(cfgs, events).Some? && NoCutOff(Exec(cfgs, events).value.exits) && AllNew(events)
    ensures var w := Exec(cfgs, events).value;
            w.totals.dup == Total(w.streams, RepeatsOf) <==> AllFed(cfgs, events) && NoMiscount(cfgs, events)
  {
    var missing, uncounted, miscounted := CountersTell(cfgs, events);
  }

  /** With limits of at least 0, the drops counted are the pictures not shown exactly when none was miscounted. */
  lemma DropsAreUnshownIff(cfgs: seq<Config>, events: seq<Event>)
    requires Exec(cfgs, events).Some? && NoCutOff(Exec(cfgs, events).value.exits) && AllNew(events)
    requires AllCounted(cfgs, events)
    ensures var w := Exec(cfgs, events).value;
            FinalDrop(w) == Total(w.streams, UnshownBy) <==> NoMiscount(cfgs, events)
  {
    var missing, uncounted, miscounted := CountersTell(cfgs, events);
  }

  // ---- a picture that is miscounted --------------------------------------------------------------

  /** The first picture of a stream, late and short. */
  lemma LateStart(s: Stream, call: Call)
    requires s == Fresh() && call == Picture(7, 3.3, 0.0)
    ensures Chosen(PLAIN, s, call, Choice(3, 3, 0))
    ensures var r := Do(PLAIN, s, Totals(0, 0), call, Choice(3, 3, 0));
            && r.exit.Normal? && r.totals == Totals(3, 0) && r.stream.lastDropped && r.stream.received == 1
            && r.stream.encoded == [Sent(7, 0), Sent(7, 1), Sent(7, 2)]
  {
    var l := Choice(3, 3, 0);
    var m := Marked(Recorded(s, call, l), call, l);
    assert Encodable(PLAIN, m, Some(7), l, 2) == 3;
    assert Encodable(PLAIN, m, Some(7), l, 0) == 3;
    var frames := Frames(PLAIN, m, Some(7), l, 3);
    assert frames[..3] == frames == [Sent(7, 0), Sent(7, 1), Sent(7, 2)];
  }

  lemma OnePictureShown(s: Stream)
    requires s.encoded == [Sent(7, 0), Sent(7, 1), Sent(7, 2)] && s.received == 1
    ensures RepeatsOf(s) == 2 && UnshownBy(s) == 0
  {
    assert Sent(7, 0) in s.encoded;
    assert Shown(s.encoded) == {7};
  }

  /**
    A first picture that starts 3.3 frames late and has no duration is sent three times, which counts as
    three duplicates, and in the final report as a drop.
   */
  lemma FirstPictureMiscounted() returns (events: seq<Event>, w: World)
    ensures Exec([PLAIN], events) == Some(w) && NoCutOff(w.exits) && AllNew(events)
    ensures w.totals.dup == 3 && Total(w.streams, RepeatsOf) == 2
    ensures FinalDrop(w) == 1 && Total(w.streams, UnshownBy) == 0
  {
    var call, ch := Picture(7, 3.3, 0.0), Choice(3, 3, 0);
    LateStart(Fresh(), call);
    events, w := ExecOne([PLAIN], [], Start(1), Event(0, call, ch));
    assert events[..0] == [];
    OnePictureShown(w.streams[0]);
    TotalOfOne(w.streams, RepeatsOf);
    TotalOfOne(w.streams, UnshownBy);
    TotalOfOne(w.streams, HeldBy);
  }

  lemma TotalOfOne(streams: seq<Stream>, f: Stream -> int)
    requires |streams| == 1
    ensures Total(streams, f) == f(streams[0])
  {
    assert streams[..0] == [];
  }
}
