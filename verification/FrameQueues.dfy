/**
  ffplay's frame queue: a ring of slots shared by one producer and one consumer, which move their own
  index without the lock and only change size under it.
 */
module FrameQueues {
  import opened Options

  /** A slot holds a frame, or nothing that may be read. */
  datatype Slot = Empty | Full(frame: int)

  /** The fields of FrameQueue; rindexShown is 0 or 1. */
  datatype Ring = Ring(
    slots: seq<Slot>, rindex: nat, windex: nat, size: int, maxSize: nat, keepLast: bool, rindexShown: nat)

  // ---- the statements of frame_queue_push and frame_queue_next -------------------------------------

  function Stored(slots: seq<Slot>, i: nat, v: Slot): (t: seq<Slot>)
    ensures |t| == |slots|
  {
    if i < |slots| then slots[i := v] else slots
  }

  function Loaded(slots: seq<Slot>, i: nat): Slot {
    if i < |slots| then slots[i] else Empty
  }

  function IncW(r: Ring): Ring {
    r.(windex := r.windex + 1)
  }

  function WrapW(r: Ring): Ring {
    if r.windex == r.maxSize then r.(windex := 0) else r
  }

  function Grow(r: Ring): Ring {
    r.(size := r.size + 1)
  }

  function Unref(r: Ring): Ring {
    r.(slots := Stored(r.slots, r.rindex, Empty))
  }

  function IncR(r: Ring): Ring {
    r.(rindex := r.rindex + 1)
  }

  function WrapR(r: Ring): Ring {
    if r.rindex == r.maxSize then r.(rindex := 0) else r
  }

  function Shrink(r: Ring): Ring {
    r.(size := r.size - 1)
  }

  /** frame_queue_next only marks the first frame as shown when the last one is kept. */
  predicate OnlyMarks(r: Ring) {
    r.keepLast && r.rindexShown == 0
  }

  function Remaining(r: Ring): int {
    r.size - r.rindexShown
  }

  /** The index i places after a start, around a ring of n. */
  function Around(start: nat, i: nat, n: nat): nat {
    if start + i < n then start + i else if start + i < 2 * n then start + i - n else 0
  }

  lemma AroundMod(start: nat, i: nat, n: nat, sum: nat)
    requires start < n && i < n && sum == start + i
    ensures sum % n == Around(start, i, n) < n
  {
    if sum < n {
      ModSmall(sum, n);
    } else {
      var rest: nat := sum - n;
      ModOnce(sum, rest, n);
    }
  }

  lemma ModSmall(sum: nat, n: nat)
    requires sum < n
    ensures sum % n == sum
  {
  }

  lemma ModOnce(sum: nat, rest: nat, n: nat)
    requires sum == n + rest && rest < n
    ensures sum % n == rest
  {
  }

  /** The slots around a ring of n, from a start on. */
  function InRing(slots: seq<Slot>, start: nat, size: nat, n: nat): (s: seq<Slot>)
    ensures |s| == size
  {
    seq(size, i requires 0 <= i < size => Loaded(slots, Around(start, i, n)))
  }

  /** Without its first slot the contents begin one place on. */
  lemma RingDrops(slots: seq<Slot>, start: nat, next: nat, size: nat, n: nat)
    requires start < n == |slots| && 0 < size <= n && next == (if start + 1 == n then 0 else start + 1)
    ensures InRing(slots[start := Empty], next, size - 1, n) == InRing(slots, start, size, n)[1..]
  {
    var after, rest := InRing(slots[start := Empty], next, size - 1, n), InRing(slots, start, size, n)[1..];
    forall i | 0 <= i < size - 1 ensures after[i] == rest[i] {
      assert Around(next, i, n) == Around(start, i + 1, n) != start;
    }
  }

  class FrameQueue {
    var queue: array<Slot>
    var rindex: nat
    var windex: nat
    var size: int
    var max_size: nat
    var keep_last: bool
    var rindex_shown: nat

    ghost function View(): Ring
      reads this, queue
    {
      Ring(queue[..], rindex, windex, size, max_size, keep_last, rindex_shown)
    }

    /** Between calls: the frames lie around the ring from rindex on, and end at windex. */
    ghost predicate Valid()
      reads this
    {
      && 0 < max_size == queue.Length && rindex < max_size && 0 <= size <= max_size
      && windex == Around(rindex, size, max_size)
      && rindex_shown <= 1 && rindex_shown <= size && (rindex_shown == 1 ==> keep_last)
    }

    /** The frames in the queue, the kept last one included, from the oldest on. */
    ghost function Contents(): (s: seq<Slot>)
      requires Valid()
      reads this, queue
      ensures |s| == size
    {
      InRing(queue[..], rindex, size, max_size)
    }

    constructor (maxSize: nat, keepLast: bool)
      requires maxSize > 0
      ensures Valid() && Contents() == [] && max_size == maxSize && keep_last == keepLast && rindex_shown == 0
      ensures View() == Ring(seq(maxSize, _ => Empty), 0, 0, 0, maxSize, keepLast, 0)
      ensures fresh(queue)
    {
      queue := new Slot[maxSize](_ => Empty);
      rindex, windex, size, rindex_shown := 0, 0, 0, 0;
      max_size, keep_last := maxSize, keepLast;
    }

    /** frame_queue_nb_remaining: the frames that have not been shown. */
    method NbRemaining() returns (n: int)
      requires Valid()
      ensures n == |Contents()| - rindex_shown >= 0
    {
      n := size - rindex_shown;
    }

    /** frame_queue_peek: the first frame that has not been shown. */
    method Peek() returns (frame: Slot)
      requires Valid() && rindex_shown < size
      ensures frame == Contents()[rindex_shown]
    {
      AroundMod(rindex, rindex_shown, max_size, rindex + rindex_shown);
      frame := queue[(rindex + rindex_shown) % max_size];
    }

    /** frame_queue_peek_next: the one after it. */
    method PeekNext() returns (frame: Slot)
      requires Valid() && rindex_shown + 1 < size
      ensures frame == Contents()[rindex_shown + 1]
    {
      AroundMod(rindex, rindex_shown + 1, max_size, rindex + rindex_shown + 1);
      frame := queue[(rindex + rindex_shown + 1) % max_size];
    }

    /** frame_queue_peek_last: the frame shown last, if there is one that is kept. */
    method PeekLast() returns (frame: Slot)
      requires Valid() && size > 0
      ensures frame == Contents()[0]
    {
      frame := queue[rindex];
    }

    /** The slot that frame_queue_peek_writable hands out is filled; the frames in the queue are not touched. */
    method Write(frame: Slot)
      requires Valid() && size < max_size
      modifies queue
      ensures Valid() && Contents() == old(Contents()) && queue[windex] == frame
      ensures forall i :: 0 <= i < queue.Length && i != windex ==> queue[i] == old(queue[i])
    {
      queue[windex] := frame;
    }

    /** The frame in the writable slot joins the queue behind the others. */
    method Push()
      requires Valid() && size < max_size
      modifies this
      ensures Valid() && Contents() == old(Contents()) + [old(queue[windex])]
      ensures rindex_shown == old(rindex_shown)
      ensures queue == old(queue) && View() == Grow(WrapW(IncW(old(View()))))
    {
      windex := windex + 1;
      if windex == max_size {
        windex := 0;
      }
      size := size + 1;
    }

    /** Either the first frame is marked as shown, and kept, or the oldest frame leaves the queue. */
    method Next()
      requires Valid() && rindex_shown < size
      modifies this, queue
      ensures Valid() && queue == old(queue)
      ensures if old(keep_last && rindex_shown == 0) then Contents() == old(Contents()) && rindex_shown == 1
              else Contents() == old(Contents())[1..] && rindex_shown == old(rindex_shown)
      ensures View() == if OnlyMarks(old(View())) then old(View()).(rindexShown := 1)
                        else Shrink(WrapR(IncR(Unref(old(View())))))
    {
      if keep_last && rindex_shown == 0 {
        rindex_shown := 1;
        return;
      }
      RingDrops(queue[..], rindex, if rindex + 1 == max_size then 0 else rindex + 1, size, max_size);
      queue[rindex] := Empty;
      assert queue[..] == old(queue[..])[rindex := Empty];
      rindex := rindex + 1;
      if rindex == max_size {
        rindex := 0;
      }
      size := size - 1;
    }
  }

  // ---- two threads ---------------------------------------------------------------------------------

  /** Where the producer is between frame_queue_peek_writable and the end of frame_queue_push. */
  datatype Producer = PIdle | Writing | PushInc(slot: nat) | PushWrapped(slot: nat)

  /** Where the consumer is inside frame_queue_next. */
  datatype Consumer = CIdle | NextUnref | NextInc | NextWrapped

  /** pushed and taken record the slot contents in the order of the pushes and of the calls of frame_queue_next. */
  datatype State = State(ring: Ring, p: Producer, c: Consumer, pushed: seq<Slot>, taken: seq<Slot>)

  datatype Step =
    | PeekWritable | WriteSlot(frame: int) | GiveUp | PushIncrement | PushWrap | PushGrow
    | NextBegin | NextIncrement | NextWrap | NextShrink

  function Initial(maxSize: nat, keepLast: bool): State {
    State(Ring(seq(maxSize, _ => Empty), 0, 0, 0, maxSize, keepLast, 0), PIdle, CIdle, [], [])
  }

  /** The index from which frame_queue_peek reads. */
  function PeekIndex(r: Ring): nat
    requires r.maxSize > 0
  {
    (r.rindex + r.rindexShown) % r.maxSize
  }

  /** The index from which frame_queue_peek_next reads. */
  function PeekNextIndex(r: Ring): nat
    requires r.maxSize > 0
  {
    (r.rindex + r.rindexShown + 1) % r.maxSize
  }

  /** frame_queue_next is called only while frames remain; the producer waits for a free slot. */
  predicate Enabled(s: State, step: Step) {
    s.ring.maxSize > 0 &&
    match step
    case PeekWritable => s.p.PIdle? && s.ring.size < s.ring.maxSize
    case WriteSlot(_) => s.p.Writing?
    case GiveUp => s.p.Writing?
    case PushIncrement => s.p.Writing?
    case PushWrap => s.p.PushInc?
    case PushGrow => s.p.PushWrapped?
    case NextBegin => s.c.CIdle? && Remaining(s.ring) > 0
    case NextIncrement => s.c.NextUnref?
    case NextWrap => s.c.NextInc?
    case NextShrink => s.c.NextWrapped?
  }

  function Do(s: State, step: Step): State
    requires Enabled(s, step)
  {
    match step
    case PeekWritable => s.(p := Writing)
    case WriteSlot(frame) => s.(ring := s.ring.(slots := Stored(s.ring.slots, s.ring.windex, Full(frame))))
    case GiveUp => s.(p := PIdle)
    case PushIncrement => s.(p := PushInc(s.ring.windex), ring := IncW(s.ring))
    case PushWrap => s.(p := PushWrapped(s.p.slot), ring := WrapW(s.ring))
    case PushGrow => s.(p := PIdle, ring := Grow(s.ring), pushed := s.pushed + [Loaded(s.ring.slots, s.p.slot)])
    case NextBegin =>
      var t := s.(taken := s.taken + [Loaded(s.ring.slots, PeekIndex(s.ring))]);
      if OnlyMarks(s.ring) then t.(ring := s.ring.(rindexShown := 1)) else t.(c := NextUnref, ring := Unref(s.ring))
    case NextIncrement => s.(c := NextInc, ring := IncR(s.ring))
    case NextWrap => s.(c := NextWrapped, ring := WrapR(s.ring))
    case NextShrink => s.(c := CIdle, ring := Shrink(s.ring))
  }

  function Exec(s: State, steps: seq<Step>): Option<State> {
    if steps == [] then Some(s)
    else
      var before := Exec(s, steps[..|steps| - 1]);
      if before.None? || !Enabled(before.value, steps[|steps| - 1]) then None
      else Some(Do(before.value, steps[|steps| - 1]))
  }

  // ---- arithmetic of the ring ----------------------------------------------------------------------

  /** The slot of frame number k. */
  function At(k: nat, n: nat): (i: nat)
    requires n > 0
    ensures i < n
  {
    k % n
  }

  function Next(i: nat, n: nat): nat {
    if i + 1 == n then 0 else i + 1
  }

  lemma Multiples(n: nat, d: int)
    ensures d >= 1 ==> n * d >= n
    ensures d <= -1 ==> n * d <= 0 - n
  {
  }

  lemma ModUnique(k: nat, n: nat, q: nat, r: nat)
    requires n > 0 && k == q * n + r && r < n
    ensures k % n == r
  {
    var d := k / n - q;
    assert n * d == r - k % n;
    Multiples(n, d);
  }

  lemma AtNext(k: nat, k': nat, n: nat)
    requires n > 0 && k' == k + 1
    ensures At(k', n) == Next(At(k, n), n)
  {
    var q, r := k / n, k % n;
    assert k == q * n + r;
    if r + 1 == n {
      assert (q + 1) * n == q * n + n;
      ModUnique(k', n, q + 1, 0);
    } else {
      ModUnique(k', n, q, r + 1);
    }
  }

  /** Fewer than n frames in a row occupy different slots. */
  lemma AtDistinct(j: nat, k: nat, n: nat)
    requires n > 0 && j < k < j + n
    ensures At(j, n) != At(k, n)
  {
    var d := k / n - j / n;
    assert n * d == (k - k % n) - (j - j % n);
    Multiples(n, d);
  }

  /** frame_queue_peek's index, counted from the slot of frame number k. */
  lemma {:induction false} AtPlus(k: nat, m: nat, n: nat, k': nat)
    requires n > 0 && k' == k + m
    ensures (At(k, n) + m) % n == At(k', n)
    decreases m
  {
    var q, r := k / n, k % n;
    assert k == q * n + r;
    var q', r' := (r + m) / n, (r + m) % n;
    assert r + m == q' * n + r';
    assert (q + q') * n == q * n + q' * n;
    ModUnique(k', n, q + q', r');
  }

  // ---- the invariant -------------------------------------------------------------------------------

  /** The frames that have been unreferenced. */
  function Released(s: State): int {
    |s.taken| - s.ring.rindexShown
  }

  function InNext(c: Consumer): int {
    if c.CIdle? then 0 else 1
  }

  predicate ReadIndexOk(s: State)
    requires s.ring.maxSize > 0 && Released(s) >= InNext(s.c)
  {
    var n, k := s.ring.maxSize, Released(s);
    match s.c
    case CIdle => s.ring.rindex == At(k, n)
    case NextUnref => s.ring.rindex == At(k - 1, n)
    case NextInc => s.ring.rindex == At(k - 1, n) + 1
    case NextWrapped => s.ring.rindex == At(k, n)
  }

  predicate WriteIndexOk(s: State)
    requires s.ring.maxSize > 0
  {
    var n, k := s.ring.maxSize, |s.pushed|;
    match s.p
    case PIdle => s.ring.windex == At(k, n)
    case Writing => s.ring.windex == At(k, n)
    case PushInc(slot) => slot == At(k, n) && s.ring.windex == slot + 1
    case PushWrapped(slot) => slot == At(k, n) && s.ring.windex == At(k + 1, n)
  }

  /** Every pushed frame that is not released sits in its slot. */
  ghost predicate Stocked(s: State)
    requires s.ring.maxSize > 0
  {
    forall k :: 0 <= k && Released(s) <= k < |s.pushed| ==> Loaded(s.ring.slots, At(k, s.ring.maxSize)) == s.pushed[k]
  }

  ghost predicate Inv(s: State) {
    var r := s.ring;
    && r.maxSize > 0 && |r.slots| == r.maxSize && r.rindexShown <= 1 && (!r.keepLast ==> r.rindexShown == 0)
    && Released(s) >= InNext(s.c)
    && r.size == |s.pushed| - Released(s) + InNext(s.c)
    && 0 <= r.rindexShown <= |s.pushed| - Released(s)
    && r.size <= r.maxSize && (!s.p.PIdle? ==> r.size < r.maxSize)
    && (!s.c.CIdle? ==> !OnlyMarks(r)) && (r.keepLast && s.taken != [] ==> r.rindexShown == 1)
    && ReadIndexOk(s) && WriteIndexOk(s) && Stocked(s)
    && s.taken <= s.pushed
  }

  lemma InitialInv(maxSize: nat, keepLast: bool)
    requires maxSize > 0
    ensures Inv(Initial(maxSize, keepLast))
  {
  }

  lemma PushIndexKeepsInv(s: State, step: Step)
    requires Inv(s) && Enabled(s, step)
    requires step.PeekWritable? || step.GiveUp? || step.PushIncrement? || step.PushWrap?
    ensures Inv(Do(s, step))
  {
    var n, k := s.ring.maxSize, |s.pushed|;
    AtNext(k, k + 1, n);
  }

  /** The frame that joins is the one in the slot the push began with. */
  lemma PushGrowStocks(s: State, t: State)
    requires s.ring.maxSize > 0 && Stocked(s) && WriteIndexOk(s) && s.p.PushWrapped?
    requires Enabled(s, PushGrow) && t == Do(s, PushGrow)
    ensures Stocked(t)
  {
    var n, k := s.ring.maxSize, |s.pushed|;
    forall j | 0 <= j && Released(t) <= j < |t.pushed|
      ensures Loaded(t.ring.slots, At(j, n)) == t.pushed[j]
    {
      if j < k {
        assert Loaded(s.ring.slots, At(j, n)) == s.pushed[j];
      }
    }
  }

  lemma PushGrowKeepsInv(s: State, step: Step)
    requires Inv(s) && Enabled(s, step) && step.PushGrow?
    ensures Inv(Do(s, step))
  {
    var t := Do(s, step);
    PushGrowStocks(s, t);
    assert |t.pushed| == |s.pushed| + 1 && Released(t) == Released(s);
  }

  /** Writing goes to the slot of the next frame, where no unreleased frame sits. */
  lemma WriteKeepsInv(s: State, step: Step)
    requires Inv(s) && Enabled(s, step) && step.WriteSlot?
    ensures Inv(Do(s, step))
  {
    var n, k := s.ring.maxSize, |s.pushed|;
    forall j | 0 <= j && Released(s) <= j < k
      ensures At(j, n) != At(k, n)
    {
      AtDistinct(j, k, n);
    }
  }

  lemma NextBeginKeepsInv(s: State, step: Step)
    requires Inv(s) && Enabled(s, step) && step.NextBegin?
    ensures Inv(Do(s, step))
    ensures |Do(s, step).taken| == |s.taken| + 1
  {
    var n, k, t := s.ring.maxSize, Released(s), Do(s, step);
    AtPlus(k, s.ring.rindexShown, n, |s.taken|);
    assert Loaded(s.ring.slots, At(|s.taken|, n)) == s.pushed[|s.taken|];
    forall j | 0 <= j && Released(t) <= j < |t.pushed|
      ensures Loaded(t.ring.slots, At(j, n)) == t.pushed[j]
    {
      assert Loaded(s.ring.slots, At(j, n)) == s.pushed[j];
      if !OnlyMarks(s.ring) {
        AtDistinct(k, j, n);
      }
    }
  }

  lemma NextRestKeepsInv(s: State, step: Step)
    requires Inv(s) && Enabled(s, step) && (step.NextIncrement? || step.NextWrap? || step.NextShrink?)
    ensures Inv(Do(s, step))
  {
    var n, k := s.ring.maxSize, Released(s);
    AtNext(k - 1, k, n);
    assert forall j :: 0 <= j && Released(s) <= j < |s.pushed| ==> Loaded(s.ring.slots, At(j, n)) == s.pushed[j];
  }

  lemma StepKeepsInv(s: State, step: Step)
    requires Inv(s) && Enabled(s, step)
    ensures Inv(Do(s, step))
  {
    match step
    case WriteSlot(_) => WriteKeepsInv(s, step);
    case NextBegin => NextBeginKeepsInv(s, step);
    case NextIncrement => NextRestKeepsInv(s, step);
    case NextWrap => NextRestKeepsInv(s, step);
    case NextShrink => NextRestKeepsInv(s, step);
    case PushGrow => PushGrowKeepsInv(s, step);
    case _ => PushIndexKeepsInv(s, step);
  }

  lemma {:induction false} Reachable(maxSize: nat, keepLast: bool, steps: seq<Step>)
    requires maxSize > 0 && Exec(Initial(maxSize, keepLast), steps).Some?
    ensures Inv(Exec(Initial(maxSize, keepLast), steps).value)
  {
    if steps == [] {
      InitialInv(maxSize, keepLast);
    } else {
      var before := steps[..|steps| - 1];
      Reachable(maxSize, keepLast, before);
      StepKeepsInv(Exec(Initial(maxSize, keepLast), before).value, steps[|steps| - 1]);
    }
  }

  // ---- what the invariant gives --------------------------------------------------------------------

  /** The slots the consumer may read: the kept last frame, and the frames still to be shown. */
  ghost predicate MayRead(s: State, i: nat)
    requires s.ring.maxSize > 0
  {
    exists k: nat :: Released(s) <= k < |s.pushed| && i == At(k, s.ring.maxSize)
  }

  /** A push that has moved windex and not yet size. */
  function PushUnderWay(p: Producer): int {
    if p.PushInc? || p.PushWrapped? then 1 else 0
  }

  /** A call of frame_queue_next that has moved rindex and not yet size. */
  function NextUnderWay(c: Consumer): int {
    if c.NextInc? || c.NextWrapped? then 1 else 0
  }

  /**
    The two indices agree with size up to the steps under way; an index leaves the ring only between
    its increment and its wrap.
   */
  predicate IndicesAgree(s: State)
    requires s.ring.maxSize > 0
  {
    var r := s.ring;
    && r.windex % r.maxSize == (r.rindex + r.size + PushUnderWay(s.p) - NextUnderWay(s.c)) % r.maxSize
    && (if s.p.PushInc? then r.windex <= r.maxSize else r.windex < r.maxSize)
    && (if s.c.NextInc? then r.rindex <= r.maxSize else r.rindex < r.maxSize)
  }

  /** The read index and the size lead to the slot of the next frame to be pushed. */
  lemma ReadSide(s: State, extra: nat)
    requires Inv(s)
    ensures var n := s.ring.maxSize;
            (s.ring.rindex + s.ring.size + extra - NextUnderWay(s.c)) % n == At(|s.pushed| + extra, n)
  {
    var n, r, k := s.ring.maxSize, Released(s), |s.pushed| + extra;
    var from: nat := if s.c.NextUnref? || s.c.NextInc? then r - 1 else r;
    var m: nat := s.ring.size + extra - if s.c.NextWrapped? then 1 else 0;
    AtPlus(from, m, n, k);
    assert s.ring.rindex + s.ring.size + extra - NextUnderWay(s.c) == At(from, n) + m;
  }

  lemma IndicesAgreeAlways(s: State)
    requires Inv(s)
    ensures IndicesAgree(s)
  {
    var n, k := s.ring.maxSize, |s.pushed|;
    ReadSide(s, PushUnderWay(s.p));
    if s.p.PushInc? {
      AtPlus(k, 1, n, k + 1);
    } else if s.p.PushWrapped? {
      AtPlus(k + 1, 0, n, k + 1);
    } else {
      AtPlus(k, 0, n, k);
    }
  }

  /** The slot being written holds no frame that may be read. */
  lemma WritableUnread(s: State)
    requires Inv(s) && s.p.Writing?
    ensures !MayRead(s, s.ring.windex)
  {
    var n, k := s.ring.maxSize, |s.pushed|;
    forall j: nat | Released(s) <= j < k
      ensures At(j, n) != At(k, n)
    {
      AtDistinct(j, k, n);
    }
  }

  /** The three ways to peek read frames that are there. */
  lemma PeeksMayRead(s: State)
    requires Inv(s) && s.c.CIdle?
    ensures s.ring.size > 0 ==> MayRead(s, s.ring.rindex)
    ensures Remaining(s.ring) > 0 ==> MayRead(s, PeekIndex(s.ring))
    ensures Remaining(s.ring) > 1 ==> MayRead(s, PeekNextIndex(s.ring))
  {
    var n, r, shown, next := s.ring.maxSize, Released(s), s.ring.rindexShown, |s.taken| + 1;
    AtPlus(r, shown, n, |s.taken|);
    AtPlus(r, shown + 1, n, next);
    assert Remaining(s.ring) > 1 ==> PeekNextIndex(s.ring) == At(next, n);
  }

  /** Safety of the ring over every interleaving of one producer and one consumer. */
  lemma RingSafety(maxSize: nat, keepLast: bool, steps: seq<Step>, s: State)
    requires maxSize > 0 && Exec(Initial(maxSize, keepLast), steps) == Some(s)
    ensures s.ring.maxSize > 0 && |s.ring.slots| == s.ring.maxSize
    ensures s.ring.rindexShown <= s.ring.size <= s.ring.maxSize
    ensures s.p.Writing? ==> s.ring.windex < |s.ring.slots| && !MayRead(s, s.ring.windex)
    ensures s.c.CIdle? && s.ring.size > 0 ==> MayRead(s, s.ring.rindex)
    ensures s.c.CIdle? && Remaining(s.ring) > 0 ==> MayRead(s, PeekIndex(s.ring))
    ensures s.c.CIdle? && Remaining(s.ring) > 1 ==> MayRead(s, PeekNextIndex(s.ring))
    ensures s.taken <= s.pushed
    ensures IndicesAgree(s)
  {
    Reachable(maxSize, keepLast, steps);
    if s.p.Writing? {
      WritableUnread(s);
    }
    if s.c.CIdle? {
      PeeksMayRead(s);
    }
    IndicesAgreeAlways(s);
  }

  /** With keep_last the frame just passed by frame_queue_next stays readable as the last shown one. */
  lemma LastShownKept(maxSize: nat, keepLast: bool, steps: seq<Step>, s: State)
    requires maxSize > 0 && keepLast && Exec(Initial(maxSize, keepLast), steps) == Some(s)
    ensures s.c.CIdle? && s.taken != [] ==>
              s.ring.rindexShown == 1 && Loaded(s.ring.slots, s.ring.rindex) == s.taken[|s.taken| - 1]
  {
    Reachable(maxSize, keepLast, steps);
    KeepLastFixed(Initial(maxSize, keepLast), steps);
    if s.c.CIdle? && s.taken != [] {
      var k := Released(s);
      assert Loaded(s.ring.slots, At(k, s.ring.maxSize)) == s.pushed[k];
    }
  }

  lemma {:induction false} KeepLastFixed(s: State, steps: seq<Step>)
    requires Exec(s, steps).Some?
    ensures Exec(s, steps).value.ring.keepLast == s.ring.keepLast
  {
    if steps != [] {
      KeepLastFixed(s, steps[..|steps| - 1]);
    }
  }
}
