/**
  The bitstream-filter pump of output_packet: one loop moves an index up and down a chain of filters,
  taking a packet from the filter before the index and sending it to the filter at the index.

  A filter is any transducer that answers each input with finitely many packets, which may depend on
  all its inputs so far. The reference composes the filters as functions on whole input sequences.
 */
module FilterPump {
  import opened Options

  datatype Packet = Packet(data: seq<int>)

  /** What a filter is sent: a packet, or the null packet that ends the stream. */
  datatype Input = Data(pkt: Packet) | End

  type Emit = (seq<Input>, Input) -> seq<Packet>

  /** A filter context: its inputs so far, and the packets it has not handed out yet. */
  datatype Filter = Filter(emit: Emit, inputs: seq<Input>, pending: seq<Packet>)

  datatype Received = Got(pkt: Packet) | Again | Eof

  predicate Ended(s: seq<Input>) {
    s != [] && s[|s| - 1].End?
  }

  // ---- the interface of a filter ---------------------------------------------------------------

  /** Taking one more input. */
  function Send(f: Filter, x: Input): Filter
    requires f.pending == [] && !Ended(f.inputs)
  {
    Filter(f.emit, f.inputs + [x], f.emit(f.inputs, x))
  }

  /** av_bsf_send_packet to a drained filter: after the end it refuses packets, and the end may be repeated. */
  function Offer(f: Filter, x: Input): Option<Filter>
    requires f.pending == []
  {
    if !Ended(f.inputs) then Some(Send(f, x)) else if x.End? then Some(f) else None
  }

  /** av_bsf_receive_packet. */
  function Receive(f: Filter): Received {
    if f.pending != [] then Got(f.pending[0]) else if Ended(f.inputs) then Eof else Again
  }

  function Taken(f: Filter): Filter {
    if f.pending != [] then f.(pending := f.pending[1..]) else f
  }

  // ---- the reference ---------------------------------------------------------------------------

  function Marks(pkts: seq<Packet>): seq<Input> {
    seq(|pkts|, i requires 0 <= i < |pkts| => Data(pkts[i]))
  }

  /** What one input makes a filter pass on. */
  function LiftOne(emit: Emit, before: seq<Input>, x: Input): seq<Input> {
    Marks(emit(before, x)) + if x.End? then [End] else []
  }

  /** What a sequence of inputs makes a filter pass on. */
  function Lift(emit: Emit, s: seq<Input>): seq<Input> {
    if s == [] then [] else Lift(emit, s[..|s| - 1]) + LiftOne(emit, s[..|s| - 1], s[|s| - 1])
  }

  /** The filters one after the other. */
  function Through(emits: seq<Emit>, s: seq<Input>): seq<Input> {
    if emits == [] then s else Lift(emits[|emits| - 1], Through(emits[..|emits| - 1], s))
  }

  lemma LiftSnoc(emit: Emit, s: seq<Input>, x: Input)
    ensures Lift(emit, s + [x]) == Lift(emit, s) + LiftOne(emit, s, x)
  {
    assert (s + [x])[..|s|] == s;
  }

  /** More input gives more output, and takes nothing back. */
  lemma {:induction false} LiftPrefix(emit: Emit, a: seq<Input>, b: seq<Input>)
    requires a <= b
    ensures Lift(emit, a) <= Lift(emit, b)
    decreases |b|
  {
    if a != b {
      LiftPrefix(emit, a, b[..|b| - 1]);
    }
  }

  // ---- the chain -------------------------------------------------------------------------------

  /** The filters, and what has come out of the last one. */
  datatype Chain = Chain(fs: seq<Filter>, out: seq<Input>)

  function Emits(fs: seq<Filter>): seq<Emit> {
    seq(|fs|, i requires 0 <= i < |fs| => fs[i].emit)
  }

  /** What has gone into position k; the last position is the muxer. */
  function Into(c: Chain, k: nat): seq<Input>
    requires k <= |c.fs|
  {
    if k < |c.fs| then c.fs[k].inputs else c.out
  }

  /** What filter k has produced and position k + 1 has not been sent. */
  function Rest(c: Chain, k: nat): seq<Input>
    requires k < |c.fs|
  {
    var next := k + 1;
    Marks(c.fs[k].pending) + if Ended(c.fs[k].inputs) && !Ended(Into(c, next)) then [End] else []
  }

  /** Nothing is lost, repeated or reordered between filter k and position k + 1. */
  predicate Link(c: Chain, k: nat)
    requires k < |c.fs|
  {
    var next := k + 1;
    && Lift(c.fs[k].emit, c.fs[k].inputs) == Into(c, next) + Rest(c, k)
    && (Ended(Into(c, next)) ==> c.fs[k].pending == [] && Ended(c.fs[k].inputs))
  }

  predicate Linked(c: Chain) {
    forall k: nat | k < |c.fs| :: Link(c, k)
  }

  /** Position k has nothing to hand out and has not seen the end. */
  predicate Clear(c: Chain, k: nat)
    requires k <= |c.fs|
  {
    !Ended(Into(c, k)) && (k < |c.fs| ==> c.fs[k].pending == [])
  }

  predicate Drained(c: Chain, idx: nat) {
    forall k: nat | idx <= k <= |c.fs| :: Clear(c, k)
  }

  predicate Inv(c: Chain, idx: nat) {
    idx <= |c.fs| && Linked(c) && Drained(c, idx)
  }

  /** Sending x to position k. */
  function Sent(c: Chain, k: nat, x: Input): Chain
    requires k <= |c.fs|
    requires k < |c.fs| ==> c.fs[k].pending == [] && !Ended(c.fs[k].inputs)
  {
    if k < |c.fs| then c.(fs := c.fs[k := Send(c.fs[k], x)]) else c.(out := c.out + [x])
  }

  function Item(f: Filter): Input
    requires !Receive(f).Again?
  {
    if Receive(f).Got? then Data(Receive(f).pkt) else End
  }

  /** One trip of the loop that moves something: the next item of filter k goes to position k + 1. */
  function Moved(c: Chain, k: nat): Chain
    requires k < |c.fs| && Clear(c, k + 1) && !Receive(c.fs[k]).Again?
  {
    var taken, next := c.(fs := c.fs[k := Taken(c.fs[k])]), k + 1;
    Sent(taken, next, Item(c.fs[k]))
  }

  lemma MovedAt(c: Chain, k: nat, next: nat)
    requires k < |c.fs| && next == k + 1 && Clear(c, next) && !Receive(c.fs[k]).Again?
    ensures var c' := Moved(c, k);
            && |c'.fs| == |c.fs| && Emits(c'.fs) == Emits(c.fs)
            && c'.fs[k] == Taken(c.fs[k])
            && Into(c', next) == Into(c, next) + [Item(c.fs[k])]
            && (next < |c.fs| ==> c'.fs[next] == Send(c.fs[next], Item(c.fs[k])))
            && (forall j: nat | j < |c.fs| && j != k && j != next :: c'.fs[j] == c.fs[j])
            && (next < |c.fs| ==> c'.out == c.out)
  {
  }

  /** Position k + 1 gets the first of what it has not been sent. */
  lemma RestShrinks(c: Chain, k: nat, next: nat)
    requires k < |c.fs| && next == k + 1 && Clear(c, next) && !Receive(c.fs[k]).Again? && Link(c, k)
    ensures Link(Moved(c, k), k)
  {
    MovedAt(c, k, next);
    var c', f := Moved(c, k), c.fs[k];
    FirstMark(f.pending);
    assert Rest(c, k) == [Item(f)] + Rest(c', k);
    assert Into(c, next) + Rest(c, k) == Into(c', next) + Rest(c', k);
  }

  lemma FirstMark(pending: seq<Packet>)
    ensures if pending == [] then Marks(pending) == [] else Marks(pending) == [Data(pending[0])] + Marks(pending[1..])
  {
  }

  /** Filter k + 1 answers what it is sent. */
  lemma RestGrows(c: Chain, k: nat, next: nat, after: nat)
    requires next == k + 1 && after == next + 1 && next < |c.fs|
    requires Clear(c, next) && !Receive(c.fs[k]).Again? && Link(c, next)
    ensures Link(Moved(c, k), next)
  {
    MovedAt(c, k, next);
    var c', f := Moved(c, k), c.fs[next];
    assert Marks([]) == [];
    LiftSnoc(f.emit, f.inputs, Item(c.fs[k]));
  }

  /** Taking from filter idx - 1 moves the index down the chain and keeps the invariant. */
  lemma MoveKeepsInv(c: Chain, k: nat, next: nat, after: nat)
    requires next == k + 1 && after == next + 1 && k < |c.fs|
    requires Inv(c, next) && !Receive(c.fs[k]).Again? && Clear(c, next)
    ensures Linked(Moved(c, k))
    ensures next < |c.fs| ==> Inv(Moved(c, k), after)
    ensures next == |c.fs| && Receive(c.fs[k]).Got? ==> Inv(Moved(c, k), next)
  {
    MovedAt(c, k, next);
    var c' := Moved(c, k);
    RestShrinks(c, k, next);
    if next < |c.fs| {
      RestGrows(c, k, next, after);
    }
    forall j: nat | j < |c.fs| ensures Link(c', j) {
      if j != k && j != next {
        LinkElsewhere(c, j, k, next);
      }
    }
    forall j: nat | next < j <= |c.fs| ensures Clear(c', j) {
      assert Clear(c, j);
    }
  }

  lemma LinkElsewhere(c: Chain, j: nat, k: nat, next: nat)
    requires next == k + 1 && k < |c.fs| && j < |c.fs| && j != k && j != next
    requires Clear(c, next) && !Receive(c.fs[k]).Again? && Link(c, j)
    ensures Link(Moved(c, k), j)
  {
    MovedAt(c, k, next);
    assert Into(Moved(c, k), j + 1) == Into(c, j + 1);
  }

  /** A drained filter that wants input moves the index up. */
  lemma AgainKeepsInv(c: Chain, k: nat, next: nat)
    requires next == k + 1 && k < |c.fs| && Inv(c, next) && Receive(c.fs[k]).Again?
    ensures Inv(c, k)
  {
    forall j: nat | k <= j <= |c.fs| ensures Clear(c, j) {
      assert j == k || Clear(c, j);
    }
  }

  lemma FirstLink(c: Chain, x: Input, first: nat)
    requires c.fs != [] && first == 1 && Link(c, 0) && Clear(c, 0) && Clear(c, first)
    ensures Link(Sent(c, 0, x), 0)
  {
    var c', f := Sent(c, 0, x), c.fs[0];
    assert Into(c', first) == Into(c, first) && Marks([]) == [];
    LiftSnoc(f.emit, f.inputs, x);
  }

  /** Sending to the first filter of a drained chain. */
  lemma FirstKeepsInv(c: Chain, x: Input, first: nat)
    requires c.fs != [] && Inv(c, 0) && Clear(c, 0) && first == 1
    ensures Inv(Sent(c, 0, x), first) && Emits(Sent(c, 0, x).fs) == Emits(c.fs)
  {
    var c' := Sent(c, 0, x);
    assert Link(c, 0) && Clear(c, first);
    FirstLink(c, x, first);
    forall j: nat | 0 < j < |c.fs| ensures Link(c', j) {
      assert Link(c, j) && Into(c', j + 1) == Into(c, j + 1);
    }
    forall j: nat | first <= j <= |c.fs| ensures Clear(c', j) {
      assert Clear(c, j);
    }
  }

  // ---- what comes out --------------------------------------------------------------------------

  /** What has gone into each position is a prefix of what the composed filters before it produce. */
  lemma {:induction false} IntoPrefix(c: Chain, k: nat)
    requires k <= |c.fs| && Linked(c)
    ensures Into(c, k) <= Through(Emits(c.fs)[..k], Into(c, 0))
  {
    if k > 0 {
      var j := k - 1;
      IntoPrefix(c, j);
      assert Link(c, j);
      var below := Through(Emits(c.fs)[..j], Into(c, 0));
      LiftPrefix(c.fs[j].emit, c.fs[j].inputs, below);
      assert Emits(c.fs)[..k][..j] == Emits(c.fs)[..j];
      assert Into(c, k) <= Lift(c.fs[j].emit, c.fs[j].inputs);
    }
  }

  predicate NothingLeft(c: Chain, n: nat)
    requires n <= |c.fs|
  {
    forall k: nat | k < n :: Rest(c, k) == []
  }

  /** Once no filter holds anything back, a position has got all that the filters before it produce. */
  lemma {:induction false} IntoAll(c: Chain, k: nat)
    requires k <= |c.fs| && Linked(c) && NothingLeft(c, k)
    ensures Into(c, k) == Through(Emits(c.fs)[..k], Into(c, 0))
  {
    if k > 0 {
      var j := k - 1;
      IntoAll(c, j);
      assert Link(c, j) && Rest(c, j) == [];
      assert Emits(c.fs)[..k][..j] == Emits(c.fs)[..j];
    }
  }

  /** A drained chain has put out the composition of its filters. */
  lemma DrainedOutput(c: Chain)
    requires Inv(c, 0)
    ensures c.out == Through(Emits(c.fs), Into(c, 0))
  {
    var n := |c.fs|;
    assert Marks([]) == [];
    forall k: nat | k < n ensures Rest(c, k) == [] {
      assert Clear(c, k);
    }
    IntoAll(c, n);
    assert Emits(c.fs)[..n] == Emits(c.fs);
  }

  /** Before the end has reached position k, it has passed every filter. */
  lemma {:induction false} EndWentThrough(c: Chain, k: nat)
    requires k <= |c.fs| && Linked(c) && Ended(Into(c, k))
    ensures NothingLeft(c, k) && Ended(Into(c, 0))
  {
    if k > 0 {
      var j := k - 1;
      assert Link(c, j) && Marks([]) == [];
      EndWentThrough(c, j);
    }
  }

  /** When the last filter reports the end, only the end itself has not been put out. */
  lemma EndedOutput(c: Chain, last: nat)
    requires c.fs != [] && last == |c.fs| - 1 && Linked(c) && Receive(c.fs[last]).Eof? && !Ended(c.out)
    ensures c.out + [End] == Through(Emits(c.fs), Into(c, 0)) && Ended(Into(c, 0))
  {
    var n := |c.fs|;
    EndWentThrough(c, last);
    IntoAll(c, last);
    assert Link(c, last) && Marks([]) == [];
    assert Emits(c.fs)[..n] == Emits(c.fs) && Emits(c.fs)[..last] == Emits(c.fs)[..n - 1];
    assert Rest(c, last) == [End];
  }

  /** A filter that has handed out everything, and the end. */
  predicate Done(f: Filter) {
    f.pending == [] && Ended(f.inputs)
  }

  predicate AllDone(fs: seq<Filter>) {
    forall k :: 0 <= k < |fs| ==> Done(fs[k])
  }

  /** Where the end has passed, the filters are done. */
  lemma {:induction false} DoneBefore(c: Chain, k: nat)
    requires k <= |c.fs| && Linked(c) && Ended(Into(c, k))
    ensures AllDone(c.fs[..k])
  {
    if k > 0 {
      var j := k - 1;
      assert Link(c, j);
      DoneBefore(c, j);
      assert c.fs[..k] == c.fs[..j] + [c.fs[j]];
    }
  }

  // ---- why the loop ends -----------------------------------------------------------------------

  /** How many items have gone into the positions up to k. */
  function SentUpTo(c: Chain, k: nat): nat
    requires k <= |c.fs|
  {
    |Into(c, k)| + if k == 0 then 0 else SentUpTo(c, k - 1)
  }

  /** How many items can ever go into the positions up to k. */
  function Bound(emits: seq<Emit>, s: seq<Input>, k: nat): nat
    requires k <= |emits|
  {
    |Through(emits[..k], s)| + if k == 0 then 0 else Bound(emits, s, k - 1)
  }

  lemma {:induction false} SentBounded(c: Chain, k: nat)
    requires k <= |c.fs| && Linked(c)
    ensures SentUpTo(c, k) <= Bound(Emits(c.fs), Into(c, 0), k)
  {
    IntoPrefix(c, k);
    if k > 0 {
      SentBounded(c, k - 1);
    }
  }

  /** A move puts one more item into one position. */
  lemma {:induction false} MoveCounts(c: Chain, k: nat, next: nat, upTo: nat)
    requires next == k + 1 && k < |c.fs| && Clear(c, next) && !Receive(c.fs[k]).Again? && upTo <= |c.fs|
    ensures |Moved(c, k).fs| == |c.fs|
    ensures SentUpTo(Moved(c, k), upTo) == SentUpTo(c, upTo) + if upTo >= next then 1 else 0
  {
    MovedAt(c, k, next);
    if upTo > 0 {
      MoveCounts(c, k, next, upTo - 1);
    }
    if upTo != next && upTo != k {
      assert Into(Moved(c, k), upTo) == Into(c, upTo);
    }
  }

  /** How many items can still move. */
  function Movable(c: Chain): int {
    Bound(Emits(c.fs), Into(c, 0), |c.fs|) - SentUpTo(c, |c.fs|)
  }

  /** The state of the loop at its head. */
  ghost predicate Pumping(c: Chain, idx: nat, emits: seq<Emit>, given: seq<Input>) {
    c.fs != [] && Inv(c, idx) && Into(c, 0) == given && Emits(c.fs) == emits && Movable(c) >= 0
  }

  /** A trip that moves something on leaves less to be moved. */
  lemma PumpingMoves(c: Chain, k: nat, idx: nat, next: nat, emits: seq<Emit>, given: seq<Input>)
    requires idx == k + 1 && idx <= |c.fs| && Pumping(c, idx, emits, given) && !Receive(c.fs[k]).Again?
    requires next == if idx < |c.fs| then idx + 1 else idx
    requires idx == |c.fs| ==> Receive(c.fs[k]).Got?
    ensures Clear(c, idx) && Pumping(Moved(c, k), next, emits, given) && Movable(Moved(c, k)) < Movable(c)
  {
    assert Clear(c, idx);
    MoveKeepsInv(c, k, idx, idx + 1);
    MovedAt(c, k, idx);
    MoveCounts(c, k, idx, |c.fs|);
    SentBounded(Moved(c, k), |c.fs|);
  }

  /** The end has come out of the last filter. */
  lemma PumpingEnds(c: Chain, last: nat, idx: nat, emits: seq<Emit>, given: seq<Input>)
    requires idx == last + 1 == |c.fs| && Pumping(c, idx, emits, given) && Receive(c.fs[last]).Eof?
    ensures AllDone(c.fs) && c.out + [End] == Through(emits, given)
  {
    assert Clear(c, idx);
    EndedOutput(c, last);
    DoneBefore(c, last);
    assert forall k :: 0 <= k < last ==> c.fs[..last][k] == c.fs[k];
  }

  // ---- the pump --------------------------------------------------------------------------------

  class OutputStream {
    var bsf: seq<Filter>
    var written: seq<Packet>     // what write_packet has been called with
    ghost var given: seq<Input>  // what output_packet has been called with

    ghost function AsChain(): Chain
      reads this
    {
      Chain(bsf, Marks(written))
    }

    /** Between calls, before the end: every filter is drained. */
    ghost predicate Valid()
      reads this
    {
      Inv(AsChain(), 0) && Into(AsChain(), 0) == given
    }

    /** After the end: nothing is left in any filter, and all that was given has come out. */
    ghost predicate Over()
      reads this
    {
      && bsf != [] && AllDone(bsf) && Into(AsChain(), 0) == given
      && Marks(written) + [End] == Through(Emits(bsf), given)
    }

    constructor (emits: seq<Emit>)
      ensures Valid() && Emits(bsf) == emits && given == [] && written == []
    {
      bsf := seq(|emits|, i requires 0 <= i < |emits| => Filter(emits[i], [], []));
      written, given := [], [];
    }

    ghost predicate LoopInv(idx: nat, emits: seq<Emit>)
      reads this
    {
      Pumping(AsChain(), idx, emits, given)
    }

    /** A loop trip that moves a packet, or the end, onward; once the stream is over, the end alone. */
    method Move(idx: nat, ghost emits: seq<Emit>, ghost over: bool) returns (next: nat, finished: bool)
      requires 1 <= idx <= |bsf| && !Receive(bsf[idx - 1]).Again?
      requires if over then Over() else LoopInv(idx, emits)
      modifies `bsf, `written
      ensures old(written) <= written
      ensures over ==> bsf == old(bsf) && written == old(written) && Over() && finished == (idx == |bsf|)
      ensures over && !finished ==> next == idx + 1
      ensures !over && finished ==> Over() && Emits(bsf) == emits
      ensures !over && !finished ==>
                LoopInv(next, emits) && Movable(AsChain()) < old(Movable(AsChain())) && 1 <= next
    {
      ghost var c, k: nat := AsChain(), idx - 1;
      var r := Receive(bsf[idx - 1]);
      if idx == |bsf| && r.Eof? {
        if !over {
          PumpingEnds(c, k, idx, emits, given);
        }
        return idx, true;
      }
      if over {
        OverStays(idx);
      } else {
        PumpingMoves(c, k, idx, if idx < |bsf| then idx + 1 else idx, emits, given);
      }
      next := Pass(idx, r);
      assert !over ==> AsChain() == Moved(c, k);
      finished := false;
    }

    /** Once the stream is over a filter has nothing to hand out, and a repeated end changes nothing. */
    lemma OverStays(idx: nat)
      requires Over() && 1 <= idx <= |bsf|
      ensures Receive(bsf[idx - 1]).Eof? && Taken(bsf[idx - 1]) == bsf[idx - 1]
      ensures idx < |bsf| ==> bsf[idx].pending == [] && Offer(bsf[idx], End) == Some(bsf[idx])
    {
      assert Done(bsf[idx - 1]) && (idx < |bsf| ==> Done(bsf[idx]));
    }

    /** What was received from filter idx - 1 is passed to the next one, or written. */
    method Pass(idx: nat, r: Received) returns (next: nat)
      requires 1 <= idx <= |bsf| && r == Receive(bsf[idx - 1]) && !r.Again? && (idx == |bsf| ==> r.Got?)
      requires idx < |bsf| ==> bsf[idx].pending == [] && Offer(bsf[idx], Item(bsf[idx - 1])).Some?
      modifies `bsf, `written
      ensures var taken := old(bsf)[idx - 1 := Taken(old(bsf)[idx - 1])];
              if idx < |old(bsf)| then
                && bsf == taken[idx := Offer(taken[idx], Item(old(bsf)[idx - 1])).value]
                && written == old(written) && next == idx + 1
              else bsf == taken && written == old(written) + [r.pkt] && next == idx
    {
      bsf := bsf[idx - 1 := Taken(bsf[idx - 1])];
      if idx < |bsf| {
        bsf := bsf[idx := Offer(bsf[idx], if r.Eof? then End else Data(r.pkt)).value];
        next := idx + 1;
      } else {
        written := written + [r.pkt];
        next := idx;
      }
    }

    /** What a call of output_packet establishes. */
    ghost predicate Finished(emits: seq<Emit>, eof: bool)
      reads this
    {
      && Emits(bsf) == emits
      && if eof then Over() else Valid() && Marks(written) == Through(emits, given)
    }

    /** The loop of output_packet, entered after the first filter has been sent its input. */
    method Pump(ghost emits: seq<Emit>, ghost over: bool)
      requires if over then Over() else LoopInv(1, emits)
      modifies `bsf, `written
      ensures over ==> bsf == old(bsf) && written == old(written) && Over()
      ensures !over ==> old(written) <= written && Finished(emits, Ended(given))
    {
      var idx := 1;
      while idx != 0
        invariant 0 <= idx <= |bsf| && old(written) <= written
        invariant over ==> bsf == old(bsf) && written == old(written) && Over() && idx > 0
        invariant !over ==> LoopInv(idx, emits)
        decreases if over then |bsf| - idx else Movable(AsChain()), idx
      {
        if Receive(bsf[idx - 1]).Again? {
          AgainKeepsInv(AsChain(), idx - 1, idx);
          idx := idx - 1;
        } else {
          var finished;
          idx, finished := Move(idx, emits, over);
          if finished {
            EndedWhenOver();
            return;
          }
        }
      }
      DrainedOutput(AsChain());
      assert Clear(AsChain(), 0);
    }

    lemma EndedWhenOver()
      requires Over()
      ensures Ended(given) && !Valid()
    {
      assert Done(bsf[0]);
      assert Valid() ==> Clear(AsChain(), 0);
    }

    /** The first filter is sent the input. */
    method SendFirst(x: Input, ghost over: bool) returns (ok: bool)
      requires bsf != [] && if over then Over() else Valid()
      modifies `bsf, `given
      ensures over ==> ok == x.End? && Over() && bsf == old(bsf) && given == old(given)
      ensures !over ==> ok && given == old(given) + [x] && |bsf| == old(|bsf|) && LoopInv(1, old(Emits(bsf)))
    {
      ghost var c := AsChain();
      if over {
        assert Done(bsf[0]);
      } else {
        assert Clear(c, 0);
        FirstKeepsInv(c, x, 1);
        given := given + [x];
      }
      var sent := Offer(bsf[0], x);
      if sent.None? {
        return false;
      }
      bsf := bsf[0 := sent.value];
      ok := true;
      if over {
        assert bsf == old(bsf);
      } else {
        assert AsChain() == Sent(c, 0, x);
        SentBounded(AsChain(), |bsf|);
      }
    }

    /** Without filters a packet is written. */
    method WriteUnfiltered(pkt: Packet, ghost before: Chain)
      requires bsf == [] && before == AsChain() && Inv(before, 0)
      requires given == before.out + [Data(pkt)]
      modifies `written
      ensures old(written) <= written && Finished([], false)
    {
      written := written + [pkt];
      assert Marks(written) == Marks(old(written)) + [Data(pkt)];
    }

    /**
      Writes exactly what the composition of the filters makes of everything given so far. After the
      end it writes nothing more: a packet is refused, and another end passes through without effect.
      Without filters the end is not passed on.
     */
    method OutputPacket(pkt: Packet, eof: bool) returns (ok: bool)
      requires Valid() || Over()
      modifies this
      ensures old(Over()) ==> ok == eof && Over()
      ensures old(Over()) ==> bsf == old(bsf) && written == old(written) && given == old(given)
      ensures old(Valid()) ==> ok && Emits(bsf) == old(Emits(bsf)) && old(written) <= written
      ensures old(Valid()) ==>
                given == old(given) + if !eof then [Data(pkt)] else if old(bsf) != [] then [End] else []
      ensures old(Valid()) ==>
                if eof && bsf != [] then Over() else Valid() && Marks(written) == Through(Emits(bsf), given)
    {
      ghost var c, over, emits := AsChain(), Over(), Emits(bsf);
      if over {
        EndedWhenOver();
      } else {
        assert Clear(c, 0);
      }
      if |bsf| > 0 {
        ok := SendFirst(if eof then End else Data(pkt), over);
        if !ok {
          return;
        }
        Pump(emits, over);
      } else if !eof {
        given := given + [Data(pkt)];
        assert Emits(bsf) == [];
        WriteUnfiltered(pkt, c);
      } else {
        DrainedOutput(c);
      }
      ok := true;
    }
  }
}
