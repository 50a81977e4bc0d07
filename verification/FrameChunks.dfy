/**
  Reassembly of P frames from the cfrm chunks of a 4XM stream: decode_frame appends each chunk to the
  slot of its id and decodes the slot's contents once they are as long as the whole frame.

  The reference keeps no slots: it looks at the chunks of one id alone.
 */
module FrameChunks {
  import opened LittleEndian
  import opened Options

  const SLOTS := 100
  const PADDING := 64

  /** The size field of the source is the length of data. */
  datatype Slot = Slot(id: int, data: seq<Byte>)

  datatype Chunk = Chunk(id: int, whole: int, payload: seq<Byte>)

  /** Overrun is where the code has no slot and goes on with index -1; the model stops there. */
  datatype Outcome = InvalidData | Stored | Frame(data: seq<Byte>) | Overrun

  // ---- the packet ------------------------------------------------------------------------------

  /** A 32-bit word stored in an int. */
  function Signed(u: nat): int {
    if u < 0x8000_0000 then u else u - 0x1_0000_0000
  }

  /** The chunk in a packet, unless its sizes are invalid or the version has no chunks. */
  function Parse(buf: seq<Byte>, version: int): Option<Chunk> {
    if |buf| < 20 || |buf| < (Word(buf, 4) + 8) % 0x1_0000_0000 then None
    else if version <= 1 || Signed(Word(buf, 16)) < 0 then None
    else Some(Chunk(Signed(Word(buf, 12)), Signed(Word(buf, 16)), buf[20..]))
  }

  // ---- the slots -------------------------------------------------------------------------------

  /** The first slot with an id, or the number of slots. */
  function FirstWith(slots: seq<Slot>, id: int): (i: nat)
    ensures i <= |slots| && (forall j :: 0 <= j < i ==> slots[j].id != id) && (i < |slots| ==> slots[i].id == id)
  {
    if slots == [] || slots[0].id == id then 0 else 1 + FirstWith(slots[1..], id)
  }

  /** The last empty slot, or -1. */
  function LastFree(slots: seq<Slot>): (i: int)
    ensures -1 <= i < |slots| && (i >= 0 ==> slots[i].data == [])
    ensures forall j :: i < j < |slots| ==> slots[j].data != []
  {
    if slots == [] || slots[|slots| - 1].data == [] then |slots| - 1 else LastFree(slots[..|slots| - 1])
  }

  /** Where a chunk goes. */
  function Place(slots: seq<Slot>, id: int): int {
    if FirstWith(slots, id) < |slots| then FirstWith(slots, id) else LastFree(slots)
  }

  predicate HasPlace(slots: seq<Slot>, id: int) {
    Place(slots, id) >= 0
  }

  /** What arrival of a payload makes of the bytes gathered so far. */
  function Arrival(sofar: seq<Byte>, c: Chunk): Outcome {
    if |c.payload| > UINT_MAX - |sofar| - PADDING then InvalidData
    else if |sofar + c.payload| >= c.whole then Frame(sofar + c.payload)
    else Stored
  }

  function Gathered(sofar: seq<Byte>, c: Chunk): seq<Byte> {
    match Arrival(sofar, c)
    case Stored => sofar + c.payload
    case Frame(_) => []
    case _ => sofar
  }

  function Accept(slots: seq<Slot>, c: Chunk): seq<Slot>
    requires HasPlace(slots, c.id)
  {
    var i := Place(slots, c.id);
    var sofar := slots[i].data;
    slots[i := Slot(if Arrival(sofar, c).Frame? then 0 else c.id, Gathered(sofar, c))]
  }

  function Result(slots: seq<Slot>, c: Chunk): Outcome
    requires HasPlace(slots, c.id)
  {
    Arrival(slots[Place(slots, c.id)].data, c)
  }

  class Reassembler {
    var cfrm: array<Slot>
    const version: int

    ghost predicate Valid()
      reads this
    {
      cfrm.Length == SLOTS
    }

    constructor (version: int)
      ensures Valid() && fresh(cfrm) && this.version == version
      ensures cfrm[..] == Empty()
    {
      this.version := version;
      cfrm := new Slot[SLOTS](_ => Slot(0, []));
    }

    /** The slot of an id, or the last empty one, or -1. */
    method FindSlot(id: int) returns (i: int)
      requires Valid()
      ensures i == Place(cfrm[..], id)
    {
      var free := -1;
      i := 0;
      while i < SLOTS
        invariant 0 <= i <= SLOTS
        invariant forall j :: 0 <= j < i ==> cfrm[j].id != id
        invariant -1 <= free < i && (free >= 0 ==> cfrm[free].data == [])
        invariant forall j :: free < j < i ==> cfrm[j].data != []
      {
        if cfrm[i].id == id {
          break;
        }
        if |cfrm[i].data| == 0 {
          free := i;
        }
        i := i + 1;
      }
      if i >= SLOTS {
        i := free;
      }
    }

    /** The cfrm branch of decode_frame. */
    method AddChunk(buf: seq<Byte>) returns (outcome: Outcome)
      requires Valid() && |buf| < 0x8000_0000
      modifies cfrm
      ensures Valid() && cfrm == old(cfrm)
      ensures var c := Parse(buf, version);
              if c.None? then outcome == InvalidData && cfrm[..] == old(cfrm[..])
              else if !HasPlace(old(cfrm[..]), c.value.id) then outcome == Overrun && cfrm[..] == old(cfrm[..])
              else outcome == Result(old(cfrm[..]), c.value) && cfrm[..] == Accept(old(cfrm[..]), c.value)
    {
      if |buf| < 20 || |buf| < (Word(buf, 4) + 8) % 0x1_0000_0000 {
        return InvalidData;
      }
      if version <= 1 {
        return InvalidData;
      }
      var id, whole, dataSize := Signed(Word(buf, 12)), Signed(Word(buf, 16)), |buf| - 20;
      if dataSize < 0 || whole < 0 {
        return InvalidData;
      }
      var i := FindSlot(id);
      if i < 0 {
        return Overrun;
      }
      ghost var before := cfrm[..];
      cfrm[i] := cfrm[i].(id := id);
      if dataSize > UINT_MAX - |cfrm[i].data| - PADDING {
        return InvalidData;
      }
      cfrm[i] := cfrm[i].(data := cfrm[i].data + buf[20..]);
      if |cfrm[i].data| >= whole {
        outcome := Frame(cfrm[i].data);
        cfrm[i] := Slot(0, []);
      } else {
        outcome := Stored;
      }
    }
  }

  // ---- runs ------------------------------------------------------------------------------------

  function Empty(): (slots: seq<Slot>)
    ensures |slots| == SLOTS
  {
    seq(SLOTS, _ => Slot(0, []))
  }

  /** The slots after a sequence of chunks, and the frames delivered with their ids. */
  datatype Decoder = Decoder(slots: seq<Slot>, frames: seq<(int, seq<Byte>)>)

  function Feed(d: Decoder, c: Chunk): Decoder
    requires HasPlace(d.slots, c.id)
  {
    var r := Result(d.slots, c);
    Decoder(Accept(d.slots, c), if r.Frame? then d.frames + [(c.id, r.data)] else d.frames)
  }

  /** The run of a sequence of chunks, if there was a slot for each. */
  function Run(chunks: seq<Chunk>): Option<Decoder> {
    if chunks == [] then Some(Decoder(Empty(), []))
    else
      var before := Run(chunks[..|chunks| - 1]);
      if before.None? || !HasPlace(before.value.slots, chunks[|chunks| - 1].id) then None
      else Some(Feed(before.value, chunks[|chunks| - 1]))
  }

  function FramesOf(frames: seq<(int, seq<Byte>)>, id: int): seq<seq<Byte>> {
    if frames == [] then []
    else
      var before := FramesOf(frames[..|frames| - 1], id);
      if frames[|frames| - 1].0 == id then before + [frames[|frames| - 1].1] else before
  }

  // ---- the reference, which sees one id --------------------------------------------------------

  /** The bytes of an id that have arrived since its last delivery. */
  function SinceDelivery(chunks: seq<Chunk>, id: int): seq<Byte> {
    if chunks == [] then []
    else
      var before, c := SinceDelivery(chunks[..|chunks| - 1], id), chunks[|chunks| - 1];
      if c.id == id then Gathered(before, c) else before
  }

  /** The frames delivered for an id. */
  function Deliveries(chunks: seq<Chunk>, id: int): seq<seq<Byte>> {
    if chunks == [] then []
    else
      var before, c := chunks[..|chunks| - 1], chunks[|chunks| - 1];
      var r := Arrival(SinceDelivery(before, id), c);
      if c.id == id && r.Frame? then Deliveries(before, id) + [r.data] else Deliveries(before, id)
  }

  // ---- the slots refine the reference ----------------------------------------------------------

  /** What the slots hold for an id. */
  function Pending(slots: seq<Slot>, id: int): seq<Byte> {
    var i := FirstWith(slots, id);
    if i < |slots| then slots[i].data else []
  }

  predicate DistinctIds(slots: seq<Slot>) {
    forall i, j :: 0 <= i < j < |slots| && slots[i].id == slots[j].id ==> slots[i].id == 0
  }

  /** The one slot of a nonzero id holds what is pending for it. */
  lemma PendingAt(slots: seq<Slot>, i: nat)
    requires DistinctIds(slots) && i < |slots| && slots[i].id != 0
    ensures Pending(slots, slots[i].id) == slots[i].data
  {
    assert FirstWith(slots, slots[i].id) == i;
  }

  lemma PendingNowhere(slots: seq<Slot>, id: int)
    requires forall i :: 0 <= i < |slots| && slots[i].id == id ==> slots[i].data == []
    ensures Pending(slots, id) == []
  {
  }

  lemma AcceptKeepsDistinct(slots: seq<Slot>, c: Chunk)
    requires DistinctIds(slots) && HasPlace(slots, c.id)
    ensures DistinctIds(Accept(slots, c))
  {
    var i := Place(slots, c.id);
    assert forall j :: 0 <= j < |slots| && j != i && slots[j].id == c.id ==> c.id == 0;
  }

  lemma AcceptNonzero(slots: seq<Slot>, c: Chunk, id: int)
    requires DistinctIds(slots) && HasPlace(slots, c.id) && id != 0
    ensures var sofar := Pending(slots, id);
            Pending(Accept(slots, c), id) == if c.id == id then Gathered(sofar, c) else sofar
  {
    AcceptKeepsDistinct(slots, c);
    var i, after, k := Place(slots, c.id), Accept(slots, c), FirstWith(slots, id);
    if c.id == id {
      assert Pending(slots, id) == slots[i].data;
      if after[i].id == id {
        PendingAt(after, i);
      } else {
        PendingNowhere(after, id);
      }
    } else if k < |slots| && k != i {
      PendingAt(after, k);
      assert after[k].id == id;
    } else {
      PendingNowhere(after, id);
    }
  }

  lemma EmptyPending(id: int)
    ensures Pending(Empty(), id) == [] && DistinctIds(Empty())
  {
    PendingNowhere(Empty(), id);
  }

  // ---- id 0, which empty slots share -----------------------------------------------------------

  /** Only the first slot with id 0 holds anything. */
  predicate ZeroTidy(slots: seq<Slot>) {
    forall i :: FirstWith(slots, 0) < i < |slots| && slots[i].id == 0 ==> slots[i].data == []
  }

  /** The chunk completes a frame in a slot before the one that holds bytes of id 0. */
  predicate Strands(slots: seq<Slot>, c: Chunk)
    requires HasPlace(slots, c.id)
  {
    && c.id != 0 && Result(slots, c).Frame?
    && Place(slots, c.id) < FirstWith(slots, 0) < |slots| && slots[FirstWith(slots, 0)].data != []
  }

  lemma FirstIs(slots: seq<Slot>, id: int, k: nat)
    requires k <= |slots| && (k < |slots| ==> slots[k].id == id)
    requires forall j :: 0 <= j < k ==> slots[j].id != id
    ensures FirstWith(slots, id) == k
  {
  }

  lemma LastIs(slots: seq<Slot>, k: nat)
    requires k < |slots| && slots[k].data == []
    requires forall j :: k < j < |slots| ==> slots[j].data != []
    ensures LastFree(slots) == k
  {
  }

  /** Where the first slot with id 0 is after a chunk. */
  lemma FirstAfter(slots: seq<Slot>, c: Chunk)
    requires HasPlace(slots, c.id)
    requires c.id == 0 || Place(slots, c.id) != FirstWith(slots, 0) || Result(slots, c).Frame?
    ensures var i, k := Place(slots, c.id), FirstWith(slots, 0);
            var zero := c.id == 0 || Result(slots, c).Frame?;
            FirstWith(Accept(slots, c), 0) == if zero && i < k then i else k
  {
    var i, k, after := Place(slots, c.id), FirstWith(slots, 0), Accept(slots, c);
    FirstIs(after, 0, if (c.id == 0 || Result(slots, c).Frame?) && i < k then i else k);
  }

  /** Such a chunk hides the bytes of id 0; any other treats them as the reference says. */
  lemma AcceptZero(slots: seq<Slot>, c: Chunk)
    requires ZeroTidy(slots) && HasPlace(slots, c.id)
    ensures Strands(slots, c) ==> Pending(slots, 0) != [] && Pending(Accept(slots, c), 0) == []
    ensures !Strands(slots, c) ==>
      var sofar := Pending(slots, 0);
      && ZeroTidy(Accept(slots, c))
      && Pending(Accept(slots, c), 0) == if c.id == 0 then Gathered(sofar, c) else sofar
  {
    var i, k, after := Place(slots, c.id), FirstWith(slots, 0), Accept(slots, c);
    if c.id == 0 || i != k || Result(slots, c).Frame? {
      FirstAfter(slots, c);
    } else {
      assert slots[i].data == [];
      PendingNowhere(after, 0);
    }
  }

  /** A chunk changes what is pending for its own id as the reference says, and for no other. */
  lemma AcceptPending(slots: seq<Slot>, c: Chunk, id: int)
    requires DistinctIds(slots) && HasPlace(slots, c.id)
    requires id == 0 ==> ZeroTidy(slots) && !Strands(slots, c)
    ensures var sofar := Pending(slots, id);
            Pending(Accept(slots, c), id) == if c.id == id then Gathered(sofar, c) else sofar
  {
    if id == 0 {
      AcceptZero(slots, c);
    } else {
      AcceptNonzero(slots, c, id);
    }
  }

  /** No chunk of the run hides bytes of id 0. */
  ghost predicate NeverStrands(chunks: seq<Chunk>)
    requires Run(chunks).Some?
  {
    chunks == [] ||
    var before, c := chunks[..|chunks| - 1], chunks[|chunks| - 1];
    NeverStrands(before) && !Strands(Run(before).value.slots, c)
  }

  lemma FramesStep(frames: seq<(int, seq<Byte>)>, c: int, data: seq<Byte>, id: int)
    ensures FramesOf(frames + [(c, data)], id) == FramesOf(frames, id) + if c == id then [data] else []
  {
    assert (frames + [(c, data)])[..|frames|] == frames;
  }

  lemma {:induction false} RunKeepsDistinct(chunks: seq<Chunk>)
    requires Run(chunks).Some?
    ensures DistinctIds(Run(chunks).value.slots) && |Run(chunks).value.slots| == SLOTS
  {
    if chunks != [] {
      var before := chunks[..|chunks| - 1];
      RunKeepsDistinct(before);
      AcceptKeepsDistinct(Run(before).value.slots, chunks[|chunks| - 1]);
    }
  }

  lemma {:induction false} ZeroStaysTidy(chunks: seq<Chunk>)
    requires Run(chunks).Some? && NeverStrands(chunks)
    ensures ZeroTidy(Run(chunks).value.slots)
    ensures Pending(Run(chunks).value.slots, 0) == SinceDelivery(chunks, 0)
  {
    if chunks == [] {
      EmptyPending(0);
    } else {
      var before := chunks[..|chunks| - 1];
      ZeroStaysTidy(before);
      AcceptZero(Run(before).value.slots, chunks[|chunks| - 1]);
    }
  }

  /** After every chunk of the run the slots hold for id 0 what the reference says. */
  ghost predicate ZeroKept(chunks: seq<Chunk>)
    requires Run(chunks).Some?
  {
    chunks == [] ||
    (ZeroKept(chunks[..|chunks| - 1]) && Pending(Run(chunks).value.slots, 0) == SinceDelivery(chunks, 0))
  }

  /** The bytes of id 0 are kept throughout a run exactly when no chunk hides them. */
  lemma {:induction false} ZeroKeptIff(chunks: seq<Chunk>)
    requires Run(chunks).Some?
    ensures ZeroKept(chunks) <==> NeverStrands(chunks)
  {
    if chunks != [] {
      var before := chunks[..|chunks| - 1];
      ZeroKeptIff(before);
      if NeverStrands(before) {
        ZeroStaysTidy(before);
        AcceptZero(Run(before).value.slots, chunks[|chunks| - 1]);
      }
    }
  }

  /**
    On every interleaving, the slots hold for each id what the reference says, and delivered its
    frames; for id 0 if no chunk hides its bytes.
   */
  lemma {:induction false} SlotsRefine(chunks: seq<Chunk>, id: int)
    requires Run(chunks).Some? && (id == 0 ==> NeverStrands(chunks))
    ensures var d := Run(chunks).value;
            Pending(d.slots, id) == SinceDelivery(chunks, id) && FramesOf(d.frames, id) == Deliveries(chunks, id)
  {
    if chunks == [] {
      EmptyPending(id);
    } else {
      var before, c := chunks[..|chunks| - 1], chunks[|chunks| - 1];
      SlotsRefine(before, id);
      var d := Run(before).value;
      RunKeepsDistinct(before);
      if id == 0 {
        ZeroStaysTidy(before);
      }
      AcceptPending(d.slots, c, id);
      var r := Result(d.slots, c);
      if r.Frame? {
        FramesStep(d.frames, c.id, r.data, id);
      }
    }
  }

  // ---- whole frames, split and interleaved -----------------------------------------------------

  function Only(chunks: seq<Chunk>, id: int): seq<Chunk> {
    if chunks == [] then []
    else
      var before := Only(chunks[..|chunks| - 1], id);
      if chunks[|chunks| - 1].id == id then before + [chunks[|chunks| - 1]] else before
  }

  function Concat(parts: seq<seq<Byte>>): seq<Byte> {
    if parts == [] then [] else Concat(parts[..|parts| - 1]) + parts[|parts| - 1]
  }

  /** A frame cut into parts that a chunk each can carry, and the size that the chunks give for it. */
  datatype Parts = Parts(whole: int, parts: seq<seq<Byte>>)

  /** It takes the last part to reach that size. */
  predicate Cut(frame: Parts) {
    var parts := frame.parts;
    && parts != [] && (|parts| > 1 ==> |Concat(parts[..|parts| - 1])| < frame.whole)
    && frame.whole <= |Concat(parts)| <= UINT_MAX - PADDING
  }

  function ChunksOf(id: int, whole: int, parts: seq<seq<Byte>>): seq<Chunk> {
    if parts == [] then []
    else ChunksOf(id, whole, parts[..|parts| - 1]) + [Chunk(id, whole, parts[|parts| - 1])]
  }

  /** The chunks of several frames, one after the other. */
  function Encode(id: int, frames: seq<Parts>): seq<Chunk> {
    if frames == [] then []
    else
      var last := frames[|frames| - 1];
      Encode(id, frames[..|frames| - 1]) + ChunksOf(id, last.whole, last.parts)
  }

  function Joined(frames: seq<Parts>): seq<seq<Byte>> {
    if frames == [] then [] else Joined(frames[..|frames| - 1]) + [Concat(frames[|frames| - 1].parts)]
  }

  /** Chunks of other ids make no difference. */
  lemma {:induction false} OthersIgnored(chunks: seq<Chunk>, id: int)
    ensures SinceDelivery(Only(chunks, id), id) == SinceDelivery(chunks, id)
    ensures Deliveries(Only(chunks, id), id) == Deliveries(chunks, id)
  {
    if chunks != [] {
      var before, c := chunks[..|chunks| - 1], chunks[|chunks| - 1];
      OthersIgnored(before, id);
      if c.id == id {
        assert (Only(before, id) + [c])[..|Only(before, id)|] == Only(before, id);
      }
    }
  }

  lemma ArriveOne(chunks: seq<Chunk>, c: Chunk)
    ensures SinceDelivery(chunks + [c], c.id) == Gathered(SinceDelivery(chunks, c.id), c)
    ensures var r := Arrival(SinceDelivery(chunks, c.id), c);
            Deliveries(chunks + [c], c.id) == Deliveries(chunks, c.id) + if r.Frame? then [r.data] else []
  {
    assert (chunks + [c])[..|chunks|] == chunks;
  }

  /** While parts arrive that are shorter than the whole, they gather. */
  lemma {:induction false} PartsGather(chunks: seq<Chunk>, id: int, whole: int, parts: seq<seq<Byte>>)
    requires SinceDelivery(chunks, id) == [] && |Concat(parts)| < whole <= UINT_MAX - PADDING
    ensures SinceDelivery(chunks + ChunksOf(id, whole, parts), id) == Concat(parts)
    ensures Deliveries(chunks + ChunksOf(id, whole, parts), id) == Deliveries(chunks, id)
  {
    if parts == [] {
      assert chunks + [] == chunks;
    } else {
      var before, c := parts[..|parts| - 1], Chunk(id, whole, parts[|parts| - 1]);
      PartsGather(chunks, id, whole, before);
      ArriveOne(chunks + ChunksOf(id, whole, before), c);
      assert chunks + ChunksOf(id, whole, parts) == chunks + ChunksOf(id, whole, before) + [c];
    }
  }

  /** All parts but the last gather. */
  lemma PartsBeforeLast(chunks: seq<Chunk>, id: int, frame: Parts)
    requires SinceDelivery(chunks, id) == [] && Cut(frame)
    ensures var parts := frame.parts; var before := chunks + ChunksOf(id, frame.whole, parts[..|parts| - 1]);
            && SinceDelivery(before, id) == Concat(parts[..|parts| - 1])
            && Deliveries(before, id) == Deliveries(chunks, id)
  {
    var before := frame.parts[..|frame.parts| - 1];
    if before == [] {
      assert chunks + ChunksOf(id, frame.whole, before) == chunks;
    } else {
      PartsGather(chunks, id, frame.whole, before);
    }
  }

  /** The last part delivers the frame. */
  lemma FrameDelivered(chunks: seq<Chunk>, id: int, frame: Parts)
    requires SinceDelivery(chunks, id) == [] && Cut(frame)
    ensures var all := chunks + ChunksOf(id, frame.whole, frame.parts);
            SinceDelivery(all, id) == [] && Deliveries(all, id) == Deliveries(chunks, id) + [Concat(frame.parts)]
  {
    var whole, parts := frame.whole, frame.parts;
    var before, c := chunks + ChunksOf(id, whole, parts[..|parts| - 1]), Chunk(id, whole, parts[|parts| - 1]);
    PartsBeforeLast(chunks, id, frame);
    ArriveOne(before, c);
    assert chunks + ChunksOf(id, whole, parts) == before + [c];
  }

  lemma {:induction false} EncodedDelivered(id: int, frames: seq<Parts>)
    requires forall i :: 0 <= i < |frames| ==> Cut(frames[i])
    ensures SinceDelivery(Encode(id, frames), id) == [] && Deliveries(Encode(id, frames), id) == Joined(frames)
  {
    if frames != [] {
      EncodedDelivered(id, frames[..|frames| - 1]);
      FrameDelivered(Encode(id, frames[..|frames| - 1]), id, frames[|frames| - 1]);
    }
  }

  /**
    However the chunks of other ids, complete or not, lie between them: frames cut into chunks of one
    id are delivered whole, each once and in order, with the chunk that reaches the given size; under
    id 0 if no chunk hides its bytes.
   */
  lemma FramesSurvive(chunks: seq<Chunk>, id: int, frames: seq<Parts>)
    requires Run(chunks).Some? && (id == 0 ==> NeverStrands(chunks))
    requires Only(chunks, id) == Encode(id, frames) && forall i :: 0 <= i < |frames| ==> Cut(frames[i])
    ensures FramesOf(Run(chunks).value.frames, id) == Joined(frames)
    ensures Pending(Run(chunks).value.slots, id) == []
  {
    SlotsRefine(chunks, id);
    OthersIgnored(chunks, id);
    EncodedDelivered(id, frames);
  }

  // ---- when there is a slot --------------------------------------------------------------------

  predicate AllDistinct(slots: seq<Slot>) {
    forall i, j :: 0 <= i < j < |slots| ==> slots[i].id != slots[j].id
  }

  function Ids(slots: seq<Slot>): set<int> {
    set slot | slot in slots :: slot.id
  }

  lemma LastId(slots: seq<Slot>)
    requires slots != []
    ensures Ids(slots) == Ids(slots[..|slots| - 1]) + {slots[|slots| - 1].id}
  {
    var n := |slots| - 1;
    assert slots == slots[..n] + [slots[n]];
    assert slots[n] in slots;
  }

  lemma {:induction false} IdsSize(slots: seq<Slot>)
    ensures |Ids(slots)| <= |slots|
    ensures AllDistinct(slots) ==> |Ids(slots)| == |slots|
  {
    if slots != [] {
      var before := slots[..|slots| - 1];
      IdsSize(before);
      LastId(slots);
    }
  }

  lemma SubsetSize(a: set<int>, b: set<int>)
    requires a <= b
    ensures |a| <= |b|
  {
    assert b == a + (b - a);
  }

  /** Slots with different ids of a set are no more than the set. */
  lemma SlotsWithin(slots: seq<Slot>, ids: set<int>)
    requires AllDistinct(slots) && forall i :: 0 <= i < |slots| ==> slots[i].id in ids
    ensures |slots| <= |ids|
  {
    IdsSize(slots);
    SubsetSize(Ids(slots), ids);
  }

  /** A slot that is full holds what its id has not finished. */
  lemma FullSlot(chunks: seq<Chunk>, i: nat)
    requires Run(chunks).Some? && NeverStrands(chunks)
    requires var slots := Run(chunks).value.slots; i < |slots| && slots[i].data != []
    ensures SinceDelivery(chunks, Run(chunks).value.slots[i].id) != []
  {
    var slots := Run(chunks).value.slots;
    RunKeepsDistinct(chunks);
    SlotsRefine(chunks, slots[i].id);
    if slots[i].id == 0 {
      ZeroStaysTidy(chunks);
      assert FirstWith(slots, 0) == i;
    } else {
      PendingAt(slots, i);
    }
  }

  lemma FullAreDistinct(slots: seq<Slot>)
    requires DistinctIds(slots) && ZeroTidy(slots) && forall i :: 0 <= i < |slots| ==> slots[i].data != []
    ensures AllDistinct(slots)
  {
    forall i, j | 0 <= i < j < |slots| ensures slots[i].id != slots[j].id {
      assert slots[i].id == 0 ==> FirstWith(slots, 0) <= i;
    }
  }

  /** The ids that have bytes outstanding. */
  function Open(chunks: seq<Chunk>): set<int> {
    set i | 0 <= i < |chunks| && SinceDelivery(chunks, chunks[i].id) != [] :: chunks[i].id
  }

  lemma {:induction false} OnlySeenIds(chunks: seq<Chunk>, id: int)
    requires SinceDelivery(chunks, id) != []
    ensures exists i :: 0 <= i < |chunks| && chunks[i].id == id
  {
    if chunks[|chunks| - 1].id != id {
      OnlySeenIds(chunks[..|chunks| - 1], id);
    }
  }

  lemma OpenIff(chunks: seq<Chunk>, id: int)
    ensures id in Open(chunks) <==> SinceDelivery(chunks, id) != []
  {
    if SinceDelivery(chunks, id) != [] {
      OnlySeenIds(chunks, id);
    }
  }

  /** If no slot is free, as many ids are open as there are slots. */
  lemma AllFull(chunks: seq<Chunk>)
    requires Run(chunks).Some? && NeverStrands(chunks) && LastFree(Run(chunks).value.slots) < 0
    ensures |Open(chunks)| >= SLOTS
  {
    var slots := Run(chunks).value.slots;
    RunKeepsDistinct(chunks);
    ZeroStaysTidy(chunks);
    FullAreDistinct(slots);
    forall i | 0 <= i < |slots| ensures slots[i].id in Open(chunks) {
      FullSlot(chunks, i);
      OpenIff(chunks, slots[i].id);
    }
    SlotsWithin(slots, Open(chunks));
  }

  /** An open id has a slot, which is not the empty one. */
  lemma OpenHasSlot(chunks: seq<Chunk>, free: nat, id: int)
    requires Run(chunks).Some? && NeverStrands(chunks)
    requires var slots := Run(chunks).value.slots; free < |slots| && slots[free].data == []
    requires SinceDelivery(chunks, id) != []
    ensures var slots := Run(chunks).value.slots; id in Ids(slots[..free] + slots[free + 1..])
  {
    var slots := Run(chunks).value.slots;
    SlotsRefine(chunks, id);
    AmongOthers(slots, free, FirstWith(slots, id));
  }

  lemma AmongOthers(slots: seq<Slot>, free: nat, k: nat)
    requires free < |slots| && k < |slots| && k != free
    ensures slots[k].id in Ids(slots[..free] + slots[free + 1..])
  {
    var others := slots[..free] + slots[free + 1..];
    var at := if k < free then k else k - 1;
    assert others[at] == slots[k];
  }

  /** If a slot is free, the open ids are in the others. */
  lemma OneFree(chunks: seq<Chunk>)
    requires Run(chunks).Some? && NeverStrands(chunks) && LastFree(Run(chunks).value.slots) >= 0
    ensures |Open(chunks)| < SLOTS
  {
    var slots := Run(chunks).value.slots;
    RunKeepsDistinct(chunks);
    var free := LastFree(slots);
    var others := slots[..free] + slots[free + 1..];
    forall id | id in Open(chunks) ensures id in Ids(others) {
      OpenIff(chunks, id);
      OpenHasSlot(chunks, free, id);
    }
    SubsetSize(Open(chunks), Ids(others));
    IdsSize(others);
  }

  /** The next chunk finds a slot exactly when its id is open already or fewer ids are open than there are slots. */
  lemma PlaceIff(chunks: seq<Chunk>, id: int)
    requires Run(chunks).Some? && NeverStrands(chunks)
    ensures HasPlace(Run(chunks).value.slots, id) <==> SinceDelivery(chunks, id) != [] || |Open(chunks)| < SLOTS
  {
    var slots := Run(chunks).value.slots;
    SlotsRefine(chunks, id);
    if LastFree(slots) >= 0 {
      OneFree(chunks);
    } else {
      AllFull(chunks);
      var k := FirstWith(slots, id);
      if k < |slots| {
        FullSlot(chunks, k);
      }
    }
  }

  // ---- when id 0 is safe -----------------------------------------------------------------------

  /** The nonzero ids that have bytes outstanding. */
  function Unfinished(chunks: seq<Chunk>): set<int> {
    Open(chunks) - {0}
  }

  /** Before every chunk at most 98 nonzero ids are unfinished. */
  ghost predicate Roomy(chunks: seq<Chunk>) {
    chunks == [] ||
    var before := chunks[..|chunks| - 1];
    Roomy(before) && |Unfinished(before)| < SLOTS - 1
  }

  /** Slot 0 is the last that is taken: with 98 nonzero ids unfinished there is another one free. */
  lemma AnotherFree(chunks: seq<Chunk>)
    requires Run(chunks).Some? && NeverStrands(chunks) && |Unfinished(chunks)| < SLOTS - 1
    requires |Run(chunks).value.slots| == SLOTS && Run(chunks).value.slots[0].id == 0
    ensures LastFree(Run(chunks).value.slots) > 0
  {
    var slots := Run(chunks).value.slots;
    if LastFree(slots) <= 0 {
      RunKeepsDistinct(chunks);
      ZeroStaysTidy(chunks);
      var others := slots[1..];
      assert FirstWith(slots, 0) == 0;
      forall i | 0 <= i < |others| ensures others[i].id != 0 && others[i].id in Unfinished(chunks) {
        assert others[i] == slots[i + 1] && slots[i + 1].data != [];
        FullSlot(chunks, i + 1);
        OpenIff(chunks, others[i].id);
      }
      SlotsWithin(others, Unfinished(chunks));
    }
  }

  lemma {:induction false} RoomyNeverStrands(chunks: seq<Chunk>)
    requires Roomy(chunks)
    ensures Run(chunks).Some? && NeverStrands(chunks)
    ensures |Run(chunks).value.slots| == SLOTS && Run(chunks).value.slots[0].id == 0
  {
    if chunks != [] {
      var before, c := chunks[..|chunks| - 1], chunks[|chunks| - 1];
      RoomyNeverStrands(before);
      AnotherFree(before);
      var slots := Run(before).value.slots;
      assert FirstWith(slots, 0) == 0;
      assert c.id != 0 ==> FirstWith(slots, c.id) > 0;
    }
  }

  /**
    While at most 98 nonzero ids are unfinished, every chunk has a slot, and every id, 0 too, is treated
    as the reference says.
   */
  lemma RoomyRefines(chunks: seq<Chunk>, id: int)
    requires Roomy(chunks)
    ensures Run(chunks).Some?
    ensures var d := Run(chunks).value;
            Pending(d.slots, id) == SinceDelivery(chunks, id) && FramesOf(d.frames, id) == Deliveries(chunks, id)
  {
    RoomyNeverStrands(chunks);
    SlotsRefine(chunks, id);
  }

  // ---- a run that loses bytes of id 0 ----------------------------------------------------------

  /** The first chunks of n frames of two bytes, with ids 1 to n. */
  function Openings(n: nat): (s: seq<Chunk>)
    ensures |s| == n
  {
    if n == 0 then [] else Openings(n - 1) + [Chunk(n, 2, [0])]
  }

  /** They take the slots from the last to the first. */
  function Filled(n: nat): (s: seq<Slot>)
    requires n <= SLOTS
    ensures |s| == SLOTS
  {
    seq(SLOTS, k => if k >= SLOTS - n then Slot(SLOTS - k, [0]) else Slot(0, []))
  }

  lemma FillOne(slots: seq<Slot>, n: nat)
    requires 1 <= n <= SLOTS && slots == Filled(n - 1)
    ensures FirstWith(slots, n) == SLOTS && LastFree(slots) == SLOTS - n
  {
    FirstIs(slots, n, SLOTS);
    LastIs(slots, SLOTS - n);
  }

  lemma OpenOne(slots: seq<Slot>, n: nat)
    requires 1 <= n <= SLOTS && slots == Filled(n - 1)
    ensures HasPlace(slots, n) && Result(slots, Chunk(n, 2, [0])) == Stored
    ensures Accept(slots, Chunk(n, 2, [0])) == Filled(n)
  {
    FillOne(slots, n);
    assert slots[SLOTS - n].data + [0] == [0];
  }

  lemma {:induction false} OpeningsFill(n: nat)
    requires n <= SLOTS
    ensures Run(Openings(n)) == Some(Decoder(Filled(n), []))
    ensures SinceDelivery(Openings(n), 0) == [] && Deliveries(Openings(n), 0) == []
  {
    if n == 0 {
      assert Filled(0) == Empty();
    } else {
      OpeningsFill(n - 1);
      OpenNext(Openings(n - 1), n);
    }
  }

  lemma OpenNext(before: seq<Chunk>, n: nat)
    requires 1 <= n <= SLOTS && Run(before) == Some(Decoder(Filled(n - 1), []))
    requires SinceDelivery(before, 0) == [] && Deliveries(before, 0) == []
    ensures Run(before + [Chunk(n, 2, [0])]) == Some(Decoder(Filled(n), []))
    ensures SinceDelivery(before + [Chunk(n, 2, [0])], 0) == [] && Deliveries(before + [Chunk(n, 2, [0])], 0) == []
  {
    OpenOne(Filled(n - 1), n);
    var chunks, d := RunOne(before, Decoder(Filled(n - 1), []), Chunk(n, 2, [0]));
  }

  /** With 100 frames begun, a chunk of another id has no slot. */
  lemma NoSlotLeft()
    ensures Run(Openings(SLOTS)).Some? && !HasPlace(Run(Openings(SLOTS)).value.slots, SLOTS + 1)
    ensures Run(Openings(SLOTS + 1)).None?
  {
    OpeningsFill(SLOTS);
    FirstIs(Filled(SLOTS), SLOTS + 1, SLOTS);
    assert LastFree(Filled(SLOTS)) == -1;
    assert Openings(SLOTS + 1)[..SLOTS] == Openings(SLOTS);
  }

  lemma RunOne(chunks: seq<Chunk>, d: Decoder, c: Chunk) returns (chunks': seq<Chunk>, d': Decoder)
    requires Run(chunks) == Some(d) && HasPlace(d.slots, c.id)
    ensures chunks' == chunks + [c] && d' == Feed(d, c) && Run(chunks') == Some(d')
    ensures c.id == 0 ==> SinceDelivery(chunks', 0) == Gathered(SinceDelivery(chunks, 0), c)
    ensures c.id != 0 ==> SinceDelivery(chunks', 0) == SinceDelivery(chunks, 0)
    ensures var r := Arrival(SinceDelivery(chunks, 0), c);
            Deliveries(chunks', 0) == Deliveries(chunks, 0) + if c.id == 0 && r.Frame? then [r.data] else []
  {
    chunks', d' := chunks + [c], Feed(d, c);
    assert chunks'[..|chunks|] == chunks;
  }

  /** All slots but the last are taken. */
  predicate TakenBut(slots: seq<Slot>, last: Slot) {
    |slots| == SLOTS && slots[99] == last && forall k :: 0 <= k < 99 ==> slots[k] == Slot(SLOTS - k, [0])
  }

  lemma LastIsFirst(slots: seq<Slot>, last: Slot)
    requires TakenBut(slots, last) && (last.id == 0 || last.id == 1)
    ensures Place(slots, last.id) == 99
  {
    FirstIs(slots, last.id, 99);
  }

  lemma AllTaken()
    ensures TakenBut(Filled(SLOTS), Slot(1, [0]))
  {
  }

  lemma LastSlotDone(slots: seq<Slot>)
    requires TakenBut(slots, Slot(1, [0]))
    ensures HasPlace(slots, 1) && Result(slots, Chunk(1, 2, [0])) == Frame([0, 0])
    ensures TakenBut(Accept(slots, Chunk(1, 2, [0])), Slot(0, []))
  {
    LastIsFirst(slots, Slot(1, [0]));
    assert [0] + [0] == [0, 0];
  }

  /** With all slots taken, a frame is finished in the last one. */
  lemma LastSlotFreed() returns (chunks: seq<Chunk>, d: Decoder)
    ensures Run(chunks) == Some(d) && TakenBut(d.slots, Slot(0, [])) && d.frames == [(1, [0, 0])]
    ensures SinceDelivery(chunks, 0) == [] && Deliveries(chunks, 0) == []
  {
    OpeningsFill(SLOTS);
    var full := Filled(SLOTS);
    AllTaken();
    LastSlotDone(full);
    chunks, d := RunOne(Openings(SLOTS), Decoder(full, []), Chunk(1, 2, [0]));
  }

  /** Id 0 takes it. */
  lemma ZeroInLastSlot() returns (chunks: seq<Chunk>, d: Decoder)
    ensures Run(chunks) == Some(d) && TakenBut(d.slots, Slot(0, [7])) && d.frames == [(1, [0, 0])]
    ensures SinceDelivery(chunks, 0) == [7] && Deliveries(chunks, 0) == []
  {
    chunks, d := LastSlotFreed();
    LastIsFirst(d.slots, Slot(0, []));
    assert [] + [7] == [7];
    chunks, d := RunOne(chunks, d, Chunk(0, 2, [7]));
  }

  /** Then slot 0 becomes free, which hides the byte of id 0. */
  lemma ZeroHidden() returns (chunks: seq<Chunk>, d: Decoder)
    ensures Run(chunks) == Some(d) && |d.slots| == SLOTS && d.slots[0] == Slot(0, [])
    ensures d.frames == [(1, [0, 0]), (100, [0, 0])]
    ensures SinceDelivery(chunks, 0) == [7] && Deliveries(chunks, 0) == []
  {
    chunks, d := ZeroInLastSlot();
    FirstIs(d.slots, 100, 0);
    assert d.slots[0].data + [0] == [0, 0];
    chunks, d := RunOne(chunks, d, Chunk(100, 2, [0]));
  }

  /** The second chunk of id 0 goes to slot 0, and the frame that is complete is not delivered. */
  lemma ZeroLosesBytes() returns (chunks: seq<Chunk>, d: Decoder)
    ensures Run(chunks) == Some(d)
    ensures Deliveries(chunks, 0) == [[7, 8]] && FramesOf(d.frames, 0) == []
    ensures SinceDelivery(chunks, 0) == [] && Pending(d.slots, 0) == [8]
  {
    chunks, d := ZeroHidden();
    FirstIs(d.slots, 0, 0);
    assert [7] + [8] == [7, 8] && [] + [8] == [8];
    chunks, d := RunOne(chunks, d, Chunk(0, 2, [8]));
    FirstIs(d.slots, 0, 0);
    FramesStep([], 1, [0, 0], 0);
    FramesStep([(1, [0, 0])], 100, [0, 0], 0);
    assert [] + [(1, [0, 0])] == [(1, [0, 0])] && [(1, [0, 0])] + [(100, [0, 0])] == d.frames;
  }
}
