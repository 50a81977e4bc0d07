/**
  The packets that carry the chunks of frames: twenty bytes of header, then the payload. A writer of
  such packets, and what reassembly makes of the packets it writes.
 */
module FramePackets {
  import opened LittleEndian
  import opened Options
  import opened FrameChunks

  // ---- writing ---------------------------------------------------------------------------------

  /** The four bytes of a number, the lowest first. */
  function Bytes4(u: nat): (s: seq<Byte>)
    requires u < 0x1_0000_0000
    ensures |s| == 4
  {
    [u % 256, u / 256 % 256, u / 65536 % 256, u / 16777216]
  }

  /** A negative number is stored as its two's complement. */
  function Int4(n: int): (s: seq<Byte>)
    requires -0x8000_0000 <= n < 0x8000_0000
    ensures |s| == 4
  {
    Bytes4(if n < 0 then n + 0x1_0000_0000 else n)
  }

  predicate Int32(n: int) {
    -0x8000_0000 <= n < 0x8000_0000
  }

  predicate Writable(c: Chunk) {
    Int32(c.id) && Int32(c.whole)
  }

  /** A packet: a tag, the size of what follows the first eight bytes, four bytes, id, whole size, payload. */
  function Packet(tag: seq<Byte>, size: nat, gap: seq<Byte>, c: Chunk): (buf: seq<Byte>)
    requires |tag| == |gap| == 4 && size < 0x1_0000_0000 && Writable(c)
    ensures |buf| == 20 + |c.payload|
  {
    tag + Bytes4(size) + gap + Int4(c.id) + Int4(c.whole) + c.payload
  }

  // ---- reading ---------------------------------------------------------------------------------

  lemma WordOfBytes4(buf: seq<Byte>, at: nat, u: nat)
    requires u < 0x1_0000_0000 && at + 4 <= |buf|
    requires forall k :: 0 <= k < 4 ==> buf[at + k] == Bytes4(u)[k]
    ensures Word(buf, at) == u
  {
    var b := Bytes4(u);
    assert buf[at + 0] == b[0] && buf[at + 1] == b[1] && buf[at + 2] == b[2] && buf[at + 3] == b[3];
    FourBytes(u);
  }

  lemma FourBytes(u: nat)
    requires u < 0x1_0000_0000
    ensures var a: int, b: int, c: int, d: int := u % 256, u / 256 % 256, u / 65536 % 256, u / 16777216;
            u == a + 256 * b + 65536 * c + 16777216 * d
  {
    assert u / 65536 == u / 256 / 256 && u / 16777216 == u / 65536 / 256;
  }

  lemma SignedBack(n: int)
    requires Int32(n)
    ensures Signed(if n < 0 then n + 0x1_0000_0000 else n) == n
  {
  }

  /** The words of a packet. */
  lemma PacketWords(tag: seq<Byte>, size: nat, gap: seq<Byte>, c: Chunk)
    requires |tag| == |gap| == 4 && size < 0x1_0000_0000 && Writable(c)
    ensures var buf := Packet(tag, size, gap, c);
            && Word(buf, 4) == size && Signed(Word(buf, 12)) == c.id && Signed(Word(buf, 16)) == c.whole
            && buf[20..] == c.payload
  {
    var buf := Packet(tag, size, gap, c);
    var id := if c.id < 0 then c.id + 0x1_0000_0000 else c.id;
    var whole := if c.whole < 0 then c.whole + 0x1_0000_0000 else c.whole;
    WordOfBytes4(buf, 4, size);
    WordOfBytes4(buf, 12, id);
    WordOfBytes4(buf, 16, whole);
    SignedBack(c.id);
    SignedBack(c.whole);
  }

  /**
    A packet is parsed as the chunk it was written for. It is refused exactly if the version has no
    chunks, the whole size is negative, or the size field, in 32 bits, promises more than there is.
   */
  lemma PacketRead(tag: seq<Byte>, size: nat, gap: seq<Byte>, c: Chunk, version: int)
    requires |tag| == |gap| == 4 && size < 0x1_0000_0000 && Writable(c)
    ensures Parse(Packet(tag, size, gap, c), version)
            == if version > 1 && c.whole >= 0 && (size + 8) % 0x1_0000_0000 <= 20 + |c.payload| then Some(c) else None
  {
    PacketWords(tag, size, gap, c);
  }

  /** Less than a header is refused, and everything else is a packet of some chunk. */
  lemma EveryPacket(buf: seq<Byte>, version: int) returns (tag: seq<Byte>, size: nat, gap: seq<Byte>, c: Chunk)
    requires |buf| >= 20
    ensures |tag| == |gap| == 4 && size < 0x1_0000_0000 && Writable(c) && buf == Packet(tag, size, gap, c)
  {
    tag, gap := buf[..4], buf[8..12];
    size := Word(buf, 4);
    c := Chunk(Signed(Word(buf, 12)), Signed(Word(buf, 16)), buf[20..]);
    BytesOfWord(buf, 4);
    BytesOfWord(buf, 12);
    BytesOfWord(buf, 16);
    assert Bytes4(size) == buf[4..8] && Int4(c.id) == buf[12..16] && Int4(c.whole) == buf[16..20];
    assert buf == buf[..4] + buf[4..8] + buf[8..12] + buf[12..16] + buf[16..20] + buf[20..];
  }

  lemma BytesOfWord(buf: seq<Byte>, at: nat)
    requires at + 4 <= |buf|
    ensures Bytes4(Word(buf, at)) == buf[at..at + 4]
  {
    var b0: int, b1: int, b2: int, b3: int := buf[at], buf[at + 1], buf[at + 2], buf[at + 3];
    BytesOfSum(b0, b1, b2, b3);
  }

  lemma BytesOfSum(a: int, b: int, c: int, d: int)
    requires 0 <= a < 256 && 0 <= b < 256 && 0 <= c < 256 && 0 <= d < 256
    ensures var u := a + 256 * b + 65536 * c + 16777216 * d;
            u % 256 == a && u / 256 % 256 == b && u / 65536 % 256 == c && u / 16777216 == d
  {
    var u := a + 256 * b + 65536 * c + 16777216 * d;
    assert u / 256 == b + 256 * c + 65536 * d;
    assert u / 65536 == c + 256 * d;
  }

  // ---- runs over packets -----------------------------------------------------------------------

  /** What the cfrm branch makes of one packet after another; a packet it refuses changes nothing. */
  function RunPackets(packets: seq<seq<Byte>>, version: int): Option<Decoder> {
    if packets == [] then Some(Decoder(Empty(), []))
    else
      var before, c := RunPackets(packets[..|packets| - 1], version), Parse(packets[|packets| - 1], version);
      if before.None? then None
      else if c.None? then before
      else if !HasPlace(before.value.slots, c.value.id) then None
      else Some(Feed(before.value, c.value))
  }

  /** The frames alone. */
  function Contents(frames: seq<(int, seq<Byte>)>): (s: seq<seq<Byte>>)
    ensures |s| == |frames|
  {
    seq(|frames|, i requires 0 <= i < |frames| => frames[i].1)
  }

  lemma {:induction false} RunPrefix(packets: seq<seq<Byte>>, version: int, n: nat)
    requires n <= |packets| && RunPackets(packets[..n], version).None?
    ensures RunPackets(packets, version).None?
  {
    if n < |packets| {
      var before := packets[..|packets| - 1];
      assert before[..n] == packets[..n];
      RunPrefix(before, version, n);
    } else {
      assert packets[..n] == packets;
    }
  }

  lemma PacketsOneMore(packets: seq<seq<Byte>>, version: int, i: nat)
    requires i < |packets| && RunPackets(packets[..i], version).Some?
    ensures var before, c := RunPackets(packets[..i], version).value, Parse(packets[i], version);
            RunPackets(packets[..i + 1], version)
            == if c.None? then Some(before)
               else if !HasPlace(before.slots, c.value.id) then None else Some(Feed(before, c.value))
  {
    assert packets[..i + 1][..i] == packets[..i];
  }

  /** The decoder given one packet after another, as far as the reassembly of frames goes. */
  method DecodePackets(packets: seq<seq<Byte>>, version: int) returns (frames: seq<seq<Byte>>, overrun: bool)
    requires forall i :: 0 <= i < |packets| ==> |packets[i]| < 0x8000_0000
    ensures overrun <==> RunPackets(packets, version).None?
    ensures !overrun ==> frames == Contents(RunPackets(packets, version).value.frames)
  {
    var decoder := new Reassembler(version);
    frames := [];
    for i := 0 to |packets|
      invariant decoder.Valid() && decoder.version == version && fresh(decoder.cfrm)
      invariant RunPackets(packets[..i], version).Some?
      invariant decoder.cfrm[..] == RunPackets(packets[..i], version).value.slots
      invariant frames == Contents(RunPackets(packets[..i], version).value.frames)
    {
      PacketsOneMore(packets, version, i);
      var outcome := decoder.AddChunk(packets[i]);
      if outcome.Overrun? {
        RunPrefix(packets, version, i + 1);
        return frames, true;
      }
      if outcome.Frame? {
        frames := frames + [outcome.data];
      }
    }
    assert packets[..|packets|] == packets;
    overrun := false;
  }

  /** One packet that a chunk of a known frame was written into. */
  predicate Carries(buf: seq<Byte>, c: Chunk) {
    && Writable(c) && c.whole >= 0 && |buf| == 20 + |c.payload| < 0x8000_0000
    && buf[4..8] == Bytes4(12 + |c.payload|) && buf[12..16] == Int4(c.id)
    && buf[16..20] == Int4(c.whole) && buf[20..] == c.payload
  }

  lemma CarriedRead(buf: seq<Byte>, c: Chunk, version: int)
    requires Carries(buf, c) && version > 1
    ensures Parse(buf, version) == Some(c)
  {
    var size := 12 + |c.payload|;
    assert buf == buf[..4] + buf[4..8] + buf[8..12] + buf[12..16] + buf[16..20] + buf[20..];
    assert buf == Packet(buf[..4], size, buf[8..12], c);
    PacketRead(buf[..4], size, buf[8..12], c, version);
  }

  predicate AllCarry(packets: seq<seq<Byte>>, chunks: seq<Chunk>) {
    && |packets| == |chunks|
    && forall i :: 0 <= i < |packets| ==> Carries(packets[i], chunks[i])
  }

  lemma {:induction false} PacketsRun(packets: seq<seq<Byte>>, chunks: seq<Chunk>, version: int)
    requires AllCarry(packets, chunks) && version > 1
    ensures RunPackets(packets, version) == Run(chunks)
  {
    if packets != [] {
      PacketsRun(packets[..|packets| - 1], chunks[..|chunks| - 1], version);
      CarriedRead(packets[|packets| - 1], chunks[|chunks| - 1], version);
    }
  }

  /**
    Frames that were cut, written into packets and mixed with the packets of any other chunks are
    delivered whole, each once and in order; under id 0 if no chunk hides its bytes.
   */
  lemma FramesSurvivePackets(packets: seq<seq<Byte>>, chunks: seq<Chunk>, version: int,
                             id: int, frames: seq<Parts>)
    requires AllCarry(packets, chunks) && version > 1
    requires RunPackets(packets, version).Some?
    requires Run(chunks).Some? ==> (id == 0 ==> NeverStrands(chunks))
    requires Only(chunks, id) == Encode(id, frames) && forall i :: 0 <= i < |frames| ==> Cut(frames[i])
    ensures FramesOf(RunPackets(packets, version).value.frames, id) == Joined(frames)
    ensures Pending(RunPackets(packets, version).value.slots, id) == []
  {
    PacketsRun(packets, chunks, version);
    FramesSurvive(chunks, id, frames);
  }
}
