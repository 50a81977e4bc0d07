/**
  The unpacker of 012v.c: six pixels of 10-bit 4:2:2 video lie in four 32-bit words, three samples a
  word. Lines are decoded in groups of six; the last group may be cut short on either side.

  The reference is a packer, and a description of each sample by the word and field it lies in.
 */
module Unpack012v {
  import opened LittleEndian
  import opened Options

  /** A sample that was not there. */
  const GREY := 0x8000

  /** Field f of a word, moved to the top of 16 bits. */
  function Field(t: nat, f: nat): nat {
    if f == 0 then t % 1024 * 64 else if f == 1 then t / 1024 % 1024 * 64 else t / 1048576 % 1024 * 64
  }

  // ---- where a sample lies ---------------------------------------------------------------------

  function YWord(m: nat): nat {
    if m == 0 then 0 else if m == 1 || m == 2 then 1 else if m == 3 then 2 else 3
  }

  function YField(m: nat): nat {
    if m == 0 || m == 3 then 1 else if m == 1 || m == 4 then 0 else 2
  }

  function UWord(m: nat): nat {
    m
  }

  function UField(m: nat): nat {
    m
  }

  function VWord(m: nat): nat {
    if m == 0 then 0 else if m == 1 then 2 else 3
  }

  function VField(m: nat): nat {
    if m == 0 then 2 else if m == 1 then 0 else 1
  }

  /** The sample in a field of a word of a line, or grey if the line ends before the word does. */
  function Sample(line: seq<Byte>, word: nat, field: nat): nat {
    if 4 * word + 4 <= |line| then Field(Word(line, 4 * word), field) else GREY
  }

  function Y(line: seq<Byte>, j: nat): nat {
    Sample(line, 4 * (j / 6) + YWord(j % 6), YField(j % 6))
  }

  function U(line: seq<Byte>, j: nat): nat {
    Sample(line, 4 * (j / 3) + UWord(j % 3), UField(j % 3))
  }

  function V(line: seq<Byte>, j: nat): nat {
    Sample(line, 4 * (j / 3) + VWord(j % 3), VField(j % 3))
  }

  /** The ten bits from bit 10 * f on of the four bytes at an offset, moved to the top of 16. */
  predicate TenBits(line: seq<Byte>, at: nat, f: nat, v: int) {
    && at + 4 <= |line|
    && var b0: int, b1: int, b2: int, b3: int := line[at], line[at + 1], line[at + 2], line[at + 3];
       var word := b0 + 256 * b1 + 65536 * b2 + 16777216 * b3;
       v == 64 * ((if f == 0 then word else if f == 1 then word / 1024 else word / 1048576) % 1024)
  }

  /**
    The layout of six pixels in sixteen bytes. The words hold, from the low bits up: the first sample of
    u, y and v; the second of y and u and the third of y; the second of v, the fourth of y and the third
    of u; and the fifth of y, the third of v and the sixth of y.
   */
  lemma GroupLayout(line: seq<Byte>, g: nat, at: nat, j: nat, c: nat)
    requires at == 16 * g && j == 6 * g && c == 3 * g && at + 16 <= |line|
    ensures TenBits(line, at, 0, U(line, c)) && TenBits(line, at, 1, Y(line, j)) && TenBits(line, at, 2, V(line, c))
    ensures TenBits(line, at + 4, 0, Y(line, j + 1)) && TenBits(line, at + 4, 1, U(line, c + 1))
    ensures TenBits(line, at + 4, 2, Y(line, j + 2)) && TenBits(line, at + 8, 0, V(line, c + 1))
    ensures TenBits(line, at + 8, 1, Y(line, j + 3)) && TenBits(line, at + 8, 2, U(line, c + 2))
    ensures TenBits(line, at + 12, 0, Y(line, j + 4)) && TenBits(line, at + 12, 1, V(line, c + 2))
    ensures TenBits(line, at + 12, 2, Y(line, j + 5))
  {
    YBits(line, g, at, 0, j);
    YBits(line, g, at + 4, 1, j + 1);
    YBits(line, g, at + 4, 2, j + 2);
    YBits(line, g, at + 8, 3, j + 3);
    YBits(line, g, at + 12, 4, j + 4);
    YBits(line, g, at + 12, 5, j + 5);
    UBits(line, g, at, 0, c);
    UBits(line, g, at + 4, 1, c + 1);
    UBits(line, g, at + 8, 2, c + 2);
    VBits(line, g, at, 0, c);
    VBits(line, g, at + 8, 1, c + 1);
    VBits(line, g, at + 12, 2, c + 2);
  }

  lemma YBits(line: seq<Byte>, g: nat, at: nat, m: nat, j: nat)
    requires m < 6 && j == 6 * g + m && at == 16 * g + 4 * YWord(m) && at + 4 <= |line|
    ensures TenBits(line, at, YField(m), Y(line, j))
  {
    assert j / 6 == g && j % 6 == m;
    FieldBits(line, at, YField(m));
  }

  lemma UBits(line: seq<Byte>, g: nat, at: nat, m: nat, j: nat)
    requires m < 3 && j == 3 * g + m && at == 16 * g + 4 * UWord(m) && at + 4 <= |line|
    ensures TenBits(line, at, UField(m), U(line, j))
  {
    assert j / 3 == g && j % 3 == m;
    FieldBits(line, at, UField(m));
  }

  lemma VBits(line: seq<Byte>, g: nat, at: nat, m: nat, j: nat)
    requires m < 3 && j == 3 * g + m && at == 16 * g + 4 * VWord(m) && at + 4 <= |line|
    ensures TenBits(line, at, VField(m), V(line, j))
  {
    assert j / 3 == g && j % 3 == m;
    FieldBits(line, at, VField(m));
  }

  lemma FieldBits(line: seq<Byte>, at: nat, f: nat)
    requires at + 4 <= |line| && f < 3
    ensures TenBits(line, at, f, Field(Word(line, at), f))
  {
  }

  // ---- one group -------------------------------------------------------------------------------

  /** How many of the four words of the group at src are there. */
  function Words(line: seq<Byte>, src: nat): nat {
    if |line| < src + 4 then 0 else if |line| < src + 8 then 1
    else if |line| < src + 12 then 2 else if |line| < src + 16 then 3 else 4
  }

  /** Sample m of a plane of the group at src, if its word is there, or what was there before. */
  function Put(line: seq<Byte>, src: nat, word: nat, field: nat, before: int): int
    requires word < 4
  {
    if word < Words(line, src) then Field(Word(line, src + 4 * word), field) else before
  }

  function PutY(line: seq<Byte>, src: nat, before: seq<int>): (s: seq<int>)
    requires |before| == 6
    ensures |s| == 6
  {
    seq(6, m requires 0 <= m < 6 => Put(line, src, YWord(m), YField(m), before[m]))
  }

  function PutU(line: seq<Byte>, src: nat, before: seq<int>): (s: seq<int>)
    requires |before| == 3
    ensures |s| == 3
  {
    seq(3, m requires 0 <= m < 3 => Put(line, src, UWord(m), UField(m), before[m]))
  }

  function PutV(line: seq<Byte>, src: nat, before: seq<int>): (s: seq<int>)
    requires |before| == 3
    ensures |s| == 3
  {
    seq(3, m requires 0 <= m < 3 => Put(line, src, VWord(m), VField(m), before[m]))
  }

  /** Only entries from at on, n of them, have changed. */
  predicate Outside(row: seq<int>, was: seq<int>, at: nat, n: nat) {
    |row| == |was| && forall k :: 0 <= k < |row| && !(at <= k < at + n) ==> row[k] == was[k]
  }

  /** The body of the loop over groups, up to the first break for want of input. */
  method UnpackWords(line: seq<Byte>, src: nat, y: array<int>, yi: nat, u: array<int>, ui: nat, v: array<int>, vi: nat)
    returns (complete: bool)
    requires y != u && u != v && y != v
    requires yi + 6 <= y.Length && ui + 3 <= u.Length && vi + 3 <= v.Length
    modifies y, u, v
    ensures complete == (Words(line, src) == 4)
    ensures forall m :: 0 <= m < 6 ==> y[yi + m] == Put(line, src, YWord(m), YField(m), old(y[yi + m]))
    ensures forall m :: 0 <= m < 3 ==> u[ui + m] == Put(line, src, UWord(m), UField(m), old(u[ui + m]))
    ensures forall m :: 0 <= m < 3 ==> v[vi + m] == Put(line, src, VWord(m), VField(m), old(v[vi + m]))
    ensures forall k :: 0 <= k < y.Length && !(yi <= k < yi + 6) ==> y[k] == old(y[k])
    ensures forall k :: 0 <= k < u.Length && !(ui <= k < ui + 3) ==> u[k] == old(u[k])
    ensures forall k :: 0 <= k < v.Length && !(vi <= k < vi + 3) ==> v[k] == old(v[k])
  {
    if |line| < src + 4 {
      return false;
    }
    var t := Word(line, src);
    u[ui] := Field(t, 0);
    y[yi] := Field(t, 1);
    v[vi] := Field(t, 2);
    if |line| < src + 8 {
      return false;
    }
    t := Word(line, src + 4);
    y[yi + 1] := Field(t, 0);
    u[ui + 1] := Field(t, 1);
    y[yi + 2] := Field(t, 2);
    if |line| < src + 12 {
      return false;
    }
    t := Word(line, src + 8);
    v[vi + 1] := Field(t, 0);
    y[yi + 3] := Field(t, 1);
    u[ui + 2] := Field(t, 2);
    if |line| < src + 16 {
      return false;
    }
    t := Word(line, src + 12);
    y[yi + 4] := Field(t, 0);
    v[vi + 2] := Field(t, 1);
    y[yi + 5] := Field(t, 2);
    complete := true;
  }

  /** The same on slices of the planes. */
  method Unpack(line: seq<Byte>, src: nat, y: array<int>, yi: nat, u: array<int>, ui: nat, v: array<int>, vi: nat)
    returns (complete: bool)
    requires y != u && u != v && y != v
    requires yi + 6 <= y.Length && ui + 3 <= u.Length && vi + 3 <= v.Length
    modifies y, u, v
    ensures complete == (Words(line, src) == 4)
    ensures y[yi..yi + 6] == PutY(line, src, old(y[yi..yi + 6])) && Outside(y[..], old(y[..]), yi, 6)
    ensures u[ui..ui + 3] == PutU(line, src, old(u[ui..ui + 3])) && Outside(u[..], old(u[..]), ui, 3)
    ensures v[vi..vi + 3] == PutV(line, src, old(v[vi..vi + 3])) && Outside(v[..], old(v[..]), vi, 3)
  {
    complete := UnpackWords(line, src, y, yi, u, ui, v, vi);
  }

  // ---- the stride ------------------------------------------------------------------------------

  datatype Result = Ok(stride: nat) | InvalidData

  /** The bytes of a line, or an error: the packet's own stride is taken when it divides and suffices. */
  function Stride(tag012v: bool, size: nat, width: int, height: int): Result {
    if width <= 1 || height <= 0 then InvalidData
    else
      var own := tag012v && size % height == 0 && size / height * 3 >= width * 8;
      var stride := if own then size / height else width * 8 / 3;
      if size < height * stride then InvalidData else Ok(stride)
  }

  /** Under both choices a full group of six pixels has all its sixteen bytes. */
  lemma FullGroupAvailable(tag012v: bool, size: nat, width: int, height: int, x: nat)
    requires Stride(tag012v, size, width, height).Ok? && x % 6 == 0 && x + 6 <= width
    ensures 16 * (x / 6) + 16 <= Stride(tag012v, size, width, height).stride
  {
  }

  // ---- one line --------------------------------------------------------------------------------

  function YRow(line: seq<Byte>, from: nat, n: nat): (s: seq<int>)
    ensures |s| == n
  {
    seq(n, j requires 0 <= j < n => Y(line, from + j))
  }

  function URow(line: seq<Byte>, from: nat, n: nat): (s: seq<int>)
    ensures |s| == n
  {
    seq(n, j requires 0 <= j < n => U(line, from + j))
  }

  function VRow(line: seq<Byte>, from: nat, n: nat): (s: seq<int>)
    ensures |s| == n
  {
    seq(n, j requires 0 <= j < n => V(line, from + j))
  }

  /** What is there before a group does not matter if it is complete, or grey. */
  predicate Irrelevant(line: seq<Byte>, src: nat, before: seq<int>) {
    Words(line, src) == 4 || forall m :: 0 <= m < |before| ==> before[m] == GREY
  }

  lemma PutIsSample(line: seq<Byte>, g: nat, src: nat, word: nat, field: nat, before: int, index: nat)
    requires src == 16 * g && word < 4 && index == 4 * g + word && (Words(line, src) == 4 || before == GREY)
    ensures Put(line, src, word, field, before) == Sample(line, index, field)
  {
    assert src + 4 * word == 4 * index;
  }

  lemma GroupY(line: seq<Byte>, g: nat, src: nat, from: nat, before: seq<int>)
    requires src == 16 * g && from == 6 * g && |before| == 6 && Irrelevant(line, src, before)
    ensures PutY(line, src, before) == YRow(line, from, 6)
  {
    forall m: nat | m < 6 ensures PutY(line, src, before)[m] == YRow(line, from, 6)[m] {
      var j := from + m;
      assert j / 6 == g && j % 6 == m;
      assert Y(line, j) == Sample(line, 4 * g + YWord(m), YField(m));
      assert YRow(line, from, 6)[m] == Y(line, j);
      PutIsSample(line, g, src, YWord(m), YField(m), before[m], 4 * g + YWord(m));
    }
  }

  lemma GroupU(line: seq<Byte>, g: nat, src: nat, from: nat, before: seq<int>)
    requires src == 16 * g && from == 3 * g && |before| == 3 && Irrelevant(line, src, before)
    ensures PutU(line, src, before) == URow(line, from, 3)
  {
    forall m: nat | m < 3 ensures PutU(line, src, before)[m] == URow(line, from, 3)[m] {
      var j := from + m;
      assert j / 3 == g && j % 3 == m;
      assert U(line, j) == Sample(line, 4 * g + UWord(m), UField(m));
      assert URow(line, from, 3)[m] == U(line, j);
      PutIsSample(line, g, src, UWord(m), UField(m), before[m], 4 * g + UWord(m));
    }
  }

  lemma GroupV(line: seq<Byte>, g: nat, src: nat, from: nat, before: seq<int>)
    requires src == 16 * g && from == 3 * g && |before| == 3 && Irrelevant(line, src, before)
    ensures PutV(line, src, before) == VRow(line, from, 3)
  {
    forall m: nat | m < 3 ensures PutV(line, src, before)[m] == VRow(line, from, 3)[m] {
      var j := from + m;
      assert j / 3 == g && j % 3 == m;
      assert V(line, j) == Sample(line, 4 * g + VWord(m), VField(m));
      assert VRow(line, from, 3)[m] == V(line, j);
      PutIsSample(line, g, src, VWord(m), VField(m), before[m], 4 * g + VWord(m));
    }
  }

  /** The samples of a last group, grey where the line has ended. */
  method LastGroup(line: seq<Byte>, g: nat) returns (y: array<int>, u: array<int>, v: array<int>, complete: bool)
    ensures fresh(y) && fresh(u) && fresh(v)
    ensures complete == (Words(line, 16 * g) == 4)
    ensures y[..] == YRow(line, 6 * g, 6) && u[..] == URow(line, 3 * g, 3) && v[..] == VRow(line, 3 * g, 3)
  {
    y := new int[6](_ => GREY);
    u := new int[3](_ => GREY);
    v := new int[3](_ => GREY);
    GroupY(line, g, 16 * g, 6 * g, y[0..6]);
    GroupU(line, g, 16 * g, 3 * g, u[0..3]);
    GroupV(line, g, 16 * g, 3 * g, v[0..3]);
    complete := Unpack(line, 16 * g, y, 0, u, 0, v, 0);
    assert y[..] == y[0..6] && u[..] == u[0..3] && v[..] == v[0..3];
  }

  lemma YSplits(line: seq<Byte>, n: nat, m: nat, sum: nat)
    requires sum == n + m
    ensures YRow(line, 0, sum) == YRow(line, 0, n) + YRow(line, n, m)
  {
  }

  lemma CSplits(line: seq<Byte>, n: nat, m: nat, sum: nat)
    requires sum == n + m
    ensures URow(line, 0, sum) == URow(line, 0, n) + URow(line, n, m)
    ensures VRow(line, 0, sum) == VRow(line, 0, n) + VRow(line, n, m)
  {
  }

  /** The first n samples of a row are in place, and nothing else has changed. */
  predicate Written(plane: seq<int>, was: seq<int>, at: nat, row: seq<int>) {
    at + |row| <= |plane| && plane[at..at + |row|] == row && Outside(plane, was, at, |row|)
  }

  /** Writing behind what is written extends it. */
  lemma WrittenExtends(plane: seq<int>, was: seq<int>, at: nat, row: seq<int>,
                       next: seq<int>, after: seq<int>, end: nat)
    requires Written(plane, was, at, row) && end == at + |row| && end + |after| <= |plane|
    requires |next| == |plane| && next[end..end + |after|] == after && Outside(next, plane, end, |after|)
    ensures Written(next, was, at, row + after)
  {
    var whole := row + after;
    forall j | 0 <= j < |whole| ensures next[at..at + |whole|][j] == whole[j] {
      if j < |row| {
        assert next[at + j] == plane[at + j] == plane[at..end][j];
      } else {
        assert next[at + j] == next[end..end + |after|][j - |row|];
      }
    }
  }

  /** memcpy of the first n samples behind what is written. */
  method Append(dst: array<int>, at: nat, src: array<int>, n: nat,
                ghost was: seq<int>, ghost start: nat, ghost row: seq<int>)
    requires dst != src && at + n <= dst.Length && n <= src.Length
    requires at == start + |row| && Written(dst[..], was, start, row)
    modifies dst
    ensures Written(dst[..], was, start, row + src[..n])
  {
    ghost var before := dst[..];
    var i: nat := 0;
    while i < n
      invariant i <= n
      invariant forall k :: 0 <= k < i ==> dst[at + k] == src[k]
      invariant forall k :: 0 <= k < dst.Length && !(at <= k < at + i) ==> dst[k] == before[k]
    {
      dst[at + i] := src[i];
      i := i + 1;
    }
    assert dst[at..at + n] == src[..n];
    WrittenExtends(before, was, start, row, dst[..], src[..n], at);
  }

  /** The three planes of a picture before a line, and where the line starts in them. */
  datatype Origin = Origin(y: seq<int>, u: seq<int>, v: seq<int>, yo: nat, uo: nat, vo: nat)

  /** The first samples of a line are in place: n of luma, and c of each chroma plane. */
  predicate LineWritten(o: Origin, line: seq<Byte>, y: seq<int>, u: seq<int>, v: seq<int>, n: nat, c: nat) {
    && Written(y, o.y, o.yo, YRow(line, 0, n))
    && Written(u, o.u, o.uo, URow(line, 0, c))
    && Written(v, o.v, o.vo, VRow(line, 0, c))
  }

  /** A full group goes straight into the picture, at luma sample n and chroma sample c. */
  method FullGroup(line: seq<Byte>, g: nat, n: nat, c: nat,
                   y: array<int>, yi: nat, u: array<int>, ui: nat, v: array<int>, vi: nat, ghost o: Origin)
    requires y != u && u != v && y != v && n == 6 * g && c == 3 * g && 16 * g + 16 <= |line|
    requires yi == o.yo + n && ui == o.uo + c && vi == o.vo + c
    requires yi + 6 <= y.Length && ui + 3 <= u.Length && vi + 3 <= v.Length
    requires LineWritten(o, line, y[..], u[..], v[..], n, c)
    modifies y, u, v
    ensures LineWritten(o, line, y[..], u[..], v[..], n + 6, c + 3)
  {
    ghost var y1, u1, v1 := y[..], u[..], v[..];
    GroupY(line, g, 16 * g, n, y[yi..yi + 6]);
    GroupU(line, g, 16 * g, c, u[ui..ui + 3]);
    GroupV(line, g, 16 * g, c, v[vi..vi + 3]);
    var complete := Unpack(line, 16 * g, y, yi, u, ui, v, vi);
    GroupWritten(o, line, y1, u1, v1, y[..], u[..], v[..], n, c);
  }

  /** A group of samples behind what is written extends all three planes. */
  lemma GroupWritten(o: Origin, line: seq<Byte>, y1: seq<int>, u1: seq<int>, v1: seq<int>,
                     y: seq<int>, u: seq<int>, v: seq<int>, n: nat, c: nat)
    requires LineWritten(o, line, y1, u1, v1, n, c)
    requires var yi := o.yo + n; yi + 6 <= |y| && Outside(y, y1, yi, 6) && y[yi..yi + 6] == YRow(line, n, 6)
    requires var ui := o.uo + c; ui + 3 <= |u| && Outside(u, u1, ui, 3) && u[ui..ui + 3] == URow(line, c, 3)
    requires var vi := o.vo + c; vi + 3 <= |v| && Outside(v, v1, vi, 3) && v[vi..vi + 3] == VRow(line, c, 3)
    ensures LineWritten(o, line, y, u, v, n + 6, c + 3)
  {
    YSplits(line, n, 6, n + 6);
    CSplits(line, c, 3, c + 3);
    WrittenExtends(y1, o.y, o.yo, YRow(line, 0, n), y, YRow(line, n, 6), o.yo + n);
    WrittenExtends(u1, o.u, o.uo, URow(line, 0, c), u, URow(line, c, 3), o.uo + c);
    WrittenExtends(v1, o.v, o.vo, VRow(line, 0, c), v, VRow(line, c, 3), o.vo + c);
  }

  /** What memcpy leaves of a sample when it copies the first of its two bytes, on a little-endian machine. */
  function FirstByte(was: int, sample: int): (r: int)
    ensures r % 256 == sample % 256 && r / 256 == was / 256
  {
    was / 256 * 256 + sample % 256
  }

  /** A row is in place; of the sample behind it the first byte may have been overwritten too. */
  predicate WrittenTo(plane: seq<int>, was: seq<int>, at: nat, row: seq<int>, spilt: Option<int>) {
    match spilt
    case None => Written(plane, was, at, row)
    case Some(sample) =>
      var end := at + |row|;
      && end < |plane| == |was| && plane[at..end] == row && plane[end] == FirstByte(was[end], sample)
      && Outside(plane, was, at, |row| + 1)
  }

  /** The odd byte at the end of a copy. */
  method CopyByte(plane: array<int>, at: nat, sample: int, ghost was: seq<int>, ghost start: nat, ghost row: seq<int>)
    requires at == start + |row| < plane.Length && Written(plane[..], was, start, row)
    modifies plane
    ensures WrittenTo(plane[..], was, start, row, Some(sample))
  {
    plane[at] := FirstByte(plane[at], sample);
  }

  /**
    The last group is decoded aside, and its k visible samples are copied. Of each chroma plane k + 1
    bytes are copied, which is half a sample too many when k is even.
   */
  method Tail(line: seq<Byte>, g: nat, n: nat, c: nat, k: nat,
              y: array<int>, yi: nat, u: array<int>, ui: nat, v: array<int>, vi: nat,
              ghost o: Origin, ghost n': nat, ghost c': nat)
    requires y != u && u != v && y != v && n == 6 * g && c == 3 * g && k < 6 && n' == n + k && c' == c + (k + 1) / 2
    requires yi == o.yo + n && ui == o.uo + c && vi == o.vo + c
    requires yi + k <= y.Length && ui + k / 2 + 1 <= u.Length && vi + k / 2 + 1 <= v.Length
    requires LineWritten(o, line, y[..], u[..], v[..], n, c)
    modifies y, u, v
    ensures LineDone(o, line, y[..], u[..], v[..], n', c', k % 2 == 0)
  {
    var yt, ut, vt, complete := LastGroup(line, g);
    var h := (k + 1) / 2;
    YSplits(line, n, k, n');
    CSplits(line, c, h, c');
    RowStarts(line, n, c, k, h);
    Append(y, yi, yt, k, o.y, o.yo, YRow(line, 0, n));
    Append(u, ui, ut, h, o.u, o.uo, URow(line, 0, c));
    Append(v, vi, vt, h, o.v, o.vo, VRow(line, 0, c));
    if k % 2 == 0 {
      assert ut[h] == ut[..][h] == U(line, c') && vt[h] == vt[..][h] == V(line, c');
      CopyByte(u, ui + h, ut[h], o.u, o.uo, URow(line, 0, c'));
      CopyByte(v, vi + h, vt[h], o.v, o.vo, VRow(line, 0, c'));
    }
  }

  /** A line is in place: n samples of luma, and c of each chroma plane, with half of the next one if spills. */
  predicate LineDone(o: Origin, line: seq<Byte>, y: seq<int>, u: seq<int>, v: seq<int>, n: nat, c: nat, spills: bool) {
    && Written(y, o.y, o.yo, YRow(line, 0, n))
    && WrittenTo(u, o.u, o.uo, URow(line, 0, c), if spills then Some(U(line, c)) else None)
    && WrittenTo(v, o.v, o.vo, VRow(line, 0, c), if spills then Some(V(line, c)) else None)
  }

  lemma RowStarts(line: seq<Byte>, from: nat, chroma: nat, n: nat, c: nat)
    requires n <= 6 && c <= 3
    ensures YRow(line, from, 6)[..n] == YRow(line, from, n)
    ensures URow(line, chroma, 3)[..c] == URow(line, chroma, c) && VRow(line, chroma, 3)[..c] == VRow(line, chroma, c)
  {
  }

  lemma NothingWritten(o: Origin, line: seq<Byte>)
    requires o.yo <= |o.y| && o.uo <= |o.u| && o.vo <= |o.v|
    ensures LineWritten(o, line, o.y, o.u, o.v, 0, 0)
  {
  }

  /** A full group of pixels has its bytes, and room in the chroma planes. */
  lemma GroupRoom(g: nat, x: nat, width: nat, length: nat)
    requires width * 8 / 3 <= length && x == 6 * g && x + 6 <= width
    ensures 16 * g + 16 <= length && 3 * g + 3 <= (width + 1) / 2
  {
  }

  /** The width leaves a last group with an even number of pixels. */
  predicate SpillsByte(width: nat) {
    width % 6 == 2 || width % 6 == 4
  }

  /** How many samples of a chroma plane a line touches. */
  function ChromaRoom(width: nat): nat {
    (width + 1) / 2 + if SpillsByte(width) then 1 else 0
  }

  /** What is left of a line behind its full groups. */
  method FinishLine(line: seq<Byte>, g: nat, x: nat, c: nat, width: nat,
                    y: array<int>, yo: nat, u: array<int>, uo: nat, v: array<int>, vo: nat, ghost o: Origin)
    requires y != u && u != v && y != v && x == 6 * g && c == 3 * g && x <= width < x + 6
    requires yo == o.yo && uo == o.uo && vo == o.vo
    requires yo + width <= y.Length && uo + ChromaRoom(width) <= u.Length && vo + ChromaRoom(width) <= v.Length
    requires LineWritten(o, line, y[..], u[..], v[..], x, c)
    modifies y, u, v
    ensures LineDone(o, line, y[..], u[..], v[..], width, (width + 1) / 2, SpillsByte(width))
  {
    ghost var chroma: nat := (width + 1) / 2;
    TailRoom(g, x, width - x, width);
    if x < width {
      Tail(line, g, x, c, width - x, y, yo + x, u, uo + c, v, vo + c, o, width, chroma);
    } else {
      assert x == width && c == chroma;
    }
  }

  /** The loop over the groups of a line. */
  method DecodeLine(line: seq<Byte>, width: nat, y: array<int>, yo: nat, u: array<int>, uo: nat, v: array<int>, vo: nat)
    requires y != u && u != v && y != v && width * 8 / 3 <= |line|
    requires yo + width <= y.Length && uo + ChromaRoom(width) <= u.Length && vo + ChromaRoom(width) <= v.Length
    modifies y, u, v
    ensures LineDone(old(Origin(y[..], u[..], v[..], yo, uo, vo)), line,
                     y[..], u[..], v[..], width, (width + 1) / 2, SpillsByte(width))
  {
    ghost var o := Origin(y[..], u[..], v[..], yo, uo, vo);
    var x: nat, c: nat, src: nat, g: nat := 0, 0, 0, 0;
    NothingWritten(o, line);
    while x < width
      invariant x == 6 * g && c == 3 * g && src == 16 * g && x <= width
      invariant LineWritten(o, line, y[..], u[..], v[..], x, c)
    {
      if width - x < 6 || |line| - src < 16 {
        break;
      }
      GroupRoom(g, x, width, |line|);
      FullGroup(line, g, x, c, y, yo + x, u, uo + c, v, vo + c, o);
      x, c, src, g := x + 6, c + 3, src + 16, g + 1;
    }
    if x + 6 <= width {
      GroupRoom(g, x, width, |line|);
    }
    FinishLine(line, g, x, c, width, y, yo, u, uo, v, vo, o);
  }

  lemma TailRoom(g: nat, x: nat, k: nat, width: nat)
    requires x == 6 * g && width == x + k && k < 6
    ensures 3 * g + (k + 1) / 2 == (width + 1) / 2
    ensures SpillsByte(width) <==> k > 0 && k % 2 == 0
    ensures k > 0 ==> 3 * g + k / 2 + 1 == ChromaRoom(width)
  {
    assert width % 6 == k;
  }

  // ---- a frame ---------------------------------------------------------------------------------

  /** Line k of a packet. */
  function Line(data: seq<Byte>, stride: nat, k: nat): seq<Byte> {
    if k * stride + stride <= |data| then data[k * stride..k * stride + stride] else []
  }

  function RowStart(k: nat, size: nat): nat {
    k * size
  }

  lemma RowsApart(j: nat, k: nat, size: nat)
    requires j < k
    ensures RowStart(j, size) + size <= RowStart(k, size)
  {
    var d: nat := k - j;
    MoreRows(d, size);
    Distributes(j, d, size);
  }

  lemma MoreRows(d: nat, size: nat)
    requires d >= 1
    ensures d * size >= size
  {
  }

  lemma Distributes(j: nat, d: nat, size: nat)
    ensures (j + d) * size == j * size + d * size
  {
  }

  predicate RowIs(plane: seq<int>, at: nat, row: seq<int>) {
    at + |row| <= |plane| && plane[at..at + |row|] == row
  }

  /** The first lines of a plane are rows, which are no longer than the line size. */
  predicate PlaneDone(plane: seq<int>, size: nat, rows: nat -> seq<int>, lines: nat) {
    forall k: nat | k < lines :: |rows(k)| <= size && RowIs(plane, RowStart(k, size), rows(k))
  }

  lemma PlaneExtends(was: seq<int>, plane: seq<int>, size: nat, rows: nat -> seq<int>, lines: nat, next: nat,
                     spilt: Option<int>)
    requires PlaneDone(was, size, rows, lines) && |rows(lines)| <= size && next == lines + 1
    requires WrittenTo(plane, was, RowStart(lines, size), rows(lines), spilt)
    ensures PlaneDone(plane, size, rows, next)
  {
    forall k: nat | k < next ensures |rows(k)| <= size && RowIs(plane, RowStart(k, size), rows(k)) {
      if k < lines {
        RowsApart(k, lines, size);
        var at, n := RowStart(k, size), |rows(k)|;
        assert RowIs(was, at, rows(k)) && Outside(plane, was, RowStart(lines, size), |rows(lines)| + 1);
        assert plane[at..at + n] == was[at..at + n];
      }
    }
  }

  function YLines(data: seq<Byte>, stride: nat, width: nat): nat -> seq<int> {
    (k: nat) => YRow(Line(data, stride, k), 0, width)
  }

  function ULines(data: seq<Byte>, stride: nat, width: nat): nat -> seq<int> {
    (k: nat) => URow(Line(data, stride, k), 0, width)
  }

  function VLines(data: seq<Byte>, stride: nat, width: nat): nat -> seq<int> {
    (k: nat) => VRow(Line(data, stride, k), 0, width)
  }

  lemma LineThere(data: seq<Byte>, stride: nat, k: nat, height: nat)
    requires k < height && height * stride <= |data|
    ensures |Line(data, stride, k)| == stride
  {
    RowsApart(k, height, stride);
  }

  /** The first lines of a picture. */
  predicate Decoded(y: seq<int>, u: seq<int>, v: seq<int>, size: nat, chromaSize: nat,
                    data: seq<Byte>, stride: nat, width: nat, lines: nat)
  {
    var chroma := (width + 1) / 2;
    && PlaneDone(y, size, YLines(data, stride, width), lines)
    && PlaneDone(u, chromaSize, ULines(data, stride, chroma), lines)
    && PlaneDone(v, chromaSize, VLines(data, stride, chroma), lines)
  }

  lemma LineDecoded(o: Origin, y: seq<int>, u: seq<int>, v: seq<int>, size: nat, chromaSize: nat,
                    data: seq<Byte>, stride: nat, width: nat, line: nat, next: nat)
    requires Decoded(o.y, o.u, o.v, size, chromaSize, data, stride, width, line) && next == line + 1
    requires width <= size && (width + 1) / 2 <= chromaSize
    requires o.yo == RowStart(line, size) && o.uo == o.vo == RowStart(line, chromaSize)
    requires LineDone(o, Line(data, stride, line), y, u, v, width, (width + 1) / 2, SpillsByte(width))
    ensures Decoded(y, u, v, size, chromaSize, data, stride, width, next)
  {
    var chroma, bytes, spills := (width + 1) / 2, Line(data, stride, line), SpillsByte(width);
    var spiltU := if spills then Some(U(bytes, chroma)) else None;
    var spiltV := if spills then Some(V(bytes, chroma)) else None;
    PlaneExtends(o.y, y, size, YLines(data, stride, width), line, next, None);
    PlaneExtends(o.u, u, chromaSize, ULines(data, stride, chroma), line, next, spiltU);
    PlaneExtends(o.v, v, chromaSize, VLines(data, stride, chroma), line, next, spiltV);
  }

  /** The loop over the lines. A spilt byte lies behind its row: it is padding, or the next line overwrites it. */
  method DecodeLines(data: seq<Byte>, stride: nat, width: nat, height: nat,
                     y: array<int>, size: nat, u: array<int>, v: array<int>, chromaSize: nat)
    requires y != u && u != v && y != v && width * 8 / 3 <= stride && height * stride <= |data|
    requires width <= size && (width + 1) / 2 <= chromaSize
    requires y.Length == RowStart(height, size) && u.Length == v.Length == RowStart(height, chromaSize) + 1
    modifies y, u, v
    ensures Decoded(y[..], u[..], v[..], size, chromaSize, data, stride, width, height)
  {
    var line: nat := 0;
    while line < height
      invariant line <= height && Decoded(y[..], u[..], v[..], size, chromaSize, data, stride, width, line)
    {
      LineThere(data, stride, line, height);
      RowsApart(line, height, size);
      RowsApart(line, height, chromaSize);
      var yo, co := RowStart(line, size), RowStart(line, chromaSize);
      ghost var o := Origin(y[..], u[..], v[..], yo, co, co);
      DecodeLine(Line(data, stride, line), width, y, yo, u, co, v, co);
      LineDecoded(o, y[..], u[..], v[..], size, chromaSize, data, stride, width, line, line + 1);
      line := line + 1;
    }
  }

  /** Both choices cover the line, fit the packet and leave every full group its sixteen bytes. */
  lemma StrideSuffices(tag012v: bool, size: nat, width: int, height: int)
    requires Stride(tag012v, size, width, height).Ok?
    ensures var stride := Stride(tag012v, size, width, height).stride;
            width * 8 / 3 <= stride && height * stride <= size && FullGroupsFit(width, stride)
  {
    var stride := Stride(tag012v, size, width, height).stride;
    forall x: nat | x % 6 == 0 && x + 6 <= width ensures 16 * (x / 6) + 16 <= stride {
      FullGroupAvailable(tag012v, size, width, height, x);
    }
  }

  /** With a stride of its own the packet is never too small, so the tag makes no difference to what is refused. */
  lemma RefusedIff(tag012v: bool, size: nat, width: int, height: int)
    ensures Stride(tag012v, size, width, height).InvalidData?
            <==> width <= 1 || height <= 0 || size < height * (width * 8 / 3)
  {
    if width > 1 && height > 0 && size % height == 0 && size / height * 3 >= width * 8 {
      var own, least := size / height, width * 8 / 3;
      assert size == height * own && own >= least;
      TimesMonotone(height, least, own);
    }
  }

  lemma TimesMonotone(h: nat, a: nat, b: nat)
    requires a <= b
    ensures h * a <= h * b
  {
  }

  predicate FullGroupsFit(width: int, stride: nat) {
    forall x: nat | x % 6 == 0 && x + 6 <= width :: 16 * (x / 6) + 16 <= stride
  }

  /** Refuses exactly unsupported sizes and packets with less than 8 / 3 bytes a pixel. */
  method ChooseStride(tag012v: bool, size: nat, width: int, height: int) returns (r: Result)
    ensures r.InvalidData? <==> width <= 1 || height <= 0 || size < height * (width * 8 / 3)
    ensures r.Ok? ==> width * 8 / 3 <= r.stride && height * r.stride <= size && FullGroupsFit(width, r.stride)
    ensures r == Stride(tag012v, size, width, height)
  {
    RefusedIff(tag012v, size, width, height);
    if width <= 1 || height <= 0 {
      return InvalidData;
    }
    var stride := width * 8 / 3;
    if tag012v && size % height == 0 && size / height * 3 >= width * 8 {
      stride := size / height;
    }
    r := if size < height * stride then InvalidData else Ok(stride);
    if r.Ok? {
      StrideSuffices(tag012v, size, width, height);
    }
  }

  /** zero12v_decode_frame; the line sizes are those of the buffers the picture is given. */
  method DecodeFrame(data: seq<Byte>, tag012v: bool, width: int, height: int, size: nat, chromaSize: nat)
    returns (ok: bool, y: array<int>, u: array<int>, v: array<int>)
    requires width <= size && (width + 1) / 2 <= chromaSize
    ensures ok == Stride(tag012v, |data|, width, height).Ok?
    ensures ok ==> var stride := Stride(tag012v, |data|, width, height).stride;
                   Decoded(y[..], u[..], v[..], size, chromaSize, data, stride, width, height)
  {
    var stride := ChooseStride(tag012v, |data|, width, height);
    if stride.InvalidData? {
      y, u, v := new int[0], new int[0], new int[0];
      return false, y, u, v;
    }
    y := new int[RowStart(height, size)];
    u, v := new int[RowStart(height, chromaSize) + 1], new int[RowStart(height, chromaSize) + 1];
    DecodeLines(data, stride.stride, width, height, y, size, u, v, chromaSize);
    ok := true;
  }

  // ---- the packer ------------------------------------------------------------------------------

  type Ten = n: nat | n < 1024

  /** A ten-bit sample at the top of 16 bits. */
  function Shifted(t: Ten): int {
    var n: int := t;
    64 * n
  }

  function ShiftedAll(s: seq<Ten>): (r: seq<int>)
    ensures |r| == |s|
  {
    seq(|s|, j requires 0 <= j < |s| => Shifted(s[j]))
  }

  function Get(s: seq<Ten>, i: nat): Ten {
    if i < |s| then s[i] else 0
  }

  function Three(a: Ten, b: Ten, c: Ten): (t: nat)
    ensures t <= UINT_MAX
  {
    var x: int, y: int, z: int := a, b, c;
    x + 1024 * y + 1048576 * z
  }

  /** Word k of group g. */
  function GroupWord(y: seq<Ten>, u: seq<Ten>, v: seq<Ten>, g: nat, k: nat): (t: nat)
    ensures t <= UINT_MAX
  {
    if k == 0 then Three(Get(u, 3 * g), Get(y, 6 * g), Get(v, 3 * g))
    else if k == 1 then Three(Get(y, 6 * g + 1), Get(u, 3 * g + 1), Get(y, 6 * g + 2))
    else if k == 2 then Three(Get(v, 3 * g + 1), Get(y, 6 * g + 3), Get(u, 3 * g + 2))
    else Three(Get(y, 6 * g + 4), Get(v, 3 * g + 2), Get(y, 6 * g + 5))
  }

  /** A line of samples in 10-bit 4:2:2, in so many groups. */
  function Pack(y: seq<Ten>, u: seq<Ten>, v: seq<Ten>, groups: nat): (line: seq<Byte>)
    ensures |line| == 16 * groups
  {
    seq(16 * groups, i requires 0 <= i < 16 * groups => ByteOf(GroupWord(y, u, v, i / 16, i / 4 % 4), i % 4))
  }

  /** The three fields of a word. */
  predicate Holds(t: nat, a: Ten, b: Ten, c: Ten) {
    Field(t, 0) == Shifted(a) && Field(t, 1) == Shifted(b) && Field(t, 2) == Shifted(c)
  }

  lemma FieldsOfThree(a: Ten, b: Ten, c: Ten)
    ensures Holds(Three(a, b, c), a, b, c)
  {
    var x: int, y: int, z: int := a, b, c;
    var t := x + 1024 * y + 1048576 * z;
    assert t / 1024 == y + 1024 * z && t / 1048576 == z;
  }

  lemma IndexSplits(g: nat, k: nat, j: nat, i: nat)
    requires k < 4 && j < 4 && i == 16 * g + 4 * k + j
    ensures i / 16 == g && i / 4 % 4 == k && i % 4 == j
  {
    assert i / 4 == 4 * g + k;
  }

  /** A word that a cut has left whole is the word that was packed. */
  lemma PackedWord(y: seq<Ten>, u: seq<Ten>, v: seq<Ten>, groups: nat, n: nat, g: nat, k: nat, at: nat)
    requires k < 4 && at == 16 * g + 4 * k && at + 4 <= n <= 16 * groups
    ensures Word(Pack(y, u, v, groups)[..n], at) == GroupWord(y, u, v, g, k)
  {
    var line := Pack(y, u, v, groups)[..n];
    IndexSplits(g, k, 0, at);
    IndexSplits(g, k, 1, at + 1);
    IndexSplits(g, k, 2, at + 2);
    IndexSplits(g, k, 3, at + 3);
    WordOfBytes(line, at, GroupWord(y, u, v, g, k));
  }

  /** A field of a packed word, if the cut has left it. */
  lemma PackedSample(y: seq<Ten>, u: seq<Ten>, v: seq<Ten>, groups: nat, n: nat, g: nat, k: nat, f: nat, index: nat)
    requires k < 4 && index == 4 * g + k && n <= 16 * groups
    ensures Sample(Pack(y, u, v, groups)[..n], index, f)
         == if 16 * g + 4 * k + 4 <= n then Field(GroupWord(y, u, v, g, k), f) else GREY
  {
    var at := 4 * index;
    if at + 4 <= n {
      PackedWord(y, u, v, groups, n, g, k, at);
    }
  }

  /** The byte of a line behind the word that holds a sample. */
  function YEnd(j: nat): nat {
    16 * (j / 6) + 4 * YWord(j % 6) + 4
  }

  function UEnd(j: nat): nat {
    16 * (j / 3) + 4 * UWord(j % 3) + 4
  }

  function VEnd(j: nat): nat {
    16 * (j / 3) + 4 * VWord(j % 3) + 4
  }

  /** Where the cut leaves the word of a sample, unpacking gives the sample, shifted by 6; otherwise grey. */
  lemma YUnpacked(y: seq<Ten>, u: seq<Ten>, v: seq<Ten>, groups: nat, n: nat, j: nat)
    requires n <= 16 * groups && j < |y|
    ensures Y(Pack(y, u, v, groups)[..n], j) == if YEnd(j) <= n then Shifted(y[j]) else GREY
  {
    var g, m := j / 6, j % 6;
    var k := YWord(m);
    PackedSample(y, u, v, groups, n, g, k, YField(m), 4 * g + k);
    FieldsOfGroup(y, u, v, g, k);
    assert j == 6 * g + m && Field(GroupWord(y, u, v, g, k), YField(m)) == Shifted(y[j]);
  }

  lemma UUnpacked(y: seq<Ten>, u: seq<Ten>, v: seq<Ten>, groups: nat, n: nat, j: nat)
    requires n <= 16 * groups && j < |u|
    ensures U(Pack(y, u, v, groups)[..n], j) == if UEnd(j) <= n then Shifted(u[j]) else GREY
  {
    var g, m := j / 3, j % 3;
    var k := UWord(m);
    PackedSample(y, u, v, groups, n, g, k, UField(m), 4 * g + k);
    FieldsOfGroup(y, u, v, g, k);
  }

  lemma VUnpacked(y: seq<Ten>, u: seq<Ten>, v: seq<Ten>, groups: nat, n: nat, j: nat)
    requires n <= 16 * groups && j < |v|
    ensures V(Pack(y, u, v, groups)[..n], j) == if VEnd(j) <= n then Shifted(v[j]) else GREY
  {
    var g, m := j / 3, j % 3;
    var k := VWord(m);
    PackedSample(y, u, v, groups, n, g, k, VField(m), 4 * g + k);
    FieldsOfGroup(y, u, v, g, k);
  }

  lemma FieldsOfGroup(y: seq<Ten>, u: seq<Ten>, v: seq<Ten>, g: nat, k: nat)
    requires k < 4
    ensures var t := GroupWord(y, u, v, g, k);
            && (k == 0 ==> Holds(t, Get(u, 3 * g), Get(y, 6 * g), Get(v, 3 * g)))
            && (k == 1 ==> Holds(t, Get(y, 6 * g + 1), Get(u, 3 * g + 1), Get(y, 6 * g + 2)))
            && (k == 2 ==> Holds(t, Get(v, 3 * g + 1), Get(y, 6 * g + 3), Get(u, 3 * g + 2)))
            && (k == 3 ==> Holds(t, Get(y, 6 * g + 4), Get(v, 3 * g + 2), Get(y, 6 * g + 5)))
  {
    if k == 0 { FieldsOfThree(Get(u, 3 * g), Get(y, 6 * g), Get(v, 3 * g)); }
    else if k == 1 { FieldsOfThree(Get(y, 6 * g + 1), Get(u, 3 * g + 1), Get(y, 6 * g + 2)); }
    else if k == 2 { FieldsOfThree(Get(v, 3 * g + 1), Get(y, 6 * g + 3), Get(u, 3 * g + 2)); }
    else { FieldsOfThree(Get(y, 6 * g + 4), Get(v, 3 * g + 2), Get(y, 6 * g + 5)); }
  }

  /** The samples that can be decoded are the first of each plane. */
  lemma DecodableFirst(n: nat, i: nat, j: nat)
    requires i <= j
    ensures YEnd(j) <= n ==> YEnd(i) <= n
    ensures UEnd(j) <= n ==> UEnd(i) <= n
    ensures VEnd(j) <= n ==> VEnd(i) <= n
  {
    assert i / 6 <= j / 6 && i / 3 <= j / 3;
  }

  /** A line packed in whole groups comes back whole, each sample shifted by 6. */
  lemma RoundTrip(y: seq<Ten>, u: seq<Ten>, v: seq<Ten>, groups: nat)
    requires |y| <= 6 * groups && |u| == |v| == (|y| + 1) / 2
    ensures var line := Pack(y, u, v, groups);
            && YRow(line, 0, |y|) == ShiftedAll(y)
            && URow(line, 0, |u|) == ShiftedAll(u) && VRow(line, 0, |v|) == ShiftedAll(v)
  {
    var line, n := Pack(y, u, v, groups), 16 * groups;
    assert line[..n] == line;
    forall j: nat | j < |y| ensures Y(line, j) == Shifted(y[j]) {
      YUnpacked(y, u, v, groups, n, j);
      WordsInGroup(j, groups);
    }
    forall j: nat | j < |u| ensures U(line, j) == Shifted(u[j]) && V(line, j) == Shifted(v[j]) {
      UUnpacked(y, u, v, groups, n, j);
      VUnpacked(y, u, v, groups, n, j);
      ChromaInGroup(j, groups);
    }
  }

  lemma WordsInGroup(j: nat, groups: nat)
    requires j < 6 * groups
    ensures YEnd(j) <= 16 * groups
  {
    assert j / 6 < groups;
  }

  lemma ChromaInGroup(j: nat, groups: nat)
    requires j < 3 * groups
    ensures UEnd(j) <= 16 * groups && VEnd(j) <= 16 * groups
  {
    assert j / 3 < groups;
  }

  // ---- a packed frame --------------------------------------------------------------------------

  /** The samples of a picture, line by line. */
  datatype Picture = Picture(y: seq<seq<Ten>>, u: seq<seq<Ten>>, v: seq<seq<Ten>>)

  predicate Sized(p: Picture, width: nat, height: nat) {
    && |p.y| == |p.u| == |p.v| == height
    && forall k :: 0 <= k < height ==> |p.y[k]| == width && |p.u[k]| == |p.v[k]| == (width + 1) / 2
  }

  function PackedLine(p: Picture, groups: nat, stride: nat, k: nat): (line: seq<Byte>)
    requires k < |p.y| && |p.y| == |p.u| == |p.v| && stride <= 16 * groups
    ensures |line| == stride
  {
    Pack(p.y[k], p.u[k], p.v[k], groups)[..stride]
  }

  /** The first lines of a picture, each packed and cut to the stride. */
  function PackedLines(p: Picture, groups: nat, stride: nat, lines: nat): (data: seq<Byte>)
    requires lines <= |p.y| && |p.y| == |p.u| == |p.v| && stride <= 16 * groups
  {
    if lines == 0 then [] else PackedLines(p, groups, stride, lines - 1) + PackedLine(p, groups, stride, lines - 1)
  }

  lemma OneRowMore(k: nat, next: nat, size: nat)
    requires next == k + 1
    ensures RowStart(next, size) == RowStart(k, size) + size
  {
  }

  lemma {:induction false} PackedLength(p: Picture, groups: nat, stride: nat, lines: nat)
    requires lines <= |p.y| && |p.y| == |p.u| == |p.v| && stride <= 16 * groups
    ensures |PackedLines(p, groups, stride, lines)| == RowStart(lines, stride)
  {
    if lines > 0 {
      PackedLength(p, groups, stride, lines - 1);
      OneRowMore(lines - 1, lines, stride);
    }
  }

  lemma {:induction false} LineOfPacked(p: Picture, groups: nat, stride: nat, lines: nat, k: nat)
    requires k < lines <= |p.y| && |p.y| == |p.u| == |p.v| && stride <= 16 * groups
    ensures Line(PackedLines(p, groups, stride, lines), stride, k) == PackedLine(p, groups, stride, k)
  {
    var before := PackedLines(p, groups, stride, lines - 1);
    PackedLength(p, groups, stride, lines - 1);
    PackedLength(p, groups, stride, lines);
    OneRowMore(lines - 1, lines, stride);
    if k < lines - 1 {
      LineOfPacked(p, groups, stride, lines - 1, k);
      RowsApart(k, lines - 1, stride);
      var data, at := PackedLines(p, groups, stride, lines), RowStart(k, stride);
      assert data[at..at + stride] == before[at..at + stride];
    }
  }

  /** A row of a plane holds the samples whose words were not cut, shifted by 6, and else grey. */
  predicate Unpacked(plane: seq<int>, at: nat, row: seq<Ten>, end: nat -> nat, stride: nat) {
    && at + |row| <= |plane|
    && forall j :: 0 <= j < |row| ==> plane[at + j] == if end(j) <= stride then Shifted(row[j]) else GREY
  }

  lemma YRowUnpacked(plane: seq<int>, at: nat, p: Picture, groups: nat, stride: nat, k: nat)
    requires k < |p.y| && |p.y| == |p.u| == |p.v| && stride <= 16 * groups
    requires RowIs(plane, at, YRow(PackedLine(p, groups, stride, k), 0, |p.y[k]|))
    ensures Unpacked(plane, at, p.y[k], YEnd, stride)
  {
    var row := YRow(PackedLine(p, groups, stride, k), 0, |p.y[k]|);
    forall j: nat | j < |row| ensures plane[at + j] == if YEnd(j) <= stride then Shifted(p.y[k][j]) else GREY {
      assert plane[at + j] == row[j];
      YUnpacked(p.y[k], p.u[k], p.v[k], groups, stride, j);
    }
  }

  lemma URowUnpacked(plane: seq<int>, at: nat, p: Picture, groups: nat, stride: nat, k: nat)
    requires k < |p.y| && |p.y| == |p.u| == |p.v| && stride <= 16 * groups
    requires RowIs(plane, at, URow(PackedLine(p, groups, stride, k), 0, |p.u[k]|))
    ensures Unpacked(plane, at, p.u[k], UEnd, stride)
  {
    var row := URow(PackedLine(p, groups, stride, k), 0, |p.u[k]|);
    forall j: nat | j < |row| ensures plane[at + j] == if UEnd(j) <= stride then Shifted(p.u[k][j]) else GREY {
      assert plane[at + j] == row[j];
      UUnpacked(p.y[k], p.u[k], p.v[k], groups, stride, j);
    }
  }

  lemma VRowUnpacked(plane: seq<int>, at: nat, p: Picture, groups: nat, stride: nat, k: nat)
    requires k < |p.y| && |p.y| == |p.u| == |p.v| && stride <= 16 * groups
    requires RowIs(plane, at, VRow(PackedLine(p, groups, stride, k), 0, |p.v[k]|))
    ensures Unpacked(plane, at, p.v[k], VEnd, stride)
  {
    var row := VRow(PackedLine(p, groups, stride, k), 0, |p.v[k]|);
    forall j: nat | j < |row| ensures plane[at + j] == if VEnd(j) <= stride then Shifted(p.v[k][j]) else GREY {
      assert plane[at + j] == row[j];
      VUnpacked(p.y[k], p.u[k], p.v[k], groups, stride, j);
    }
  }

  /** The strides that a packer may use: what the decoder assumes, or with the 012v tag one that holds a line. */
  predicate Agreed(tag012v: bool, width: nat, stride: nat) {
    stride == width * 8 / 3 || (tag012v && stride * 3 >= width * 8)
  }

  lemma StrideFound(tag012v: bool, size: nat, width: nat, height: nat, stride: nat)
    requires width > 1 && height > 0 && size == RowStart(height, stride) && Agreed(tag012v, width, stride)
    ensures Stride(tag012v, size, width, height) == Ok(stride)
  {
    assert size == height * stride;
    WholeRows(height, stride, size);
  }

  lemma WholeRows(height: nat, stride: nat, size: nat)
    requires height > 0 && size == height * stride
    ensures size % height == 0 && size / height == stride
  {
    var q, r := size / height, size % height;
    DivisionUnique(height, q, r, stride, size);
  }

  lemma DivisionUnique(h: nat, q: nat, r: nat, rows: nat, size: nat)
    requires size == h * q + r == h * rows && r < h
    ensures q == rows && r == 0
  {
    if q < rows {
      var d: nat := rows - q;
      MoreRows(d, h);
      Distributes(q, d, h);
    } else if rows < q {
      var d: nat := q - rows;
      MoreRows(d, h);
      Distributes(rows, d, h);
    }
  }

  /** The picture that the planes of a decoded packet of packed lines hold. */
  predicate PictureUnpacked(y: seq<int>, u: seq<int>, v: seq<int>, size: nat, chromaSize: nat,
                            p: Picture, stride: nat)
    requires |p.y| == |p.u| == |p.v|
  {
    forall k: nat | k < |p.y| ::
      && Unpacked(y, RowStart(k, size), p.y[k], YEnd, stride)
      && Unpacked(u, RowStart(k, chromaSize), p.u[k], UEnd, stride)
      && Unpacked(v, RowStart(k, chromaSize), p.v[k], VEnd, stride)
  }

  /**
    A frame whose lines were packed and cut to the stride: the decoder finds the stride, and each
    sample comes back shifted by 6 if the cut left its word, and grey if not.
   */
  lemma PackedFrame(p: Picture, groups: nat, stride: nat, width: nat, height: nat, tag012v: bool,
                    y: seq<int>, u: seq<int>, v: seq<int>, size: nat, chromaSize: nat)
    requires width > 1 && height > 0 && Sized(p, width, height) && stride <= 16 * groups
    requires Agreed(tag012v, width, stride)
    ensures var data := PackedLines(p, groups, stride, height);
            && Stride(tag012v, |data|, width, height) == Ok(stride)
            && (Decoded(y, u, v, size, chromaSize, data, stride, width, height) ==>
                  PictureUnpacked(y, u, v, size, chromaSize, p, stride))
  {
    var data := PackedLines(p, groups, stride, height);
    PackedLength(p, groups, stride, height);
    StrideFound(tag012v, |data|, width, height, stride);
    if Decoded(y, u, v, size, chromaSize, data, stride, width, height) {
      forall k: nat | k < height
        ensures Unpacked(y, RowStart(k, size), p.y[k], YEnd, stride)
        ensures Unpacked(u, RowStart(k, chromaSize), p.u[k], UEnd, stride)
        ensures Unpacked(v, RowStart(k, chromaSize), p.v[k], VEnd, stride)
      {
        LineOfPacked(p, groups, stride, height, k);
        YRowUnpacked(y, RowStart(k, size), p, groups, stride, k);
        URowUnpacked(u, RowStart(k, chromaSize), p, groups, stride, k);
        VRowUnpacked(v, RowStart(k, chromaSize), p, groups, stride, k);
      }
    }
  }
}
