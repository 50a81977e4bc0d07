/**
  P-frame blocks as values: how the streams of a block split it into leaves, where its motion
  sources lie, and what the leaves say about each pixel.
 */
module PBlocks {
  import opened Sums
  import opened PixelWords
  import opened BlockAlphabets

  /** Frame size in pixels, bitstream version, and motion vectors as offsets into a frame. */
  datatype Picture = Picture(width: nat, height: nat, version: nat, mv: seq<int>)

  /** What is left of the bitstream, the byte stream and the word stream. */
  datatype Streams = Streams(bits: seq<bool>, bytes: seq<nat>, words: seq<nat>)

  /** What a leaf does: copy from an offset of the last frame and add dc, fill, nothing, or two raw pixels. */
  datatype Op = Copy(src: int, dc: Pixel) | Fill(value: Pixel) | Skip | Raw(first: Pixel, second: Pixel)

  datatype Leaf = Leaf(x: nat, y: nat, log2w: nat, log2h: nat, op: Op)

  datatype Parsed = Failed | Parsed(leaves: seq<Leaf>, rest: Streams)

  // ---- geometry --------------------------------------------------------------------------------

  /** The logarithm of half a side. */
  function Half(log2: nat): nat
    requires log2 > 0
  {
    log2 - 1
  }

  /** The coordinate just past a side that starts at x. */
  function Past(x: nat, log2: nat): nat {
    x + Pow2(log2)
  }

  /** The offset of pixel (x, y) in a frame of the given size. */
  function Index(x: nat, y: nat, width: nat, height: nat): (i: nat)
    requires x < width && y < height
    ensures i < width * height
  {
    RowsBelow(y, width, height);
    y * width + x
  }

  lemma RowsBelow(y: nat, width: nat, height: nat)
    requires y < height
    ensures y * width + width <= height * width == width * height
  {
    assert (height - y - 1) * width >= 0;
    assert (height - y - 1) * width == height * width - y * width - width;
  }

  lemma IndexInjective(x: nat, y: nat, x': nat, y': nat, width: nat, height: nat)
    requires x < width && y < height && x' < width && y' < height
    requires Index(x, y, width, height) == Index(x', y', width, height)
    ensures x == x' && y == y'
  {
    if y < y' {
      RowsBelow(y, width, y');
    } else if y' < y {
      RowsBelow(y', width, y);
    }
  }

  predicate InRect(px: nat, py: nat, x: nat, y: nat, w: nat, h: nat) {
    x <= px < x + w && y <= py < y + h
  }

  predicate Covers(l: Leaf, px: nat, py: nat) {
    InRect(px, py, l.x, l.y, Pow2(l.log2w), Pow2(l.log2h))
  }

  function Count(leaves: seq<Leaf>, px: nat, py: nat): nat {
    if leaves == [] then 0
    else Count(leaves[..|leaves| - 1], px, py) + (if Covers(leaves[|leaves| - 1], px, py) then 1 else 0)
  }

  /** The leaves cover each pixel of the rectangle once and nothing else. */
  ghost predicate Tiles(leaves: seq<Leaf>, x: nat, y: nat, w: nat, h: nat) {
    forall px: nat, py: nat :: Count(leaves, px, py) == if InRect(px, py, x, y, w, h) then 1 else 0
  }

  lemma {:induction false} CountConcat(a: seq<Leaf>, b: seq<Leaf>, px: nat, py: nat)
    ensures Count(a + b, px, py) == Count(a, px, py) + Count(b, px, py)
  {
    if b == [] {
      assert a + b == a;
    } else {
      var n := |b| - 1;
      assert (a + b)[..|a + b| - 1] == a + b[..n];
      CountConcat(a, b[..n], px, py);
    }
  }

  lemma TilesStacked(a: seq<Leaf>, b: seq<Leaf>, x: nat, y: nat, y': nat, w: nat, h: nat, h': nat)
    requires y' == y + h && h' == 2 * h
    requires Tiles(a, x, y, w, h) && Tiles(b, x, y', w, h)
    ensures Tiles(a + b, x, y, w, h')
  {
    forall px: nat, py: nat
      ensures Count(a + b, px, py) == if InRect(px, py, x, y, w, h') then 1 else 0
    {
      CountConcat(a, b, px, py);
    }
  }

  lemma TilesBeside(a: seq<Leaf>, b: seq<Leaf>, x: nat, x': nat, y: nat, w: nat, w': nat, w2: nat, h: nat)
    requires x' == x + w && w2 == w + w'
    requires Tiles(a, x, y, w, h) && Tiles(b, x', y, w', h)
    ensures Tiles(a + b, x, y, w2, h)
  {
    forall px: nat, py: nat
      ensures Count(a + b, px, py) == if InRect(px, py, x, y, w2, h) then 1 else 0
    {
      CountConcat(a, b, px, py);
    }
  }

  // ---- motion sources --------------------------------------------------------------------------

  /** start <= src <= end for a block of the given size. */
  predicate SourceOk(pic: Picture, src: int, log2w: nat, log2h: nat) {
    0 <= src <= pic.width * (pic.height - Pow2(log2h) + 1) - Pow2(log2w)
  }

  lemma RowArithmetic(width: nat, height: nat, h: nat, i: nat)
    requires i < h <= height
    ensures width * (height - h + 1) + i * width <= width * height
  {
    assert width * (height - h + 1) + i * width + (h - 1 - i) * width == width * height;
  }

  /** A source that passes the check is read inside the frame only: row i, column c of the block. */
  lemma SourceInside(pic: Picture, src: int, log2w: nat, log2h: nat, i: nat, c: nat)
    requires SourceOk(pic, src, log2w, log2h) && Pow2(log2h) <= pic.height
    requires i < Pow2(log2h) && c < Pow2(log2w)
    ensures 0 <= src + i * pic.width + c < pic.width * pic.height
  {
    RowArithmetic(pic.width, pic.height, Pow2(log2h), i);
  }

  lemma UnmovedArithmetic(width: nat, height: nat, h: nat, y: nat)
    requires y + h <= height
    ensures y * width <= width * (height - h + 1) - width
  {
    assert y * width + width + (height - h - y) * width == width * (height - h + 1);
  }

  /** The unmoved source of a block inside the frame always passes, at every block size. */
  lemma UnmovedPasses(pic: Picture, x: nat, y: nat, log2w: nat, log2h: nat)
    requires x + Pow2(log2w) <= pic.width && y + Pow2(log2h) <= pic.height
    ensures SourceOk(pic, Index(x, y, pic.width, pic.height), log2w, log2h)
  {
    UnmovedArithmetic(pic.width, pic.height, Pow2(log2h), y);
  }

  // ---- parsing ---------------------------------------------------------------------------------

  predicate BytesOnly(s: seq<nat>) {
    forall i :: 0 <= i < |s| ==> s[i] < 256
  }

  predicate ValidStreams(st: Streams) {
    BytesOnly(st.bytes) && BytesOnly(st.words)
  }

  predicate ValidPicture(pic: Picture) {
    |pic.mv| == 256
  }

  function Table(pic: Picture): (t: nat)
    ensures t < 2
  {
    if pic.version > 1 then 0 else 1
  }

  function Bit(bits: seq<bool>, i: nat): (b: nat)
    ensures b <= 1
  {
    if i < |bits| && bits[i] then 1 else 0
  }

  /** The next five bits; past the end the padding reads as zero. */
  function Window(bits: seq<bool>): (w: nat)
    ensures w < 32
  {
    16 * Bit(bits, 0) + 8 * Bit(bits, 1) + 4 * Bit(bits, 2) + 2 * Bit(bits, 3) + Bit(bits, 4)
  }

  function Drop<T>(s: seq<T>, n: nat): seq<T> {
    if n <= |s| then s[n..] else []
  }

  function Le16(words: seq<nat>): Pixel
    requires |words| >= 2 && BytesOnly(words)
  {
    words[0] + 256 * words[1]
  }

  predicate InFrame(pic: Picture, x: nat, y: nat, log2w: nat, log2h: nat) {
    log2w < 4 && log2h < 4 && x + Pow2(log2w) <= pic.width && y + Pow2(log2h) <= pic.height
  }

  predicate CanParse(pic: Picture, st: Streams, x: nat, y: nat, log2w: nat, log2h: nat) {
    ValidPicture(pic) && ValidStreams(st) && InFrame(pic, x, y, log2w, log2h) && log2w + log2h > 0
  }

  /** The symbol the bitstream starts with, and the bitstream after it. */
  function NextSymbol(pic: Picture, bits: seq<bool>, log2w: nat, log2h: nat): (r: (nat, seq<bool>))
    requires log2w < 4 && log2h < 4 && log2w + log2h > 0
    ensures r.0 < 7
    ensures r.0 == 1 ==> log2h > 0 && log2w + log2h > 1
    ensures r.0 == 2 ==> log2w > 0 && log2w + log2h > 1
    ensures r.0 == 6 ==> log2w + log2h == 1
  {
    Splits(Table(pic), log2w, log2h);
    var index := SizeToIndex(log2h, log2w);
    Complete(Table(pic), index, Window(bits));
    var a := BlockTypes(Table(pic), index);
    var code := Symbol(a, Window(bits));
    (code, Drop(bits, a[code].1))
  }

  /** A leaf that moves pixels, if its source is inside the picture. */
  function Moved(pic: Picture, leaf: Leaf, src: int, rest: Streams): Parsed {
    if SourceOk(pic, src, leaf.log2w, leaf.log2h) then Parsed([leaf], rest) else Failed
  }

  function ParseLeaf(pic: Picture, st: Streams, x: nat, y: nat, log2w: nat, log2h: nat, code: nat): Parsed
    requires CanParse(pic, st, x, y, log2w, log2h) && code < 7 && code != 1 && code != 2
  {
    var here := Index(x, y, pic.width, pic.height);
    if code == 6 then
      if |st.words| < 4 then Failed
      else Parsed([Leaf(x, y, log2w, log2h, Raw(Le16(st.words), Le16(st.words[2..])))], st.(words := st.words[4..]))
    else if (code == 0 || code == 4) && |st.bytes| < 1 then Failed
    else if code == 3 && pic.version >= 2 then Parsed([Leaf(x, y, log2w, log2h, Skip)], st)
    else if (code == 4 || code == 5) && |st.words| < 2 then Failed
    else if code == 0 then
      var src := here + pic.mv[st.bytes[0]];
      Moved(pic, Leaf(x, y, log2w, log2h, Copy(src, 0)), src, st.(bytes := st.bytes[1..]))
    else if code == 3 then
      Moved(pic, Leaf(x, y, log2w, log2h, Copy(here, 0)), here, st)
    else if code == 4 then
      var src := here + pic.mv[st.bytes[0]];
      Moved(pic, Leaf(x, y, log2w, log2h, Copy(src, Le16(st.words))), src,
            st.(bytes := st.bytes[1..], words := st.words[2..]))
    else
      Moved(pic, Leaf(x, y, log2w, log2h, Fill(Le16(st.words))), here, st.(words := st.words[2..]))
  }

  function ParseBlock(pic: Picture, st: Streams, x: nat, y: nat, log2w: nat, log2h: nat): (p: Parsed)
    requires CanParse(pic, st, x, y, log2w, log2h)
    ensures p.Parsed? ==> ValidStreams(p.rest) && st.bits != []
    decreases log2w + log2h, 1
  {
    if |st.bits| < 1 then Failed
    else
      var next := NextSymbol(pic, st.bits, log2w, log2h);
      ParseSymbol(pic, st.(bits := next.1), x, y, log2w, log2h, next.0)
  }

  /** What follows symbol code: two halves one above the other, two side by side, or a leaf. */
  function ParseSymbol(pic: Picture, st: Streams, x: nat, y: nat, log2w: nat, log2h: nat, code: nat): (p: Parsed)
    requires CanParse(pic, st, x, y, log2w, log2h) && code < 7
    requires code == 1 ==> log2h > 0 && log2w + log2h > 1
    requires code == 2 ==> log2w > 0 && log2w + log2h > 1
    ensures p.Parsed? ==> ValidStreams(p.rest)
    decreases log2w + log2h, 0
  {
    if code == 1 then
      ParseTwo(pic, st, x, y, x, Past(y, Half(log2h)), log2w, Half(log2h))
    else if code == 2 then
      ParseTwo(pic, st, x, y, Past(x, Half(log2w)), y, Half(log2w), log2h)
    else ParseLeaf(pic, st, x, y, log2w, log2h, code)
  }

  /** Two blocks of one size, one after the other. */
  function ParseTwo(pic: Picture, st: Streams, x: nat, y: nat, x': nat, y': nat, log2w: nat, log2h: nat): (p: Parsed)
    requires CanParse(pic, st, x, y, log2w, log2h) && InFrame(pic, x', y', log2w, log2h)
    ensures p.Parsed? ==> ValidStreams(p.rest)
    decreases log2w + log2h, 2
  {
    var first := ParseBlock(pic, st, x, y, log2w, log2h);
    if first.Failed? then Failed
    else
      var second := ParseBlock(pic, first.rest, x', y', log2w, log2h);
      if second.Failed? then Failed else Parsed(first.leaves + second.leaves, second.rest)
  }

  // ---- tiling ----------------------------------------------------------------------------------

  /** Inside the picture, with a checked source, raw only for two pixels, never 1x1. */
  predicate GoodLeaf(pic: Picture, l: Leaf) {
    && InFrame(pic, l.x, l.y, l.log2w, l.log2h) && l.log2w + l.log2h > 0
    && (l.op.Copy? ==> SourceOk(pic, l.op.src, l.log2w, l.log2h))
    && (l.op.Raw? ==> l.log2w + l.log2h == 1)
  }

  predicate GoodLeaves(pic: Picture, leaves: seq<Leaf>) {
    forall i :: 0 <= i < |leaves| ==> GoodLeaf(pic, leaves[i])
  }

  lemma OneLeafTiles(l: Leaf)
    ensures Tiles([l], l.x, l.y, Pow2(l.log2w), Pow2(l.log2h))
  {
    forall px: nat, py: nat
      ensures Count([l], px, py) == if Covers(l, px, py) then 1 else 0
    {
      assert [l][..0] == [];
    }
  }

  lemma LeafTiles(pic: Picture, st: Streams, x: nat, y: nat, log2w: nat, log2h: nat, code: nat)
    requires CanParse(pic, st, x, y, log2w, log2h) && code < 7 && code != 1 && code != 2
    requires code == 6 ==> log2w + log2h == 1
    requires ParseLeaf(pic, st, x, y, log2w, log2h, code).Parsed?
    ensures Tiles(ParseLeaf(pic, st, x, y, log2w, log2h, code).leaves, x, y, Pow2(log2w), Pow2(log2h))
    ensures GoodLeaves(pic, ParseLeaf(pic, st, x, y, log2w, log2h, code).leaves)
  {
    var leaves := ParseLeaf(pic, st, x, y, log2w, log2h, code).leaves;
    assert leaves == [leaves[0]];
    OneLeafTiles(leaves[0]);
  }

  /** The leaves of a parse are good and tile the rectangle. */
  ghost predicate Tiled(pic: Picture, p: Parsed, x: nat, y: nat, w: nat, h: nat)
    requires p.Parsed?
  {
    Tiles(p.leaves, x, y, w, h) && GoodLeaves(pic, p.leaves)
  }

  /** Every successful parse splits its rectangle into good leaves that tile it exactly. */
  lemma {:induction false} ParseTiles(pic: Picture, st: Streams, x: nat, y: nat, log2w: nat, log2h: nat)
    requires CanParse(pic, st, x, y, log2w, log2h) && ParseBlock(pic, st, x, y, log2w, log2h).Parsed?
    ensures Tiled(pic, ParseBlock(pic, st, x, y, log2w, log2h), x, y, Pow2(log2w), Pow2(log2h))
    decreases log2w + log2h, 1
  {
    var next := NextSymbol(pic, st.bits, log2w, log2h);
    SymbolTiles(pic, st.(bits := next.1), x, y, log2w, log2h, next.0);
  }

  lemma {:induction false} SymbolTiles(pic: Picture, st: Streams, x: nat, y: nat, log2w: nat, log2h: nat, code: nat)
    requires CanParse(pic, st, x, y, log2w, log2h) && code < 7
    requires code == 1 ==> log2h > 0 && log2w + log2h > 1
    requires code == 2 ==> log2w > 0 && log2w + log2h > 1
    requires code == 6 ==> log2w + log2h == 1
    requires ParseSymbol(pic, st, x, y, log2w, log2h, code).Parsed?
    ensures Tiled(pic, ParseSymbol(pic, st, x, y, log2w, log2h, code), x, y, Pow2(log2w), Pow2(log2h))
    decreases log2w + log2h, 0
  {
    if code == 1 {
      var half, y' := Half(log2h), Past(y, Half(log2h));
      assert ParseSymbol(pic, st, x, y, log2w, log2h, code) == ParseTwo(pic, st, x, y, x, y', log2w, half);
      StackedTiles(pic, st, x, y, y', log2w, half, log2h);
    } else if code == 2 {
      var half, x' := Half(log2w), Past(x, Half(log2w));
      assert ParseSymbol(pic, st, x, y, log2w, log2h, code) == ParseTwo(pic, st, x, y, x', y, half, log2h);
      BesideTiles(pic, st, x, x', y, half, log2w, log2h);
    } else {
      LeafTiles(pic, st, x, y, log2w, log2h, code);
    }
  }

  lemma {:induction false} StackedTiles(pic: Picture, st: Streams, x: nat, y: nat, y': nat,
                                          log2w: nat, half: nat, log2h: nat)
    requires log2h == half + 1 && y' == y + Pow2(half) && CanParse(pic, st, x, y, log2w, log2h) && log2w + half > 0
    requires ParseTwo(pic, st, x, y, x, y', log2w, half).Parsed?
    ensures Tiled(pic, ParseTwo(pic, st, x, y, x, y', log2w, half), x, y, Pow2(log2w), Pow2(log2h))
    decreases log2w + half, 3
  {
    var a, b := TwoTiles(pic, st, x, y, x, y', log2w, half);
    TilesStacked(a, b, x, y, y', Pow2(log2w), Pow2(half), Pow2(log2h));
  }

  lemma {:induction false} BesideTiles(pic: Picture, st: Streams, x: nat, x': nat, y: nat,
                                         half: nat, log2w: nat, log2h: nat)
    requires log2w == half + 1 && x' == x + Pow2(half) && CanParse(pic, st, x, y, log2w, log2h) && half + log2h > 0
    requires ParseTwo(pic, st, x, y, x', y, half, log2h).Parsed?
    ensures Tiled(pic, ParseTwo(pic, st, x, y, x', y, half, log2h), x, y, Pow2(log2w), Pow2(log2h))
    decreases half + log2h, 3
  {
    var a, b := TwoTiles(pic, st, x, y, x', y, half, log2h);
    TilesBeside(a, b, x, x', y, Pow2(half), Pow2(half), Pow2(log2w), Pow2(log2h));
  }

  lemma {:induction false} TwoTiles(pic: Picture, st: Streams, x: nat, y: nat, x': nat, y': nat, log2w: nat, log2h: nat)
      returns (a: seq<Leaf>, b: seq<Leaf>)
    requires CanParse(pic, st, x, y, log2w, log2h) && InFrame(pic, x', y', log2w, log2h)
    requires ParseTwo(pic, st, x, y, x', y', log2w, log2h).Parsed?
    ensures ParseTwo(pic, st, x, y, x', y', log2w, log2h).leaves == a + b && GoodLeaves(pic, a + b)
    ensures Tiles(a, x, y, Pow2(log2w), Pow2(log2h)) && Tiles(b, x', y', Pow2(log2w), Pow2(log2h))
    decreases log2w + log2h, 2
  {
    var first := ParseBlock(pic, st, x, y, log2w, log2h);
    var second := ParseBlock(pic, first.rest, x', y', log2w, log2h);
    a, b := first.leaves, second.leaves;
    ParseTiles(pic, st, x, y, log2w, log2h);
    ParseTiles(pic, first.rest, x', y', log2w, log2h);
  }
}
