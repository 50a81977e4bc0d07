/**
  decode_p_block and decode_p_frame writing through the frame buffer, against the leaves of PBlocks.
 */
module PBlockDecode {
  import opened Sums
  import opened PixelWords
  import opened BlockAlphabets
  import opened PBlocks

  // ---- what leaves do to a frame ----------------------------------------------------------------

  type Frame = seq<Pixel>

  predicate Sized(pic: Picture, n: int) {
    n == pic.width * pic.height
  }

  /** The pixel a copying leaf moves to row i, column c of its block, two pixels at a time. */
  function CopiedPixel(pic: Picture, last: Frame, l: Leaf, i: nat, c: nat): Pixel
    requires GoodLeaf(pic, l) && l.op.Copy? && Sized(pic, |last|)
    requires i < Pow2(l.log2h) && c < Pow2(l.log2w)
  {
    SourceInside(pic, l.op.src, l.log2w, l.log2h, i, c);
    var row := l.op.src + i * pic.width;
    if l.log2w == 0 then Low(1 * last[row] + Spread(l.op.dc))
    else
      var even := c - c % 2;
      EvenColumn(c, l.log2w);
      SourceInside(pic, l.op.src, l.log2w, l.log2h, i, even);
      SourceInside(pic, l.op.src, l.log2w, l.log2h, i, even + 1);
      var pair := LittleEndianMul(last[row + even], last[row + even + 1], 1, Spread(l.op.dc));
      if c == even then pair.0 else pair.1
  }

  lemma EvenColumn(c: nat, log2w: nat)
    requires log2w > 0 && c < Pow2(log2w)
    ensures c - c % 2 + 1 < Pow2(log2w)
  {
    var half := Pow2(log2w - 1);
    assert c < 2 * half;
  }

  predicate Writes(l: Leaf, px: nat, py: nat) {
    Covers(l, px, py) && !l.op.Skip?
  }

  function LeafPixel(pic: Picture, last: Frame, l: Leaf, px: nat, py: nat): Pixel
    requires GoodLeaf(pic, l) && Sized(pic, |last|) && Writes(l, px, py)
  {
    match l.op
    case Copy(_, _) => CopiedPixel(pic, last, l, py - l.y, px - l.x)
    case Fill(value) => value
    case Raw(first, second) => if px == l.x && py == l.y then first else second
  }

  /** A pixel's value and how often it has been written. */
  datatype Cell = Cell(value: Pixel, writes: nat)

  function After(pic: Picture, last: Frame, leaves: seq<Leaf>, cell: Cell, px: nat, py: nat): Cell
    requires GoodLeaves(pic, leaves) && Sized(pic, |last|)
  {
    if leaves == [] then cell
    else
      var l, before := leaves[|leaves| - 1], After(pic, last, leaves[..|leaves| - 1], cell, px, py);
      if Writes(l, px, py) then Cell(LeafPixel(pic, last, l, px, py), before.writes + 1) else before
  }

  /** A frame together with its write counts. */
  datatype Canvas = Canvas(pixels: Frame, writes: seq<nat>) {
    predicate Fits(pic: Picture) {
      Sized(pic, |pixels|) && Sized(pic, |writes|)
    }

    function At(pic: Picture, px: nat, py: nat): Cell
      requires Fits(pic) && px < pic.width && py < pic.height
    {
      var i := Index(px, py, pic.width, pic.height);
      Cell(pixels[i], writes[i])
    }
  }

  /** The leaves turn canvas s into canvas t. */
  ghost predicate Painted(pic: Picture, last: Frame, leaves: seq<Leaf>, s: Canvas, t: Canvas)
    requires GoodLeaves(pic, leaves) && Sized(pic, |last|) && s.Fits(pic) && t.Fits(pic)
  {
    forall px: nat, py: nat :: px < pic.width && py < pic.height ==>
      t.At(pic, px, py) == After(pic, last, leaves, s.At(pic, px, py), px, py)
  }

  lemma {:induction false} AfterConcat(pic: Picture, last: Frame, a: seq<Leaf>, b: seq<Leaf>,
                                          cell: Cell, px: nat, py: nat)
    requires GoodLeaves(pic, a) && GoodLeaves(pic, b) && Sized(pic, |last|)
    ensures GoodLeaves(pic, a + b)
    ensures After(pic, last, a + b, cell, px, py) == After(pic, last, b, After(pic, last, a, cell, px, py), px, py)
  {
    if b == [] {
      assert a + b == a;
    } else {
      var n := |b| - 1;
      assert (a + b)[..|a + b| - 1] == a + b[..n];
      AfterConcat(pic, last, a, b[..n], cell, px, py);
    }
  }

  lemma PaintedConcat(pic: Picture, last: Frame, a: seq<Leaf>, b: seq<Leaf>, s: Canvas, t: Canvas, u: Canvas)
    requires GoodLeaves(pic, a) && GoodLeaves(pic, b) && Sized(pic, |last|)
    requires s.Fits(pic) && t.Fits(pic) && u.Fits(pic)
    requires Painted(pic, last, a, s, t) && Painted(pic, last, b, t, u)
    ensures GoodLeaves(pic, a + b) && Painted(pic, last, a + b, s, u)
  {
    assert GoodLeaves(pic, a + b);
    forall px: nat, py: nat | px < pic.width && py < pic.height
      ensures u.At(pic, px, py) == After(pic, last, a + b, s.At(pic, px, py), px, py)
    {
      AfterConcat(pic, last, a, b, s.At(pic, px, py), px, py);
    }
  }

  /** The leaf that covers a pixel, when exactly one does. */
  ghost predicate OnlyCover(leaves: seq<Leaf>, k: nat, px: nat, py: nat) {
    k < |leaves| && Covers(leaves[k], px, py) && Count(leaves, px, py) == 1
  }

  lemma {:induction false} CountPositive(leaves: seq<Leaf>, k: nat, px: nat, py: nat)
    requires k < |leaves| && Covers(leaves[k], px, py)
    ensures Count(leaves, px, py) >= 1
  {
    if k < |leaves| - 1 {
      CountPositive(leaves[..|leaves| - 1], k, px, py);
    }
  }

  lemma {:induction false} Untouched(pic: Picture, last: Frame, leaves: seq<Leaf>, cell: Cell, px: nat, py: nat)
    requires GoodLeaves(pic, leaves) && Sized(pic, |last|) && Count(leaves, px, py) == 0
    ensures After(pic, last, leaves, cell, px, py) == cell
  {
    if leaves != [] {
      Untouched(pic, last, leaves[..|leaves| - 1], cell, px, py);
    }
  }

  /**
    Where the leaves tile, the order of painting does not matter: a pixel is written exactly once,
    with the value of its own leaf, or not at all when that leaf is a skip.
   */
  lemma {:induction false} OwnLeafDecides(pic: Picture, last: Frame, leaves: seq<Leaf>, k: nat,
                                            cell: Cell, px: nat, py: nat)
    requires GoodLeaves(pic, leaves) && Sized(pic, |last|) && OnlyCover(leaves, k, px, py)
    ensures After(pic, last, leaves, cell, px, py)
         == if leaves[k].op.Skip? then cell else Cell(LeafPixel(pic, last, leaves[k], px, py), cell.writes + 1)
  {
    var n := |leaves| - 1;
    if k == n {
      Untouched(pic, last, leaves[..n], cell, px, py);
    } else {
      CountPositive(leaves[..n], k, px, py);
      OwnLeafDecides(pic, last, leaves[..n], k, cell, px, py);
    }
  }

  lemma {:induction false} SomeCover(leaves: seq<Leaf>, px: nat, py: nat) returns (k: nat)
    requires Count(leaves, px, py) == 1
    ensures OnlyCover(leaves, k, px, py)
  {
    var n := |leaves| - 1;
    if Covers(leaves[n], px, py) {
      k := n;
    } else {
      k := SomeCover(leaves[..n], px, py);
    }
  }

  /** A painting by leaves that tile the frame: every pixel has one leaf, and that leaf decides it. */
  lemma FrameDecided(pic: Picture, last: Frame, leaves: seq<Leaf>, s: Canvas, t: Canvas, px: nat, py: nat)
    returns (k: nat)
    requires GoodLeaves(pic, leaves) && Sized(pic, |last|) && s.Fits(pic) && t.Fits(pic)
    requires Tiles(leaves, 0, 0, pic.width, pic.height) && Painted(pic, last, leaves, s, t)
    requires px < pic.width && py < pic.height
    ensures OnlyCover(leaves, k, px, py)
    ensures leaves[k].op.Skip? ==> t.At(pic, px, py) == s.At(pic, px, py)
    ensures !leaves[k].op.Skip? ==>
      t.At(pic, px, py) == Cell(LeafPixel(pic, last, leaves[k], px, py), s.At(pic, px, py).writes + 1)
  {
    k := SomeCover(leaves, px, py);
    OwnLeafDecides(pic, last, leaves, k, s.At(pic, px, py), px, py);
  }

  // ---- one leaf, pixel by pixel -----------------------------------------------------------------

  /** Pixel (px, py) of the leaf comes before row i, column c of its block. */
  predicate Reached(l: Leaf, i: nat, c: nat, px: nat, py: nat) {
    py < l.y + i || (py == l.y + i && px < l.x + c)
  }

  /** Canvas t is s with the leaf painted up to row i, column c. */
  ghost predicate Partly(pic: Picture, last: Frame, l: Leaf, s: Canvas, t: Canvas, i: nat, c: nat)
    requires GoodLeaf(pic, l) && !l.op.Skip? && Sized(pic, |last|) && s.Fits(pic) && t.Fits(pic)
  {
    forall px: nat, py: nat :: px < pic.width && py < pic.height ==>
      t.At(pic, px, py) ==
        if Covers(l, px, py) && Reached(l, i, c, px, py)
        then Cell(LeafPixel(pic, last, l, px, py), s.At(pic, px, py).writes + 1) else s.At(pic, px, py)
  }

  lemma RowDone(pic: Picture, last: Frame, l: Leaf, s: Canvas, t: Canvas, i: nat, c: nat, i': nat)
    requires GoodLeaf(pic, l) && !l.op.Skip? && Sized(pic, |last|) && s.Fits(pic) && t.Fits(pic)
    requires Partly(pic, last, l, s, t, i, c) && c == Pow2(l.log2w) && i' == i + 1
    ensures Partly(pic, last, l, s, t, i', 0)
  {
  }

  lemma LeafDone(pic: Picture, last: Frame, l: Leaf, s: Canvas, t: Canvas, i: nat)
    requires GoodLeaf(pic, l) && !l.op.Skip? && Sized(pic, |last|) && s.Fits(pic) && t.Fits(pic)
    requires Partly(pic, last, l, s, t, i, 0) && i == Pow2(l.log2h)
    ensures Painted(pic, last, [l], s, t)
  {
    assert [l][..0] == [];
  }

  lemma SkipDone(pic: Picture, last: Frame, l: Leaf, s: Canvas)
    requires GoodLeaf(pic, l) && l.op.Skip? && Sized(pic, |last|) && s.Fits(pic)
    ensures Painted(pic, last, [l], s, s)
  {
    assert [l][..0] == [];
  }

  /** Storing one more pixel. */
  lemma PixelDone(pic: Picture, last: Frame, l: Leaf, s: Canvas, t: Canvas, u: Canvas, i: nat, c: nat, c': nat, p: nat)
    requires GoodLeaf(pic, l) && !l.op.Skip? && Sized(pic, |last|) && s.Fits(pic) && t.Fits(pic)
    requires Partly(pic, last, l, s, t, i, c) && c' == c + 1
    requires i < Pow2(l.log2h) && c < Pow2(l.log2w)
    requires p == Index(l.x + c, l.y + i, pic.width, pic.height) < |t.pixels|
    requires u == Canvas(t.pixels[p := LeafPixel(pic, last, l, l.x + c, l.y + i)], t.writes[p := t.writes[p] + 1])
    ensures u.Fits(pic) && Partly(pic, last, l, s, u, i, c')
  {
    forall px: nat, py: nat | px < pic.width && py < pic.height
      ensures u.At(pic, px, py) ==
        if Covers(l, px, py) && Reached(l, i, c', px, py)
        then Cell(LeafPixel(pic, last, l, px, py), s.At(pic, px, py).writes + 1) else s.At(pic, px, py)
    {
      if Index(px, py, pic.width, pic.height) == p {
        IndexInjective(px, py, l.x + c, l.y + i, pic.width, pic.height);
        assert t.At(pic, px, py) == s.At(pic, px, py);
      } else {
        assert u.At(pic, px, py) == t.At(pic, px, py);
      }
    }
  }

  /** src is where row i of the leaf reads, and (scale, dc) is what mcdc applies to it. */
  predicate RowSource(pic: Picture, l: Leaf, i: nat, src: int, scale: nat, dc: Pixel) {
    && (scale == 1 ==> l.op.Copy? && dc == l.op.dc && src == l.op.src + i * pic.width)
    && (scale == 0 ==> l.op.Fill? && dc == l.op.value)
    && scale <= 1
  }

  /** A copying leaf in terms of rows and columns of its block. */
  lemma CopyAt(pic: Picture, last: Frame, l: Leaf, i: nat, c: nat, px: nat, py: nat)
    requires GoodLeaf(pic, l) && l.op.Copy? && Sized(pic, |last|)
    requires i < Pow2(l.log2h) && c < Pow2(l.log2w) && px == l.x + c && py == l.y + i
    ensures LeafPixel(pic, last, l, px, py) == CopiedPixel(pic, last, l, i, c)
  {
    assert py - l.y == i && px - l.x == c;
  }

  lemma CopiedPair(pic: Picture, last: Frame, l: Leaf, i: nat, c: nat, c': nat, src: nat)
    requires GoodLeaf(pic, l) && l.op.Copy? && Sized(pic, |last|) && src == l.op.src + i * pic.width
    requires i < Pow2(l.log2h) && c % 2 == 0 && c' == c + 1 < Pow2(l.log2w) && src + Pow2(l.log2w) <= |last|
    ensures (CopiedPixel(pic, last, l, i, c), CopiedPixel(pic, last, l, i, c'))
         == LittleEndianMul(last[src + c], last[src + c'], 1, Spread(l.op.dc))
  {
    assert c - c % 2 == c && c' - c' % 2 == c && l.log2w > 0;
  }

  // ---- when the pixels of a leaf are independent ------------------------------------------------

  /** The pixel that row i, column c of a copying leaf is read from. */
  function SourcePixel(pic: Picture, last: Frame, l: Leaf, i: nat, c: nat): Pixel
    requires GoodLeaf(pic, l) && l.op.Copy? && Sized(pic, |last|)
    requires i < Pow2(l.log2h) && c < Pow2(l.log2w)
  {
    SourceInside(pic, l.op.src, l.log2w, l.log2h, i, c);
    var row := l.op.src + i * pic.width;
    last[row + c]
  }

  /** The pixel is its source plus dc modulo 2^16. */
  predicate StandsAlone(pic: Picture, last: Frame, l: Leaf, i: nat, c: nat)
    requires GoodLeaf(pic, l) && l.op.Copy? && Sized(pic, |last|)
    requires i < Pow2(l.log2h) && c < Pow2(l.log2w)
  {
    CopiedPixel(pic, last, l, i, c) == Independent(SourcePixel(pic, last, l, i, c), 1, l.op.dc)
  }

  /** The sum for the pixel stays below 2^16. */
  predicate NoCarry(pic: Picture, last: Frame, l: Leaf, i: nat, c: nat)
    requires GoodLeaf(pic, l) && l.op.Copy? && Sized(pic, |last|)
    requires i < Pow2(l.log2h) && c < Pow2(l.log2w)
  {
    SourcePixel(pic, last, l, i, c) + l.op.dc < 0x1_0000
  }

  lemma SingleStandsAlone(pic: Picture, last: Frame, l: Leaf, i: nat)
    requires GoodLeaf(pic, l) && l.op.Copy? && Sized(pic, |last|) && l.log2w == 0 && i < Pow2(l.log2h)
    ensures StandsAlone(pic, last, l, i, 0)
  {
    LowOfSpread(SourcePixel(pic, last, l, i, 0), l.op.dc);
  }

  lemma PairAlone(p0: Pixel, p1: Pixel, q0: Pixel, q1: Pixel, dc: Pixel)
    requires (q0, q1) == LittleEndianMul(p0, p1, 1, Spread(dc))
    ensures q0 == Independent(p0, 1, dc) && q1 == Independent(p1, 1, dc) <==> p0 + dc < 0x1_0000
  {
    IndependentIff(p0, p1, 1, dc);
  }

  lemma PairStandsAlone(pic: Picture, last: Frame, l: Leaf, i: nat, c: nat, c': nat)
    requires GoodLeaf(pic, l) && l.op.Copy? && Sized(pic, |last|) && i < Pow2(l.log2h)
    requires c % 2 == 0 && c' == c + 1 && c' < Pow2(l.log2w)
    ensures StandsAlone(pic, last, l, i, c) && StandsAlone(pic, last, l, i, c') <==> NoCarry(pic, last, l, i, c)
  {
    var src: nat := l.op.src + i * pic.width;
    SourceInside(pic, l.op.src, l.log2w, l.log2h, i, Pow2(l.log2w) - 1);
    CopiedPair(pic, last, l, i, c, c', src);
    assert SourcePixel(pic, last, l, i, c) == last[src + c] && SourcePixel(pic, last, l, i, c') == last[src + c'];
    PairAlone(last[src + c], last[src + c'],
              CopiedPixel(pic, last, l, i, c), CopiedPixel(pic, last, l, i, c'), l.op.dc);
  }

  predicate InLeaf(l: Leaf, i: nat, c: nat) {
    i < Pow2(l.log2h) && c < Pow2(l.log2w)
  }

  /** The leaf is the independent sums of its pixels. */
  ghost predicate AllAlone(pic: Picture, last: Frame, l: Leaf)
    requires GoodLeaf(pic, l) && l.op.Copy? && Sized(pic, |last|)
  {
    forall i: nat, c: nat | InLeaf(l, i, c) :: StandsAlone(pic, last, l, i, c)
  }

  /** No sum in an even column that has a neighbour reaches 2^16. */
  ghost predicate NoneCarries(pic: Picture, last: Frame, l: Leaf)
    requires GoodLeaf(pic, l) && l.op.Copy? && Sized(pic, |last|)
  {
    l.log2w > 0 ==> forall i: nat, c: nat | InLeaf(l, i, c) && c % 2 == 0 :: NoCarry(pic, last, l, i, c)
  }

  lemma AloneFromNoCarry(pic: Picture, last: Frame, l: Leaf, i: nat, c: nat)
    requires GoodLeaf(pic, l) && l.op.Copy? && Sized(pic, |last|) && NoneCarries(pic, last, l) && InLeaf(l, i, c)
    ensures StandsAlone(pic, last, l, i, c)
  {
    if l.log2w == 0 {
      SingleStandsAlone(pic, last, l, i);
    } else {
      EvenColumn(c, l.log2w);
      var even: nat := c - c % 2;
      assert InLeaf(l, i, even) && even % 2 == 0;
      PairStandsAlone(pic, last, l, i, even, even + 1);
    }
  }

  lemma NoCarryFromAlone(pic: Picture, last: Frame, l: Leaf, i: nat, c: nat)
    requires GoodLeaf(pic, l) && l.op.Copy? && Sized(pic, |last|) && AllAlone(pic, last, l)
    requires InLeaf(l, i, c) && c % 2 == 0 && l.log2w > 0
    ensures NoCarry(pic, last, l, i, c)
  {
    EvenColumn(c, l.log2w);
    assert InLeaf(l, i, c + 1);
    PairStandsAlone(pic, last, l, i, c, c + 1);
  }

  /** A copied leaf is the independent sums of its pixels exactly when no sum in an even column carries. */
  lemma LeafIndependentIff(pic: Picture, last: Frame, l: Leaf)
    requires GoodLeaf(pic, l) && l.op.Copy? && Sized(pic, |last|)
    ensures AllAlone(pic, last, l) <==> NoneCarries(pic, last, l)
  {
    if NoneCarries(pic, last, l) {
      forall i: nat, c: nat | InLeaf(l, i, c) ensures StandsAlone(pic, last, l, i, c) {
        AloneFromNoCarry(pic, last, l, i, c);
      }
    }
    if AllAlone(pic, last, l) && l.log2w > 0 {
      forall i: nat, c: nat | InLeaf(l, i, c) && c % 2 == 0 ensures NoCarry(pic, last, l, i, c) {
        NoCarryFromAlone(pic, last, l, i, c);
      }
    }
  }

  lemma PairIsLeaf(pic: Picture, last: Frame, l: Leaf, i: nat, c: nat, src: nat, scale: nat, dc: Pixel)
    requires GoodLeaf(pic, l) && Sized(pic, |last|) && RowSource(pic, l, i, src, scale, dc)
    requires i < Pow2(l.log2h) && c % 2 == 0 && c + 1 < Pow2(l.log2w) && src + Pow2(l.log2w) <= |last|
    ensures !l.op.Skip?
    ensures LittleEndianMul(last[src + c], last[src + c + 1], scale, Spread(dc))
         == (LeafPixel(pic, last, l, l.x + c, l.y + i), LeafPixel(pic, last, l, l.x + c + 1, l.y + i))
  {
    if scale == 0 {
      FillExact(last[src + c], last[src + c + 1], dc);
    } else {
      var c' := c + 1;
      CopiedPair(pic, last, l, i, c, c', src);
      CopyAt(pic, last, l, i, c, l.x + c, l.y + i);
      CopyAt(pic, last, l, i, c', l.x + c + 1, l.y + i);
    }
  }

  lemma SingleIsLeaf(pic: Picture, last: Frame, l: Leaf, i: nat, src: nat, scale: nat, dc: Pixel)
    requires GoodLeaf(pic, l) && Sized(pic, |last|) && RowSource(pic, l, i, src, scale, dc)
    requires i < Pow2(l.log2h) && l.log2w == 0 && src < |last|
    ensures !l.op.Skip?
    ensures Low(scale * last[src] + Spread(dc)) == LeafPixel(pic, last, l, l.x, l.y + i)
  {
    if scale == 0 {
      FillExact(last[src], last[src], dc);
    } else {
      CopyAt(pic, last, l, i, 0, l.x, l.y + i);
      assert CopiedPixel(pic, last, l, i, 0) == Low(1 * last[src] + Spread(dc));
    }
  }

  // ---- the decoder ------------------------------------------------------------------------------

  class Decoder {
    const pic: Picture
    var frame: array<Pixel>
    var last: array<Pixel>
    var streams: Streams
    ghost var writes: seq<nat>

    ghost predicate Valid()
      reads this, frame, last
    {
      && frame != last && ValidPicture(pic) && ValidStreams(streams)
      && Sized(pic, frame.Length) && Sized(pic, last.Length) && Sized(pic, |writes|)
    }

    ghost function Painting(): Canvas
      reads this, frame
    {
      Canvas(frame[..], writes)
    }

    method Store(dst: nat, v: Pixel)
      requires Valid() && dst < frame.Length
      modifies this`writes, frame
      ensures Valid() && last[..] == old(last[..])
      ensures Painting() == Canvas(old(frame[..])[dst := v], old(writes)[dst := old(writes)[dst] + 1])
    {
      frame[dst] := v;
      writes := writes[dst := writes[dst] + 1];
    }

    /** One pixel of a leaf; dst is its place in the frame. */
    method StorePixel(dst: nat, v: Pixel, ghost l: Leaf, ghost s: Canvas, ghost i: nat, ghost c: nat, ghost c': nat)
      requires Valid() && GoodLeaf(pic, l) && !l.op.Skip? && s.Fits(pic)
      requires i < Pow2(l.log2h) && c < Pow2(l.log2w) && c' == c + 1
      requires dst == Index(l.x + c, l.y + i, pic.width, pic.height)
      requires v == LeafPixel(pic, last[..], l, l.x + c, l.y + i)
      requires Partly(pic, last[..], l, s, Painting(), i, c)
      modifies this`writes, frame
      ensures Valid() && last[..] == old(last[..])
      ensures Partly(pic, last[..], l, s, Painting(), i, c')
    {
      ghost var t := Painting();
      Store(dst, v);
      PixelDone(pic, last[..], l, s, t, Painting(), i, c, c', dst);
    }

    /** LE_CENTRIC_MUL(dst, src, scale, dc). */
    method StorePair(dst: nat, src: nat, scale: nat, dc: Pixel,
                     ghost l: Leaf, ghost s: Canvas, ghost i: nat, ghost c: nat, ghost row: nat)
      requires Valid() && GoodLeaf(pic, l) && !l.op.Skip? && s.Fits(pic)
      requires i < Pow2(l.log2h) && c % 2 == 0 && c + 1 < Pow2(l.log2w)
      requires RowSource(pic, l, i, row, scale, dc) && src == row + c && row + Pow2(l.log2w) <= last.Length
      requires dst == Index(l.x + c, l.y + i, pic.width, pic.height)
      requires Partly(pic, last[..], l, s, Painting(), i, c)
      modifies this`writes, frame
      ensures Valid() && last[..] == old(last[..])
      ensures Partly(pic, last[..], l, s, Painting(), i, c + 2)
    {
      PairIsLeaf(pic, last[..], l, i, c, row, scale, dc);
      var pair := LittleEndianMul(last[src], last[src + 1], scale, Spread(dc));
      StorePixel(dst, pair.0, l, s, i, c, c + 1);
      StorePixel(dst + 1, pair.1, l, s, i, c + 1, c + 2);
    }

    /** One row of mcdc, by block width. */
    method StoreRow(dst: nat, src: nat, log2w: nat, scale: nat, dc: Pixel, ghost l: Leaf, ghost s: Canvas, ghost i: nat)
      requires Valid() && GoodLeaf(pic, l) && !l.op.Skip? && s.Fits(pic) && log2w == l.log2w
      requires i < Pow2(l.log2h) && RowSource(pic, l, i, src, scale, dc) && src + Pow2(l.log2w) <= last.Length
      requires dst == Index(l.x, l.y + i, pic.width, pic.height)
      requires Partly(pic, last[..], l, s, Painting(), i, 0)
      modifies this`writes, frame
      ensures Valid() && last[..] == old(last[..])
      ensures Partly(pic, last[..], l, s, Painting(), i + 1, 0)
    {
      if log2w == 0 {
        SingleIsLeaf(pic, last[..], l, i, src, scale, dc);
        StorePixel(dst, Low(scale * last[src] + Spread(dc)), l, s, i, 0, 1);
        RowDone(pic, last[..], l, s, Painting(), i, 1, i + 1);
      } else if log2w == 1 {
        StorePair(dst, src, scale, dc, l, s, i, 0, src);
        RowDone(pic, last[..], l, s, Painting(), i, 2, i + 1);
      } else if log2w == 2 {
        StorePair(dst, src, scale, dc, l, s, i, 0, src);
        StorePair(dst + 2, src + 2, scale, dc, l, s, i, 2, src);
        RowDone(pic, last[..], l, s, Painting(), i, 4, i + 1);
      } else {
        StorePair(dst, src, scale, dc, l, s, i, 0, src);
        StorePair(dst + 2, src + 2, scale, dc, l, s, i, 2, src);
        StorePair(dst + 4, src + 4, scale, dc, l, s, i, 4, src);
        StorePair(dst + 6, src + 6, scale, dc, l, s, i, 6, src);
        RowDone(pic, last[..], l, s, Painting(), i, 8, i + 1);
      }
    }

    /** mcdc: moves or fills the block row by row. With scale 0 the source does not advance. */
    method Mcdc(dst: nat, src: nat, log2w: nat, h: nat, stride: nat, scale: nat, dc: Pixel, ghost l: Leaf)
      requires Valid() && GoodLeaf(pic, l) && !l.op.Skip? && log2w == l.log2w && h == Pow2(l.log2h)
      requires stride == pic.width && SourceOk(pic, src, l.log2w, l.log2h) && RowSource(pic, l, 0, src, scale, dc)
      requires dst == Index(l.x, l.y, pic.width, pic.height)
      modifies this`writes, frame
      ensures Valid() && last[..] == old(last[..])
      ensures Painted(pic, last[..], [l], old(Painting()), Painting())
    {
      ghost var s := Painting();
      var i: nat, d: nat, from: nat := 0, dst, src;
      FirstRow(pic, l, dst, src, scale, dc);
      while i < h
        invariant i <= h && Valid() && last[..] == old(last[..])
        invariant i < h ==> RowReady(pic, l, i, d, from, scale, dc)
        invariant Partly(pic, last[..], l, s, Painting(), i, 0)
      {
        StoreRow(d, from, log2w, scale, dc, l, s, i);
        NextRow(pic, l, i, d, from, scale, dc, i + 1, d + stride, if scale != 0 then from + stride else from);
        if scale != 0 {
          from := from + stride;
        }
        d := d + stride;
        i := i + 1;
      }
      LeafDone(pic, last[..], l, s, Painting(), i);
    }

    /** The second raw pixel of a 2x1 block, beside the first. */
    method StoreBeside(dst: nat, second: Pixel, ghost l: Leaf, ghost s: Canvas)
      requires Valid() && GoodLeaf(pic, l) && !l.op.Skip? && s.Fits(pic) && l.log2w == 1 && l.log2h == 0
      requires dst == Index(l.x, l.y, pic.width, pic.height)
      requires second == LeafPixel(pic, last[..], l, l.x + 1, l.y)
      requires Partly(pic, last[..], l, s, Painting(), 0, 1)
      modifies this`writes, frame
      ensures Valid() && last[..] == old(last[..])
      ensures Partly(pic, last[..], l, s, Painting(), 1, 0)
    {
      StorePixel(dst + 1, second, l, s, 0, 1, 2);
      RowDone(pic, last[..], l, s, Painting(), 0, 2, 1);
    }

    /** The second raw pixel of a 1x2 block, below the first. */
    method StoreBelow(dst: nat, second: Pixel, stride: nat, ghost l: Leaf, ghost s: Canvas)
      requires Valid() && GoodLeaf(pic, l) && !l.op.Skip? && s.Fits(pic) && l.log2w == 0 && l.log2h == 1
      requires dst == Index(l.x, l.y, pic.width, pic.height) && stride == pic.width
      requires second == LeafPixel(pic, last[..], l, l.x, l.y + 1)
      requires Partly(pic, last[..], l, s, Painting(), 0, 1)
      modifies this`writes, frame
      ensures Valid() && last[..] == old(last[..])
      ensures Partly(pic, last[..], l, s, Painting(), 2, 0)
    {
      RowDone(pic, last[..], l, s, Painting(), 0, 1, 1);
      StorePixel(dst + stride, second, l, s, 1, 0, 1);
      RowDone(pic, last[..], l, s, Painting(), 1, 1, 2);
    }

    /** Code 6: the two pixels of a 2x1 or 1x2 block come straight from the word stream. */
    method StoreRaw(dst: nat, log2w: nat, stride: nat, ghost l: Leaf)
      requires Valid() && GoodLeaf(pic, l) && l.op.Raw? && log2w == l.log2w && stride == pic.width
      requires |streams.words| >= 4 && l.op == Raw(Le16(streams.words), Le16(streams.words[2..]))
      requires dst == Index(l.x, l.y, pic.width, pic.height)
      modifies this`writes, this`streams, frame
      ensures Valid() && last[..] == old(last[..])
      ensures streams == old(streams).(words := old(streams).words[4..])
      ensures Painted(pic, last[..], [l], old(Painting()), Painting())
    {
      ghost var s := Painting();
      var first := Le16(streams.words);
      streams := streams.(words := streams.words[2..]);
      var second := Le16(streams.words);
      streams := streams.(words := streams.words[2..]);
      StorePixel(dst, first, l, s, 0, 0, 1);
      if log2w != 0 {
        StoreBeside(dst, second, l, s);
      } else {
        StoreBelow(dst, second, stride, l, s);
      }
      LeafDone(pic, last[..], l, s, Painting(), Pow2(l.log2h));
    }

    /** The codes that do not split the block. */
    method DecodeLeaf(dst: nat, src: nat, log2w: nat, log2h: nat, stride: nat, code: nat, ghost x: nat, ghost y: nat)
        returns (ok: bool, ghost leaf: Leaf)
      requires Valid() && CanParse(pic, streams, x, y, log2w, log2h) && stride == pic.width
      requires code < 7 && code != 1 && code != 2 && (code == 6 ==> log2w + log2h == 1)
      requires dst == src == Index(x, y, pic.width, pic.height)
      modifies this`writes, this`streams, frame
      ensures Valid() && last[..] == old(last[..])
      ensures ok <==> ParseLeaf(pic, old(streams), x, y, log2w, log2h, code).Parsed?
      ensures ok ==> ParseLeaf(pic, old(streams), x, y, log2w, log2h, code) == Parsed([leaf], streams)
      ensures ok ==> GoodLeaves(pic, [leaf]) && Painted(pic, last[..], [leaf], old(Painting()), Painting())
    {
      UnmovedPasses(pic, x, y, log2w, log2h);
      leaf := Leaf(x, y, log2w, log2h, Skip);
      if code == 6 {
        if |streams.words| < 4 {
          return false, leaf;
        }
        leaf := Leaf(x, y, log2w, log2h, Raw(Le16(streams.words), Le16(streams.words[2..])));
        StoreRaw(dst, log2w, stride, leaf);
        return true, leaf;
      }
      if (code == 0 || code == 4) && |streams.bytes| < 1 {
        return false, leaf;
      }
      var from: int, scale, dc := src, 1, 0;
      if code == 0 {
        from := src + pic.mv[streams.bytes[0]];
        streams := streams.(bytes := streams.bytes[1..]);
      } else if code == 3 && pic.version >= 2 {
        SkipDone(pic, last[..], leaf, Painting());
        return true, leaf;
      } else if code == 4 {
        from := src + pic.mv[streams.bytes[0]];
        streams := streams.(bytes := streams.bytes[1..]);
        if |streams.words| < 2 {
          return false, leaf;
        }
        dc := Le16(streams.words);
        streams := streams.(words := streams.words[2..]);
      } else if code == 5 {
        if |streams.words| < 2 {
          return false, leaf;
        }
        assert SourceOk(pic, from, log2w, log2h);
        scale := 0;
        dc := Le16(streams.words);
        streams := streams.(words := streams.words[2..]);
      }
      if 0 > from || from > stride * (pic.height - Pow2(log2h) + 1) - Pow2(log2w) {
        return false, leaf;
      }
      leaf := Leaf(x, y, log2w, log2h, if scale == 0 then Fill(dc) else Copy(from, dc));
      Mcdc(dst, from, log2w, Pow2(log2h), stride, scale, dc, leaf);
      ok := true;
    }

    /** decode_p_block. It draws the leaves of the parse, in place, or stops at the first bad leaf. */
    method DecodePBlock(dst: nat, src: nat, log2w: nat, log2h: nat, stride: nat, ghost x: nat, ghost y: nat)
        returns (ok: bool, ghost leaves: seq<Leaf>)
      requires Valid() && CanParse(pic, streams, x, y, log2w, log2h) && stride == pic.width
      requires dst == src == Index(x, y, pic.width, pic.height)
      modifies this`writes, this`streams, frame
      ensures Valid() && last[..] == old(last[..])
      ensures Drawn(ParseBlock(pic, old(streams), x, y, log2w, log2h), ok, leaves, old(Painting()))
      decreases log2w + log2h
    {
      if |streams.bits| < 1 {
        return false, [];
      }
      ghost var s, given := Painting(), streams;
      var next := NextSymbol(pic, streams.bits, log2w, log2h);
      var code := next.0;
      streams := streams.(bits := next.1);
      if code == 1 {
        var half := Half(log2h);
        StepDown(pic, x, y, half);
        ok, leaves := DecodeTwo(dst, src, stride * Pow2(half), log2w, half, stride, x, y, x, Past(y, half));
      } else if code == 2 {
        var half := Half(log2w);
        ok, leaves := DecodeTwo(dst, src, Pow2(half), half, log2h, stride, x, y, Past(x, half), y);
      } else {
        ghost var leaf;
        ok, leaf := DecodeLeaf(dst, src, log2w, log2h, stride, code, x, y);
        leaves := [leaf];
      }
    }

    /** The two recursive calls of a split; step is the distance between the halves. */
    method DecodeTwo(dst: nat, src: nat, step: nat, log2w: nat, log2h: nat, stride: nat,
                     ghost x: nat, ghost y: nat, ghost x': nat, ghost y': nat)
        returns (ok: bool, ghost leaves: seq<Leaf>)
      requires Valid() && CanParse(pic, streams, x, y, log2w, log2h) && stride == pic.width
      requires InFrame(pic, x', y', log2w, log2h)
      requires dst == src == Index(x, y, pic.width, pic.height)
      requires dst + step == Index(x', y', pic.width, pic.height)
      modifies this`writes, this`streams, frame
      ensures Valid() && last[..] == old(last[..])
      ensures Drawn(ParseTwo(pic, old(streams), x, y, x', y', log2w, log2h), ok, leaves, old(Painting()))
      decreases log2w + log2h + 1, 0
    {
      ghost var s := Painting();
      ok, leaves := DecodePBlock(dst, src, log2w, log2h, stride, x, y);
      if !ok {
        return;
      }
      ghost var t, more := Painting(), [];
      ok, more := DecodePBlock(dst + step, src + step, log2w, log2h, stride, x', y');
      if ok {
        PaintedConcat(pic, last[..], leaves, more, s, t, Painting());
        leaves := leaves + more;
      }
    }

    /** The blocks before column col of row row are drawn over s and consumed from the given streams. */
    ghost predicate Progress(grid: Grid, given: Streams, s: Canvas, col: nat, row: nat, leaves: seq<Leaf>)
      reads this, frame, last
    {
      && Valid() && ValidStreams(given) && OnGrid(pic, grid, col, row) && s.Fits(pic)
      && GoodLeaves(pic, leaves) && Painted(pic, last[..], leaves, s, Painting())
      && ParseFrom(pic, grid, given, 0, 0, []) == ParseFrom(pic, grid, streams, col, row, leaves)
    }

    /** One 8x8 block of the frame. */
    method DecodeNext(dst: nat, ghost grid: Grid, ghost given: Streams, ghost s: Canvas,
                      ghost col: nat, ghost row: nat, ghost col': nat, ghost done: seq<Leaf>)
        returns (ok: bool, ghost leaves: seq<Leaf>)
      requires Progress(grid, given, s, col, row, done) && col < grid.cols && row < grid.rows && col' == col + 1
      requires dst == Index(Corner(col), Corner(row), pic.width, pic.height)
      modifies this`writes, this`streams, frame
      ensures Valid() && last[..] == old(last[..])
      ensures if ok then Progress(grid, given, s, col', row, leaves)
              else ParseFrom(pic, grid, given, 0, 0, []) == Failed
    {
      ghost var t, more := Painting(), [];
      ok, more := DecodePBlock(dst, dst, 3, 3, pic.width, Corner(col), Corner(row));
      if ok {
        PaintedConcat(pic, last[..], done, more, s, t, Painting());
      }
      leaves := done + more;
    }

    /** The inner loop of decode_p_frame. */
    method DecodeRow(line: nat, ghost grid: Grid, ghost given: Streams, ghost s: Canvas,
                     ghost row: nat, ghost row': nat, ghost done: seq<Leaf>)
        returns (ok: bool, ghost leaves: seq<Leaf>)
      requires Progress(grid, given, s, 0, row, done) && row < grid.rows && row' == row + 1
      requires line == Corner(row) * pic.width
      modifies this`writes, this`streams, frame
      ensures Valid() && last[..] == old(last[..])
      ensures if ok then Progress(grid, given, s, 0, row', leaves) else ParseFrom(pic, grid, given, 0, 0, []) == Failed
    {
      ghost var col := 0;
      var x: nat := 0;
      ok, leaves := true, done;
      while x < pic.width
        invariant Progress(grid, given, s, col, row, leaves) && x == Corner(col) && ok
        invariant last[..] == old(last[..])
      {
        ok, leaves := DecodeNext(line + x, grid, given, s, col, row, col + 1, leaves);
        if !ok {
          return;
        }
        x := x + 8;
        col := col + 1;
      }
    }

    /** decode_p_frame's block loops: all blocks in raster order. */
    method DecodePFrame(ghost grid: Grid) returns (ok: bool, ghost leaves: seq<Leaf>)
      requires Valid() && OnGrid(pic, grid, 0, 0)
      modifies this`writes, this`streams, frame
      ensures Valid() && last[..] == old(last[..])
      ensures Drawn(ParseFrom(pic, grid, old(streams), 0, 0, []), ok, leaves, old(Painting()))
      ensures ok ==> Tiles(leaves, 0, 0, pic.width, pic.height)
    {
      ghost var given, s, row := streams, Painting(), 0;
      var y: nat, line: nat := 0, 0;
      ok, leaves := true, [];
      PaintedNothing(pic, last[..], s);
      while y < pic.height
        invariant Progress(grid, given, s, 0, row, leaves) && y == Corner(row) && line == y * pic.width && ok
        invariant last[..] == old(last[..])
      {
        ok, leaves := DecodeRow(line, grid, given, s, row, row + 1, leaves);
        if !ok {
          return;
        }
        NextRowOfBlocks(y, line, pic.width);
        line := line + 8 * pic.width;
        y := y + 8;
        row := row + 1;
      }
      FrameTiles(pic, grid, given);
    }

    /** The outcome of a parse has been drawn over canvas s and consumed from the streams. */
    ghost predicate Drawn(p: Parsed, ok: bool, leaves: seq<Leaf>, s: Canvas)
      requires Valid() && s.Fits(pic)
      reads this, frame, last
    {
      && (ok <==> p.Parsed?)
      && (ok ==>
            && p == Parsed(leaves, streams) && GoodLeaves(pic, leaves)
            && Painted(pic, last[..], leaves, s, Painting()))
    }
  }

  // ---- the frame --------------------------------------------------------------------------------

  /** The frame in 8x8 blocks; decode_init accepts multiples of 16 only. */
  datatype Grid = Grid(cols: nat, rows: nat)

  function Corner(block: nat): nat {
    8 * block
  }

  predicate OnGrid(pic: Picture, grid: Grid, col: nat, row: nat) {
    && ValidPicture(pic) && pic.width == Corner(grid.cols) && pic.height == Corner(grid.rows)
    && col <= grid.cols && row <= grid.rows
  }

  /** All blocks from column col of row by on, in raster order, after the leaves done. */
  function ParseFrom(pic: Picture, grid: Grid, st: Streams, col: nat, row: nat, done: seq<Leaf>): Parsed
    requires OnGrid(pic, grid, col, row) && ValidStreams(st)
    decreases grid.rows - row, grid.cols - col
  {
    if row == grid.rows then Parsed(done, st)
    else if col == grid.cols then ParseFrom(pic, grid, st, 0, row + 1, done)
    else
      var block := ParseBlock(pic, st, Corner(col), Corner(row), 3, 3);
      if block.Failed? then Failed else ParseFrom(pic, grid, block.rest, col + 1, row, done + block.leaves)
  }

  lemma PaintedNothing(pic: Picture, last: Frame, s: Canvas)
    requires Sized(pic, |last|) && s.Fits(pic)
    ensures Painted(pic, last, [], s, s)
  {
  }

  lemma NextRowOfBlocks(y: nat, line: nat, width: nat)
    requires line == y * width
    ensures line + 8 * width == (y + 8) * width
  {
  }

  /** The pixels of the blocks before column col of row row. */
  predicate Before(pic: Picture, px: nat, py: nat, col: nat, row: nat) {
    px < pic.width && (py < Corner(row) || (py < Corner(row) + 8 && px < Corner(col)))
  }

  /** The leaves cover just the blocks before column col of row row, each pixel once. */
  ghost predicate CoverBefore(pic: Picture, leaves: seq<Leaf>, col: nat, row: nat) {
    forall px: nat, py: nat :: Count(leaves, px, py) == if Before(pic, px, py, col, row) then 1 else 0
  }

  lemma BlockCovers(pic: Picture, grid: Grid, done: seq<Leaf>, block: seq<Leaf>, col: nat, row: nat, col': nat)
    requires OnGrid(pic, grid, col, row) && col < grid.cols && row < grid.rows && col' == col + 1
    requires CoverBefore(pic, done, col, row) && Tiles(block, Corner(col), Corner(row), 8, 8)
    ensures CoverBefore(pic, done + block, col', row)
  {
    forall px: nat, py: nat
      ensures Count(done + block, px, py) == if Before(pic, px, py, col', row) then 1 else 0
    {
      CountConcat(done, block, px, py);
    }
  }

  lemma RowCovered(pic: Picture, grid: Grid, done: seq<Leaf>, row: nat, row': nat)
    requires OnGrid(pic, grid, grid.cols, row) && row' == row + 1
    requires CoverBefore(pic, done, grid.cols, row)
    ensures CoverBefore(pic, done, 0, row')
  {
    forall px: nat, py: nat
      ensures Count(done, px, py) == if Before(pic, px, py, 0, row') then 1 else 0
    {
    }
  }

  lemma {:induction false} FrameCovers(pic: Picture, grid: Grid, st: Streams, col: nat, row: nat, done: seq<Leaf>)
    requires OnGrid(pic, grid, col, row) && ValidStreams(st) && (row == grid.rows ==> col == 0)
    requires CoverBefore(pic, done, col, row) && ParseFrom(pic, grid, st, col, row, done).Parsed?
    ensures CoverBefore(pic, ParseFrom(pic, grid, st, col, row, done).leaves, 0, grid.rows)
    decreases grid.rows - row, grid.cols - col
  {
    if row == grid.rows {
    } else if col == grid.cols {
      RowStep(pic, grid, st, col, row, row + 1, done);
    } else {
      BlockStep(pic, grid, st, col, row, col + 1, done);
    }
  }

  lemma {:induction false} RowStep(pic: Picture, grid: Grid, st: Streams,
                                     col: nat, row: nat, row': nat, done: seq<Leaf>)
    requires OnGrid(pic, grid, col, row) && col == grid.cols && ValidStreams(st) && row < grid.rows && row' == row + 1
    requires CoverBefore(pic, done, col, row) && ParseFrom(pic, grid, st, col, row, done).Parsed?
    ensures CoverBefore(pic, ParseFrom(pic, grid, st, col, row, done).leaves, 0, grid.rows)
    decreases grid.rows - row, 0, 0
  {
    RowCovered(pic, grid, done, row, row');
    assert ParseFrom(pic, grid, st, col, row, done) == ParseFrom(pic, grid, st, 0, row', done);
    FrameCovers(pic, grid, st, 0, row', done);
  }

  lemma {:induction false} BlockStep(pic: Picture, grid: Grid, st: Streams,
                                       col: nat, row: nat, col': nat, done: seq<Leaf>)
    requires OnGrid(pic, grid, col, row) && ValidStreams(st) && row < grid.rows && col < grid.cols && col' == col + 1
    requires CoverBefore(pic, done, col, row) && ParseFrom(pic, grid, st, col, row, done).Parsed?
    ensures CoverBefore(pic, ParseFrom(pic, grid, st, col, row, done).leaves, 0, grid.rows)
    decreases grid.rows - row, grid.cols - col, 0
  {
    var block := ParseBlock(pic, st, Corner(col), Corner(row), 3, 3);
    ParseTiles(pic, st, Corner(col), Corner(row), 3, 3);
    BlockCovers(pic, grid, done, block.leaves, col, row, col');
    var all := done + block.leaves;
    assert ParseFrom(pic, grid, st, col, row, done) == ParseFrom(pic, grid, block.rest, col', row, all);
    FrameCovers(pic, grid, block.rest, col', row, all);
  }

  /** The leaves of a whole frame tile it. */
  lemma FrameTiles(pic: Picture, grid: Grid, st: Streams)
    requires OnGrid(pic, grid, 0, 0) && ValidStreams(st)
    ensures ParseFrom(pic, grid, st, 0, 0, []).Parsed? ==>
              Tiles(ParseFrom(pic, grid, st, 0, 0, []).leaves, 0, 0, pic.width, pic.height)
  {
    if ParseFrom(pic, grid, st, 0, 0, []).Parsed? {
      FrameCovers(pic, grid, st, 0, 0, []);
    }
  }

  lemma StepDown(pic: Picture, x: nat, y: nat, half: nat)
    requires x < pic.width && Past(y, half) < pic.height
    ensures Index(x, y, pic.width, pic.height) + pic.width * Pow2(half)
            == Index(x, Past(y, half), pic.width, pic.height)
  {
    assert (y + Pow2(half)) * pic.width == y * pic.width + pic.width * Pow2(half);
  }

  /** Where mcdc stands before row i of the leaf: d in the frame, from in the last frame. */
  predicate RowReady(pic: Picture, l: Leaf, i: nat, d: nat, from: nat, scale: nat, dc: Pixel)
    requires GoodLeaf(pic, l) && i < Pow2(l.log2h)
  {
    && d == Index(l.x, l.y + i, pic.width, pic.height)
    && RowSource(pic, l, i, from, scale, dc) && from + Pow2(l.log2w) <= pic.width * pic.height
  }

  lemma FirstRow(pic: Picture, l: Leaf, d: nat, src: nat, scale: nat, dc: Pixel)
    requires GoodLeaf(pic, l) && RowSource(pic, l, 0, src, scale, dc) && SourceOk(pic, src, l.log2w, l.log2h)
    requires d == Index(l.x, l.y, pic.width, pic.height)
    ensures RowReady(pic, l, 0, d, src, scale, dc)
  {
    SourceInside(pic, src, l.log2w, l.log2h, 0, Pow2(l.log2w) - 1);
  }

  lemma RowAdvance(a: nat, b: nat, width: nat)
    requires b == a + 1
    ensures b * width == a * width + width
  {
  }

  lemma NextRow(pic: Picture, l: Leaf, i: nat, d: nat, from: nat, scale: nat, dc: Pixel, i': nat, d': nat, from': nat)
    requires GoodLeaf(pic, l) && i < Pow2(l.log2h) && RowReady(pic, l, i, d, from, scale, dc)
    requires i' == i + 1 && d' == d + pic.width && from' == if scale != 0 then from + pic.width else from
    ensures i' < Pow2(l.log2h) ==> RowReady(pic, l, i', d', from', scale, dc)
  {
    if i' < Pow2(l.log2h) {
      RowAdvance(i, i', pic.width);
      RowAdvance(l.y + i, l.y + i', pic.width);
      if scale == 1 {
        SourceInside(pic, l.op.src, l.log2w, l.log2h, i', Pow2(l.log2w) - 1);
      }
    }
  }
}
