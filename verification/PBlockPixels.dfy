/**
  From an image to its streams and back: a tree of splits whose leaves say what is in the image is
  written by the encoder, and decoding the streams leaves the image in the frame.

  What a leaf says is put in terms of pixels, at row-by-row offsets of frames.
 */
module PBlockPixels {
  import opened Sums
  import opened PixelWords
  import opened BlockAlphabets
  import opened PBlocks
  import opened PBlockDecode
  import opened PBlockEncoder

  // ---- what a tree says about an image ---------------------------------------------------------

  /** The pixel at an offset of a frame. */
  function Px(frame: Frame, i: int): int {
    if 0 <= i < |frame| then frame[i] else -1
  }

  /** A rectangle of an image, given by its offsets. */
  ghost predicate Rect(x: nat, y: nat, log2w: nat, log2h: nat, px: nat, py: nat) {
    x <= px < x + Pow2(log2w) && y <= py < y + Pow2(log2h)
  }

  /** All pixels of the block have one value. */
  ghost predicate IsFlat(image: Frame, width: nat, x: nat, y: nat, log2w: nat, log2h: nat, value: Pixel) {
    forall px: nat, py: nat | Rect(x, y, log2w, log2h, px, py) :: Px(image, py * width + px) == value
  }

  /** The block looks like the other frame at a distance. */
  ghost predicate IsMoved(image: Frame, width: nat, x: nat, y: nat, log2w: nat, log2h: nat,
                          other: Frame, distance: int)
  {
    forall px: nat, py: nat | Rect(x, y, log2w, log2h, px, py) ::
      Px(image, py * width + px) == Px(other, py * width + px + distance)
  }

  /**
    The block looks like the other frame at a distance, with dc added. A block more than one pixel wide
    is added up in pairs, and what overflows in the first pixel of a pair goes into the second.
   */
  ghost predicate IsAdded(image: Frame, width: nat, x: nat, y: nat, log2w: nat, log2h: nat,
                          other: Frame, distance: int, dc: Pixel)
  {
    forall px: nat, py: nat | Rect(x, y, log2w, log2h, px, py) ::
      var from := py * width + px + distance;
      Px(image, py * width + px)
      == if px < x || (px - x) % 2 == 0 then (Px(other, from) + dc) % 65536
         else (Px(other, from) + dc + (Px(other, from - 1) + dc) / 65536) % 65536
  }

  /**
    The tree says what the image has in the block, given the last frame, and the frame that is drawn
    into, which a still block keeps from version 2 on.
   */
  ghost predicate Shows(pic: Picture, last: Frame, drawn: Frame, image: Frame, t: Tree,
                        x: nat, y: nat, log2w: nat, log2h: nat)
    requires ValidPicture(pic)
    decreases t
  {
    match t
    case Stacked(top, bottom) =>
      && log2h > 0 && Shows(pic, last, drawn, image, top, x, y, log2w, log2h - 1)
      && Shows(pic, last, drawn, image, bottom, x, y + Pow2(log2h - 1), log2w, log2h - 1)
    case Beside(left, right) =>
      && log2w > 0 && Shows(pic, last, drawn, image, left, x, y, log2w - 1, log2h)
      && Shows(pic, last, drawn, image, right, x + Pow2(log2w - 1), y, log2w - 1, log2h)
    case Move(vector) =>
      vector < 256 && IsMoved(image, pic.width, x, y, log2w, log2h, last, pic.mv[vector])
    case Still => IsMoved(image, pic.width, x, y, log2w, log2h, if pic.version > 1 then drawn else last, 0)
    case MoveAdd(vector, dc) =>
      vector < 256 && IsAdded(image, pic.width, x, y, log2w, log2h, last, pic.mv[vector], dc)
    case Flat(value) => IsFlat(image, pic.width, x, y, log2w, log2h, value)
    case Two(first, second) =>
      && Px(image, y * pic.width + x) == first
      && (if log2h == 0 then Px(image, y * pic.width + x + 1) == second
          else Px(image, (y + 1) * pic.width + x) == second)
  }

  // ---- what the leaves draw --------------------------------------------------------------------

  /** The leaf leaves the image's pixel at a place it covers. */
  ghost predicate Right(pic: Picture, last: Frame, drawn: Frame, image: Frame, l: Leaf, px: nat, py: nat)
    requires GoodLeaf(pic, l) && Sized(pic, |last|) && Covers(l, px, py)
  {
    Px(image, py * pic.width + px)
    == if l.op.Skip? then Px(drawn, py * pic.width + px) else LeafPixel(pic, last, l, px, py)
  }

  lemma RowOffset(y: nat, i: nat, row: nat, width: nat)
    requires row == y + i
    ensures row * width == y * width + i * width
  {
  }

  /** The pixel at an offset with dc added, alone or as the second of a pair. */
  predicate Added(last: Frame, from: int, dc: Pixel, second: bool, v: int) {
    v == if !second then (Px(last, from) + dc) % 65536
         else (Px(last, from) + dc + (Px(last, from - 1) + dc) / 65536) % 65536
  }

  lemma CopiedAlone(pic: Picture, last: Frame, l: Leaf, i: nat)
    requires GoodLeaf(pic, l) && l.op.Copy? && Sized(pic, |last|) && l.log2w == 0 && i < Pow2(l.log2h)
    ensures Added(last, l.op.src + i * pic.width, l.op.dc, false, CopiedPixel(pic, last, l, i, 0))
  {
    SourceInside(pic, l.op.src, l.log2w, l.log2h, i, 0);
    var row := l.op.src + i * pic.width;
    AloneValue(last[row], l.op.dc);
    assert CopiedPixel(pic, last, l, i, 0) == Low(1 * last[row] + Spread(l.op.dc));
  }

  lemma AloneValue(p: Pixel, dc: Pixel)
    ensures Low(1 * p + Spread(dc)) == (p + dc) % 65536
  {
    LowOfSpread(p, dc);
  }

  lemma CopiedInPair(pic: Picture, last: Frame, l: Leaf, i: nat, c: nat)
    requires GoodLeaf(pic, l) && l.op.Copy? && Sized(pic, |last|) && l.log2w > 0
    requires i < Pow2(l.log2h) && c < Pow2(l.log2w)
    ensures Added(last, l.op.src + i * pic.width + c, l.op.dc, c % 2 == 1, CopiedPixel(pic, last, l, i, c))
  {
    var row, even: nat := l.op.src + i * pic.width, c - c % 2;
    EvenColumn(c, l.log2w);
    SourceInside(pic, l.op.src, l.log2w, l.log2h, i, 0);
    PairAdded(pic, last, l, i, even, even + 1, row);
  }

  lemma PairAdded(pic: Picture, last: Frame, l: Leaf, i: nat, c: nat, c': nat, row: nat)
    requires GoodLeaf(pic, l) && l.op.Copy? && Sized(pic, |last|) && i < Pow2(l.log2h)
    requires c % 2 == 0 && c' == c + 1 && c' < Pow2(l.log2w) && row == l.op.src + i * pic.width
    ensures Added(last, row + c, l.op.dc, false, CopiedPixel(pic, last, l, i, c))
    ensures Added(last, row + c', l.op.dc, true, CopiedPixel(pic, last, l, i, c'))
  {
    SourceInside(pic, l.op.src, l.log2w, l.log2h, i, Pow2(l.log2w) - 1);
    CopiedPair(pic, last, l, i, c, c', row);
    PairValue(last[row + c], last[row + c'], l.op.dc);
  }

  /** A copying leaf moves the pixel at the distance of its source, alone or as one of a pair. */
  lemma CopiedValue(pic: Picture, last: Frame, l: Leaf, i: nat, c: nat)
    requires GoodLeaf(pic, l) && l.op.Copy? && Sized(pic, |last|)
    requires i < Pow2(l.log2h) && c < Pow2(l.log2w)
    ensures Added(last, l.op.src + i * pic.width + c, l.op.dc, c % 2 == 1, CopiedPixel(pic, last, l, i, c))
  {
    if l.log2w == 0 {
      CopiedAlone(pic, last, l, i);
    } else {
      CopiedInPair(pic, last, l, i, c);
    }
  }

  lemma PairValue(a: Pixel, b: Pixel, dc: Pixel)
    ensures LittleEndianMul(a, b, 1, Spread(dc)) == ((a + dc) % 65536, (b + dc + (a + dc) / 65536) % 65536)
  {
    CarryIntoSecond(a, b, 1, dc);
  }

  /** Copying without dc copies. */
  lemma PlainCopy(a: int, b: int)
    requires 0 <= a < 65536 && 0 <= b < 65536
    ensures (a + 0) % 65536 == a && (a + 0 + (b + 0) / 65536) % 65536 == a
  {
  }

  /** Where row i, column c of the block is read, by the distance of the source. */
  lemma SourceAt(width: nat, src: int, x: nat, y: nat, distance: int, i: nat, c: nat, px: nat, py: nat, from: int)
    requires src == y * width + x + distance && px == x + c && py == y + i && from == src + i * width + c
    ensures from == py * width + px + distance
  {
    RowOffset(y, i, py, width);
  }

  /** What a copying leaf draws, by the distance of its source. */
  lemma CopiedAt(pic: Picture, last: Frame, l: Leaf, distance: int, px: nat, py: nat, c: nat, from: int)
    requires GoodLeaf(pic, l) && l.op.Copy? && Sized(pic, |last|) && Covers(l, px, py)
    requires l.op.src == l.y * pic.width + l.x + distance
    requires px == l.x + c && from == py * pic.width + px + distance
    ensures 0 <= from < |last| && (c % 2 == 1 ==> 0 < from)
    ensures Added(last, from, l.op.dc, c % 2 == 1, LeafPixel(pic, last, l, px, py))
  {
    var i := py - l.y;
    SourceAt(pic.width, l.op.src, l.x, l.y, distance, i, c, px, py, l.op.src + i * pic.width + c);
    CopiedValue(pic, last, l, i, c);
    CopiedInside(pic, l, i, c);
  }

  lemma CopyRight(pic: Picture, last: Frame, drawn: Frame, image: Frame, l: Leaf, distance: int, px: nat, py: nat)
    requires GoodLeaf(pic, l) && l.op.Copy? && Sized(pic, |last|) && Covers(l, px, py)
    requires l.op.src == l.y * pic.width + l.x + distance
    requires (l.op.dc == 0 && IsMoved(image, pic.width, l.x, l.y, l.log2w, l.log2h, last, distance))
             || IsAdded(image, pic.width, l.x, l.y, l.log2w, l.log2h, last, distance, l.op.dc)
    ensures Right(pic, last, drawn, image, l, px, py)
  {
    var c, from := px - l.x, py * pic.width + px + distance;
    CopiedAt(pic, last, l, distance, px, py, c, from);
    assert Rect(l.x, l.y, l.log2w, l.log2h, px, py);
    if l.op.dc == 0 {
      PlainCopy(Px(last, from), if c % 2 == 0 then 0 else Px(last, from - 1));
    }
  }

  lemma CopiedInside(pic: Picture, l: Leaf, i: nat, c: nat)
    requires GoodLeaf(pic, l) && l.op.Copy? && i < Pow2(l.log2h) && c < Pow2(l.log2w)
    ensures 0 <= l.op.src + i * pic.width + c < pic.width * pic.height
    ensures c > 0 ==> 0 <= l.op.src + i * pic.width + c - 1 < pic.width * pic.height
  {
    SourceInside(pic, l.op.src, l.log2w, l.log2h, i, c);
    if c > 0 {
      SourceInside(pic, l.op.src, l.log2w, l.log2h, i, c - 1);
    }
  }

  lemma OneLeaf(pic: Picture, t: Tree, x: nat, y: nat, log2w: nat, log2h: nat)
    requires ValidPicture(pic) && InFrame(pic, x, y, log2w, log2h) && log2w + log2h > 0
    requires Describes(pic, t, x, y, log2w, log2h) && !t.Stacked? && !t.Beside?
    ensures Leaves(pic, t, x, y, log2w, log2h) == [Leaf(x, y, log2w, log2h, OpOf(pic, t, y * pic.width + x))]
  {
  }

  /** Only a block of two pixels can be raw. */
  lemma RawIsTwo(pic: Picture, t: Tree, x: nat, y: nat, log2w: nat, log2h: nat)
    requires ValidPicture(pic) && InFrame(pic, x, y, log2w, log2h) && log2w + log2h > 0
    requires Describes(pic, t, x, y, log2w, log2h) && t.Two?
    ensures log2w + log2h == 1
  {
    Splits(Table(pic), log2w, log2h);
  }

  lemma TwoRight(pic: Picture, last: Frame, drawn: Frame, image: Frame, l: Leaf, px: nat, py: nat)
    requires GoodLeaf(pic, l) && l.op.Raw? && Sized(pic, |last|) && Covers(l, px, py)
    requires Px(image, l.y * pic.width + l.x) == l.op.first
    requires if l.log2h == 0 then Px(image, l.y * pic.width + l.x + 1) == l.op.second
             else Px(image, (l.y + 1) * pic.width + l.x) == l.op.second
    ensures Right(pic, last, drawn, image, l, px, py)
  {
    PowerValues();
    assert l.log2w + l.log2h == 1;
    if l.log2h == 0 {
      assert py == l.y && (px == l.x || px == l.x + 1);
    } else {
      assert px == l.x && (py == l.y || py == l.y + 1);
    }
  }

  /** The leaf of a tree that is one, where it covers a pixel. */
  lemma LeafRight(pic: Picture, last: Frame, drawn: Frame, image: Frame, t: Tree,
                  x: nat, y: nat, log2w: nat, log2h: nat, px: nat, py: nat)
    requires ValidPicture(pic) && InFrame(pic, x, y, log2w, log2h) && log2w + log2h > 0 && Sized(pic, |last|)
    requires Describes(pic, t, x, y, log2w, log2h) && !t.Stacked? && !t.Beside?
    requires Shows(pic, last, drawn, image, t, x, y, log2w, log2h)
    requires Rect(x, y, log2w, log2h, px, py)
    ensures var l := Leaves(pic, t, x, y, log2w, log2h)[0];
            GoodLeaf(pic, l) && Covers(l, px, py) && Right(pic, last, drawn, image, l, px, py)
  {
    OneLeaf(pic, t, x, y, log2w, log2h);
    var l := Leaves(pic, t, x, y, log2w, log2h)[0];
    match t {
      case Move(vector) => CopyRight(pic, last, drawn, image, l, pic.mv[vector], px, py);
      case Still =>
        if pic.version <= 1 {
          UnmovedPasses(pic, x, y, log2w, log2h);
          CopyRight(pic, last, drawn, image, l, 0, px, py);
        }
      case MoveAdd(vector, dc) => CopyRight(pic, last, drawn, image, l, pic.mv[vector], px, py);
      case Flat(_) =>
      case Two(_, _) =>
        RawIsTwo(pic, t, x, y, log2w, log2h);
        TwoRight(pic, last, drawn, image, l, px, py);
    }
  }

  lemma StackedLeaves(pic: Picture, t: Tree, x: nat, y: nat, log2w: nat, log2h: nat)
    requires ValidPicture(pic) && InFrame(pic, x, y, log2w, log2h) && log2w + log2h > 0
    requires Describes(pic, t, x, y, log2w, log2h) && t.Stacked?
    ensures log2h > 0 && log2w + log2h > 1
    ensures var y' := Past(y, Half(log2h));
            && InFrame(pic, x, y', log2w, Half(log2h)) && Describes(pic, t.top, x, y, log2w, Half(log2h))
            && Describes(pic, t.bottom, x, y', log2w, Half(log2h))
            && Leaves(pic, t, x, y, log2w, log2h)
               == Leaves(pic, t.top, x, y, log2w, Half(log2h)) + Leaves(pic, t.bottom, x, y', log2w, Half(log2h))
  {
    Splits(Table(pic), log2w, log2h);
  }

  lemma BesideLeaves(pic: Picture, t: Tree, x: nat, y: nat, log2w: nat, log2h: nat)
    requires ValidPicture(pic) && InFrame(pic, x, y, log2w, log2h) && log2w + log2h > 0
    requires Describes(pic, t, x, y, log2w, log2h) && t.Beside?
    ensures log2w > 0 && log2w + log2h > 1
    ensures var x' := Past(x, Half(log2w));
            && InFrame(pic, x', y, Half(log2w), log2h) && Describes(pic, t.left, x, y, Half(log2w), log2h)
            && Describes(pic, t.right, x', y, Half(log2w), log2h)
            && Leaves(pic, t, x, y, log2w, log2h)
               == Leaves(pic, t.left, x, y, Half(log2w), log2h) + Leaves(pic, t.right, x', y, Half(log2w), log2h)
  {
    Splits(Table(pic), log2w, log2h);
  }

  /** Whichever leaf of the tree covers a pixel leaves what the image has there. */
  lemma {:induction false} LeavesRight(pic: Picture, last: Frame, drawn: Frame, image: Frame, t: Tree,
                                       x: nat, y: nat, log2w: nat, log2h: nat, k: nat, px: nat, py: nat)
    requires ValidPicture(pic) && InFrame(pic, x, y, log2w, log2h) && log2w + log2h > 0 && Sized(pic, |last|)
    requires Describes(pic, t, x, y, log2w, log2h) && Shows(pic, last, drawn, image, t, x, y, log2w, log2h)
    requires k < |Leaves(pic, t, x, y, log2w, log2h)| && Covers(Leaves(pic, t, x, y, log2w, log2h)[k], px, py)
    requires GoodLeaf(pic, Leaves(pic, t, x, y, log2w, log2h)[k])
    ensures Right(pic, last, drawn, image, Leaves(pic, t, x, y, log2w, log2h)[k], px, py)
    decreases log2w + log2h, 2
  {
    if t.Stacked? {
      StackedRight(pic, last, drawn, image, t, x, y, log2w, log2h, k, px, py);
    } else if t.Beside? {
      BesideRight(pic, last, drawn, image, t, x, y, log2w, log2h, k, px, py);
    } else {
      OnlyRight(pic, last, drawn, image, t, x, y, log2w, log2h, k, px, py);
    }
  }

  lemma OnlyRight(pic: Picture, last: Frame, drawn: Frame, image: Frame, t: Tree,
                                        x: nat, y: nat, log2w: nat, log2h: nat, k: nat, px: nat, py: nat)
    requires ValidPicture(pic) && InFrame(pic, x, y, log2w, log2h) && log2w + log2h > 0 && Sized(pic, |last|)
    requires Describes(pic, t, x, y, log2w, log2h) && Shows(pic, last, drawn, image, t, x, y, log2w, log2h)
    requires k < |Leaves(pic, t, x, y, log2w, log2h)| && Covers(Leaves(pic, t, x, y, log2w, log2h)[k], px, py)
    requires GoodLeaf(pic, Leaves(pic, t, x, y, log2w, log2h)[k])
    requires !t.Stacked? && !t.Beside?
    ensures Right(pic, last, drawn, image, Leaves(pic, t, x, y, log2w, log2h)[k], px, py)
  {
    OneLeaf(pic, t, x, y, log2w, log2h);
    assert k == 0;
    LeafRight(pic, last, drawn, image, t, x, y, log2w, log2h, px, py);
  }

  lemma {:induction false} StackedRight(pic: Picture, last: Frame, drawn: Frame, image: Frame, t: Tree,
                                        x: nat, y: nat, log2w: nat, log2h: nat, k: nat, px: nat, py: nat)
    requires ValidPicture(pic) && InFrame(pic, x, y, log2w, log2h) && log2w + log2h > 0 && Sized(pic, |last|)
    requires Describes(pic, t, x, y, log2w, log2h) && Shows(pic, last, drawn, image, t, x, y, log2w, log2h)
    requires k < |Leaves(pic, t, x, y, log2w, log2h)| && Covers(Leaves(pic, t, x, y, log2w, log2h)[k], px, py)
    requires GoodLeaf(pic, Leaves(pic, t, x, y, log2w, log2h)[k])
    requires t.Stacked?
    ensures Right(pic, last, drawn, image, Leaves(pic, t, x, y, log2w, log2h)[k], px, py)
    decreases log2w + log2h, 1
  {
    StackedLeaves(pic, t, x, y, log2w, log2h);
    var half, y' := Half(log2h), Past(y, Half(log2h));
    EitherRight(pic, last, drawn, image, t.top, t.bottom, x, y, x, y', log2w, half, k, px, py);
  }

  lemma {:induction false} BesideRight(pic: Picture, last: Frame, drawn: Frame, image: Frame, t: Tree,
                                        x: nat, y: nat, log2w: nat, log2h: nat, k: nat, px: nat, py: nat)
    requires ValidPicture(pic) && InFrame(pic, x, y, log2w, log2h) && log2w + log2h > 0 && Sized(pic, |last|)
    requires Describes(pic, t, x, y, log2w, log2h) && Shows(pic, last, drawn, image, t, x, y, log2w, log2h)
    requires k < |Leaves(pic, t, x, y, log2w, log2h)| && Covers(Leaves(pic, t, x, y, log2w, log2h)[k], px, py)
    requires GoodLeaf(pic, Leaves(pic, t, x, y, log2w, log2h)[k])
    requires t.Beside?
    ensures Right(pic, last, drawn, image, Leaves(pic, t, x, y, log2w, log2h)[k], px, py)
    decreases log2w + log2h, 1
  {
    BesideLeaves(pic, t, x, y, log2w, log2h);
    var half, x' := Half(log2w), Past(x, Half(log2w));
    EitherRight(pic, last, drawn, image, t.left, t.right, x, y, x', y, half, log2h, k, px, py);
  }

  lemma {:induction false} EitherRight(pic: Picture, last: Frame, drawn: Frame, image: Frame, a: Tree, b: Tree,
                                       x: nat, y: nat, x': nat, y': nat, log2w: nat, log2h: nat,
                                       k: nat, px: nat, py: nat)
    requires ValidPicture(pic) && InFrame(pic, x, y, log2w, log2h) && InFrame(pic, x', y', log2w, log2h)
    requires log2w + log2h > 0 && Sized(pic, |last|)
    requires Describes(pic, a, x, y, log2w, log2h) && Describes(pic, b, x', y', log2w, log2h)
    requires Shows(pic, last, drawn, image, a, x, y, log2w, log2h)
    requires Shows(pic, last, drawn, image, b, x', y', log2w, log2h)
    requires var leaves := Leaves(pic, a, x, y, log2w, log2h) + Leaves(pic, b, x', y', log2w, log2h);
             k < |leaves| && GoodLeaf(pic, leaves[k]) && Covers(leaves[k], px, py)
    ensures var leaves := Leaves(pic, a, x, y, log2w, log2h) + Leaves(pic, b, x', y', log2w, log2h);
            Right(pic, last, drawn, image, leaves[k], px, py)
    decreases log2w + log2h, 3
  {
    var n := |Leaves(pic, a, x, y, log2w, log2h)|;
    if k < n {
      LeavesRight(pic, last, drawn, image, a, x, y, log2w, log2h, k, px, py);
    } else {
      LeavesRight(pic, last, drawn, image, b, x', y', log2w, log2h, k - n, px, py);
    }
  }

  // ---- a block ---------------------------------------------------------------------------------

  /** The image is in the block, and the rest of the frame is as it was. */
  ghost predicate BlockHas(pic: Picture, before: Frame, after: Frame, image: Frame,
                           x: nat, y: nat, log2w: nat, log2h: nat)
  {
    && |after| == |before|
    && forall px: nat, py: nat | px < pic.width && py < pic.height ::
         Px(after, py * pic.width + px)
         == Px(if Rect(x, y, log2w, log2h, px, py) then image else before, py * pic.width + px)
  }

  /** What is drawn where a leaf covers a pixel. */
  lemma DrawnPixel(pic: Picture, last: Frame, image: Frame, t: Tree, s: Canvas, u: Canvas,
                   x: nat, y: nat, log2w: nat, log2h: nat, px: nat, py: nat)
    requires ValidPicture(pic) && InFrame(pic, x, y, log2w, log2h) && log2w + log2h > 0
    requires Sized(pic, |last|) && s.Fits(pic) && u.Fits(pic)
    requires Describes(pic, t, x, y, log2w, log2h) && Shows(pic, last, s.pixels, image, t, x, y, log2w, log2h)
    requires var leaves := Leaves(pic, t, x, y, log2w, log2h);
             && GoodLeaves(pic, leaves) && Tiles(leaves, x, y, Pow2(log2w), Pow2(log2h))
             && Painted(pic, last, leaves, s, u)
    requires px < pic.width && py < pic.height
    ensures Px(u.pixels, py * pic.width + px)
            == Px(if Rect(x, y, log2w, log2h, px, py) then image else s.pixels, py * pic.width + px)
  {
    var leaves, cell := Leaves(pic, t, x, y, log2w, log2h), s.At(pic, px, py);
    assert u.At(pic, px, py) == After(pic, last, leaves, cell, px, py);
    if Rect(x, y, log2w, log2h, px, py) {
      assert Count(leaves, px, py) == 1;
      var k := SomeCover(leaves, px, py);
      OwnLeafDecides(pic, last, leaves, k, cell, px, py);
      LeavesRight(pic, last, s.pixels, image, t, x, y, log2w, log2h, k, px, py);
    } else {
      assert Count(leaves, px, py) == 0;
      Untouched(pic, last, leaves, cell, px, py);
    }
  }

  /** Drawing the leaves of a tree puts the image in its block. */
  lemma BlockShown(pic: Picture, last: Frame, image: Frame, t: Tree, rest: Streams, s: Canvas, u: Canvas,
                   x: nat, y: nat, log2w: nat, log2h: nat)
    requires CanParse(pic, rest, x, y, log2w, log2h) && Sized(pic, |last|) && s.Fits(pic) && u.Fits(pic)
    requires Describes(pic, t, x, y, log2w, log2h) && Shows(pic, last, s.pixels, image, t, x, y, log2w, log2h)
    requires var leaves := Leaves(pic, t, x, y, log2w, log2h);
             GoodLeaves(pic, leaves) && Painted(pic, last, leaves, s, u)
    ensures BlockHas(pic, s.pixels, u.pixels, image, x, y, log2w, log2h)
  {
    BlockRead(pic, t, rest, x, y, log2w, log2h);
    ParseTiles(pic, Append(Encode(pic, t, x, y, log2w, log2h), rest), x, y, log2w, log2h);
    forall px: nat, py: nat | px < pic.width && py < pic.height
      ensures Px(u.pixels, py * pic.width + px)
              == Px(if Rect(x, y, log2w, log2h, px, py) then image else s.pixels, py * pic.width + px)
    {
      DrawnPixel(pic, last, image, t, s, u, x, y, log2w, log2h, px, py);
    }
  }

  /**
    decode_p_block on the streams that the encoder wrote for a block of the image: it leaves the image
    in the block, changes nothing else, and stops where the streams of the block end.
   */
  method DrawBlock(d: Decoder, log2w: nat, log2h: nat, dst: nat, ghost x: nat, ghost y: nat,
                   ghost t: Tree, ghost rest: Streams, ghost image: Frame) returns (ok: bool)
    requires d.Valid() && CanParse(d.pic, rest, x, y, log2w, log2h) && dst == Index(x, y, d.pic.width, d.pic.height)
    requires Describes(d.pic, t, x, y, log2w, log2h)
    requires d.streams == Append(Encode(d.pic, t, x, y, log2w, log2h), rest)
    requires Shows(d.pic, d.last[..], d.frame[..], image, t, x, y, log2w, log2h)
    modifies d`writes, d`streams, d.frame
    ensures ok && d.Valid() && d.streams == rest && d.last[..] == old(d.last[..])
    ensures BlockHas(d.pic, old(d.frame[..]), d.frame[..], image, x, y, log2w, log2h)
  {
    ghost var s := d.Painting();
    BlockRead(d.pic, t, rest, x, y, log2w, log2h);
    ghost var leaves;
    ok, leaves := d.DecodePBlock(dst, dst, log2w, log2h, d.pic.width, x, y);
    BlockShown(d.pic, d.last[..], image, t, rest, s, d.Painting(), x, y, log2w, log2h);
  }

  // ---- a frame ---------------------------------------------------------------------------------

  /** A tree for every 8x8 block. */
  predicate Shaped(grid: Grid, trees: seq<seq<Tree>>) {
    |trees| == grid.rows && forall row :: 0 <= row < grid.rows ==> |trees[row]| == grid.cols
  }

  predicate DescribedAt(pic: Picture, grid: Grid, trees: seq<seq<Tree>>, col: nat, row: nat)
    requires OnGrid(pic, grid, 0, 0) && Shaped(grid, trees) && col < grid.cols && row < grid.rows
  {
    Describes(pic, trees[row][col], Corner(col), Corner(row), 3, 3)
  }

  ghost predicate AllDescribe(pic: Picture, grid: Grid, trees: seq<seq<Tree>>)
    requires OnGrid(pic, grid, 0, 0)
  {
    && Shaped(grid, trees)
    && forall row, col | 0 <= row < grid.rows && 0 <= col < grid.cols :: DescribedAt(pic, grid, trees, col, row)
  }

  ghost predicate ShownAt(pic: Picture, grid: Grid, last: Frame, drawn: Frame, image: Frame, trees: seq<seq<Tree>>,
                          col: nat, row: nat)
    requires OnGrid(pic, grid, 0, 0) && Shaped(grid, trees) && col < grid.cols && row < grid.rows
  {
    Shows(pic, last, drawn, image, trees[row][col], Corner(col), Corner(row), 3, 3)
  }

  ghost predicate AllShow(pic: Picture, grid: Grid, last: Frame, drawn: Frame, image: Frame, trees: seq<seq<Tree>>)
    requires OnGrid(pic, grid, 0, 0) && Shaped(grid, trees)
  {
    forall row, col | 0 <= row < grid.rows && 0 <= col < grid.cols ::
      ShownAt(pic, grid, last, drawn, image, trees, col, row)
  }

  function TreeAt(grid: Grid, trees: seq<seq<Tree>>, col: nat, row: nat): Tree
    requires Shaped(grid, trees) && col < grid.cols && row < grid.rows
  {
    trees[row][col]
  }

  ghost function EncodeAt(pic: Picture, grid: Grid, trees: seq<seq<Tree>>, col: nat, row: nat): Streams
    requires OnGrid(pic, grid, col, row) && AllDescribe(pic, grid, trees) && col < grid.cols && row < grid.rows
  {
    assert DescribedAt(pic, grid, trees, col, row);
    Encode(pic, TreeAt(grid, trees, col, row), Corner(col), Corner(row), 3, 3)
  }

  ghost function LeavesAt(pic: Picture, grid: Grid, trees: seq<seq<Tree>>, col: nat, row: nat): seq<Leaf>
    requires OnGrid(pic, grid, col, row) && AllDescribe(pic, grid, trees) && col < grid.cols && row < grid.rows
  {
    assert DescribedAt(pic, grid, trees, col, row);
    Leaves(pic, TreeAt(grid, trees, col, row), Corner(col), Corner(row), 3, 3)
  }

  /** The streams of the blocks from column col of row row on. */
  ghost function EncodeBlocks(pic: Picture, grid: Grid, trees: seq<seq<Tree>>, col: nat, row: nat): Streams
    requires OnGrid(pic, grid, col, row) && AllDescribe(pic, grid, trees)
    decreases grid.rows - row, grid.cols - col
  {
    if row == grid.rows then Streams([], [], [])
    else if col == grid.cols then EncodeBlocks(pic, grid, trees, 0, row + 1)
    else Append(EncodeAt(pic, grid, trees, col, row), EncodeBlocks(pic, grid, trees, col + 1, row))
  }

  ghost function LeavesFrom(pic: Picture, grid: Grid, trees: seq<seq<Tree>>, col: nat, row: nat): seq<Leaf>
    requires OnGrid(pic, grid, col, row) && AllDescribe(pic, grid, trees)
    decreases grid.rows - row, grid.cols - col
  {
    if row == grid.rows then []
    else if col == grid.cols then LeavesFrom(pic, grid, trees, 0, row + 1)
    else LeavesAt(pic, grid, trees, col, row) + LeavesFrom(pic, grid, trees, col + 1, row)
  }

  lemma BlockAtRead(pic: Picture, grid: Grid, trees: seq<seq<Tree>>, after: Streams, col: nat, row: nat)
    requires OnGrid(pic, grid, col, row) && AllDescribe(pic, grid, trees) && col < grid.cols && row < grid.rows
    requires ValidStreams(after)
    ensures var st := Append(EncodeAt(pic, grid, trees, col, row), after);
            && ValidStreams(st) && InFrame(pic, Corner(col), Corner(row), 3, 3)
            && ParseBlock(pic, st, Corner(col), Corner(row), 3, 3)
               == Parsed(LeavesAt(pic, grid, trees, col, row), after)
  {
    assert DescribedAt(pic, grid, trees, col, row);
    BlockRead(pic, TreeAt(grid, trees, col, row), after, Corner(col), Corner(row), 3, 3);
  }

  lemma ParseNext(pic: Picture, grid: Grid, st: Streams, leaves: seq<Leaf>, after: Streams,
                  col: nat, row: nat, col': nat, done: seq<Leaf>)
    requires OnGrid(pic, grid, col, row) && col < grid.cols && row < grid.rows && col' == col + 1
    requires ValidStreams(st) && ValidStreams(after) && InFrame(pic, Corner(col), Corner(row), 3, 3)
    requires ParseBlock(pic, st, Corner(col), Corner(row), 3, 3) == Parsed(leaves, after)
    ensures ParseFrom(pic, grid, st, col, row, done) == ParseFrom(pic, grid, after, col', row, done + leaves)
  {
  }

  /** What is read back are the leaves from here on, and the rest of the streams is left. */
  ghost predicate ReadBack(pic: Picture, grid: Grid, trees: seq<seq<Tree>>, rest: Streams,
                           col: nat, row: nat, done: seq<Leaf>)
    requires OnGrid(pic, grid, col, row) && AllDescribe(pic, grid, trees)
  {
    var st := Append(EncodeBlocks(pic, grid, trees, col, row), rest);
    && ValidStreams(st)
    && ParseFrom(pic, grid, st, col, row, done) == Parsed(done + LeavesFrom(pic, grid, trees, col, row), rest)
  }

  lemma BlockReadBack(pic: Picture, grid: Grid, trees: seq<seq<Tree>>, rest: Streams,
                      col: nat, row: nat, col': nat, done: seq<Leaf>)
    requires OnGrid(pic, grid, col, row) && AllDescribe(pic, grid, trees) && ValidStreams(rest)
    requires col < grid.cols && row < grid.rows && col' == col + 1
    requires ReadBack(pic, grid, trees, rest, col', row, done + LeavesAt(pic, grid, trees, col, row))
    ensures ReadBack(pic, grid, trees, rest, col, row, done)
  {
    var block, after := EncodeAt(pic, grid, trees, col, row), Append(EncodeBlocks(pic, grid, trees, col', row), rest);
    var leaves, more := LeavesAt(pic, grid, trees, col, row), LeavesFrom(pic, grid, trees, col', row);
    BlockAtRead(pic, grid, trees, after, col, row);
    AppendAssociates(block, EncodeBlocks(pic, grid, trees, col', row), rest);
    ParseNext(pic, grid, Append(block, after), leaves, after, col, row, col', done);
    assert done + leaves + more == done + (leaves + more);
  }

  lemma EndReadBack(pic: Picture, grid: Grid, trees: seq<seq<Tree>>, rest: Streams, col: nat, row: nat, done: seq<Leaf>)
    requires OnGrid(pic, grid, col, row) && AllDescribe(pic, grid, trees) && ValidStreams(rest) && row == grid.rows
    ensures ReadBack(pic, grid, trees, rest, col, row, done)
  {
    NothingLeft(rest, done);
    assert EncodeBlocks(pic, grid, trees, col, row) == Streams([], [], []);
    assert LeavesFrom(pic, grid, trees, col, row) == [];
  }

  lemma RowReadBack(pic: Picture, grid: Grid, trees: seq<seq<Tree>>, rest: Streams,
                    col: nat, row: nat, row': nat, done: seq<Leaf>)
    requires OnGrid(pic, grid, col, row) && AllDescribe(pic, grid, trees) && ValidStreams(rest)
    requires col == grid.cols && row < grid.rows && row' == row + 1
    requires ReadBack(pic, grid, trees, rest, 0, row', done)
    ensures ReadBack(pic, grid, trees, rest, col, row, done)
  {
    assert EncodeBlocks(pic, grid, trees, col, row) == EncodeBlocks(pic, grid, trees, 0, row');
    assert LeavesFrom(pic, grid, trees, col, row) == LeavesFrom(pic, grid, trees, 0, row');
  }

  /** The blocks are read back one after the other. */
  lemma {:induction false} BlocksRead(pic: Picture, grid: Grid, trees: seq<seq<Tree>>, rest: Streams,
                                      col: nat, row: nat, done: seq<Leaf>)
    requires OnGrid(pic, grid, col, row) && AllDescribe(pic, grid, trees) && ValidStreams(rest)
    ensures ReadBack(pic, grid, trees, rest, col, row, done)
    decreases grid.rows - row, grid.cols - col, 1
  {
    if row == grid.rows {
      EndReadBack(pic, grid, trees, rest, col, row, done);
    } else if col == grid.cols {
      NextRowRead(pic, grid, trees, rest, col, row, row + 1, done);
    } else {
      NextBlocksRead(pic, grid, trees, rest, col, row, col + 1, done);
    }
  }

  lemma {:induction false} NextRowRead(pic: Picture, grid: Grid, trees: seq<seq<Tree>>, rest: Streams,
                                       col: nat, row: nat, row': nat, done: seq<Leaf>)
    requires OnGrid(pic, grid, col, row) && AllDescribe(pic, grid, trees) && ValidStreams(rest)
    requires col == grid.cols && row < grid.rows && row' == row + 1
    ensures ReadBack(pic, grid, trees, rest, col, row, done)
    decreases grid.rows - row, grid.cols - col, 0
  {
    BlocksRead(pic, grid, trees, rest, 0, row', done);
    RowReadBack(pic, grid, trees, rest, col, row, row', done);
  }

  lemma {:induction false} NextBlocksRead(pic: Picture, grid: Grid, trees: seq<seq<Tree>>, rest: Streams,
                                          col: nat, row: nat, col': nat, done: seq<Leaf>)
    requires OnGrid(pic, grid, col, row) && AllDescribe(pic, grid, trees) && ValidStreams(rest)
    requires col < grid.cols && row < grid.rows && col' == col + 1
    ensures ReadBack(pic, grid, trees, rest, col, row, done)
    decreases grid.rows - row, grid.cols - col, 0
  {
    BlocksRead(pic, grid, trees, rest, col', row, done + LeavesAt(pic, grid, trees, col, row));
    BlockReadBack(pic, grid, trees, rest, col, row, col', done);
  }

  lemma NothingLeft(rest: Streams, done: seq<Leaf>)
    ensures Append(Streams([], [], []), rest) == rest && done + [] == done
  {
    assert [] + rest.bits == rest.bits && [] + rest.bytes == rest.bytes && [] + rest.words == rest.words;
  }

  /** Whichever leaf of the frame covers a pixel leaves what the image has there. */
  lemma {:induction false} FrameLeavesRight(pic: Picture, grid: Grid, last: Frame, drawn: Frame, image: Frame,
                                            trees: seq<seq<Tree>>, col: nat, row: nat, k: nat, px: nat, py: nat)
    requires OnGrid(pic, grid, col, row) && Sized(pic, |last|)
    requires AllDescribe(pic, grid, trees) && AllShow(pic, grid, last, drawn, image, trees)
    requires var leaves := LeavesFrom(pic, grid, trees, col, row);
             k < |leaves| && GoodLeaf(pic, leaves[k]) && Covers(leaves[k], px, py)
    ensures Right(pic, last, drawn, image, LeavesFrom(pic, grid, trees, col, row)[k], px, py)
    decreases grid.rows - row, grid.cols - col
  {
    if row < grid.rows {
      if col == grid.cols {
        FrameLeavesRight(pic, grid, last, drawn, image, trees, 0, row + 1, k, px, py);
      } else {
        var n := |LeavesAt(pic, grid, trees, col, row)|;
        if k < n {
          BlockAtRight(pic, grid, last, drawn, image, trees, col, row, k, px, py);
        } else {
          FrameLeavesRight(pic, grid, last, drawn, image, trees, col + 1, row, k - n, px, py);
        }
      }
    }
  }

  lemma BlockAtRight(pic: Picture, grid: Grid, last: Frame, drawn: Frame, image: Frame,
                     trees: seq<seq<Tree>>, col: nat, row: nat, k: nat, px: nat, py: nat)
    requires OnGrid(pic, grid, col, row) && Sized(pic, |last|) && col < grid.cols && row < grid.rows
    requires AllDescribe(pic, grid, trees) && AllShow(pic, grid, last, drawn, image, trees)
    requires var leaves := LeavesAt(pic, grid, trees, col, row);
             k < |leaves| && GoodLeaf(pic, leaves[k]) && Covers(leaves[k], px, py)
    ensures Right(pic, last, drawn, image, LeavesAt(pic, grid, trees, col, row)[k], px, py)
  {
    assert DescribedAt(pic, grid, trees, col, row) && ShownAt(pic, grid, last, drawn, image, trees, col, row);
    LeavesRight(pic, last, drawn, image, TreeAt(grid, trees, col, row), Corner(col), Corner(row), 3, 3, k, px, py);
  }

  lemma FramePixel(pic: Picture, grid: Grid, last: Frame, image: Frame, trees: seq<seq<Tree>>,
                   s: Canvas, u: Canvas, px: nat, py: nat)
    requires OnGrid(pic, grid, 0, 0) && Sized(pic, |last|) && s.Fits(pic) && u.Fits(pic)
    requires AllDescribe(pic, grid, trees) && AllShow(pic, grid, last, s.pixels, image, trees)
    requires var leaves := LeavesFrom(pic, grid, trees, 0, 0);
             && GoodLeaves(pic, leaves) && Tiles(leaves, 0, 0, pic.width, pic.height)
             && Painted(pic, last, leaves, s, u)
    requires px < pic.width && py < pic.height
    ensures SameAt(pic.width, u.pixels, image, px, py)
  {
    var k := FrameDecided(pic, last, LeavesFrom(pic, grid, trees, 0, 0), s, u, px, py);
    FrameLeavesRight(pic, grid, last, s.pixels, image, trees, 0, 0, k, px, py);
  }

  predicate SameAt(width: nat, a: Frame, b: Frame, px: nat, py: nat) {
    Px(a, py * width + px) == Px(b, py * width + px)
  }

  /** Frames with the same pixels everywhere are equal. */
  lemma SameFrame(pic: Picture, a: Frame, b: Frame)
    requires Sized(pic, |a|) && Sized(pic, |b|)
    requires forall px: nat, py: nat | px < pic.width && py < pic.height :: SameAt(pic.width, a, b, px, py)
    ensures a == b
  {
    forall i | 0 <= i < |a| ensures a[i] == b[i] {
      var px, py := OffsetSplits(i, pic.width, pic.height);
      assert SameAt(pic.width, a, b, px, py);
    }
  }

  lemma NonzeroWidth(i: nat, width: nat, height: nat)
    requires i < width * height
    ensures width > 0
  {
  }

  lemma OffsetSplits(i: nat, width: nat, height: nat) returns (px: nat, py: nat)
    requires i < width * height
    ensures px < width && py < height && i == py * width + px
  {
    NonzeroWidth(i, width, height);
    px, py := i % width, i / width;
    if py >= height {
      ProductBelow(width, height, py);
    }
  }

  lemma ProductBelow(width: nat, height: nat, py: nat)
    requires height <= py
    ensures width * height <= py * width
  {
    assert width * height + width * (py - height) == width * py;
  }

  /**
    decode_p_frame on the streams that the encoder wrote for the blocks of an image: afterwards the
    frame is the image, and the streams are used up to where they go on.
   */
  method DrawFrame(d: Decoder, ghost grid: Grid, ghost trees: seq<seq<Tree>>, ghost rest: Streams, ghost image: Frame)
      returns (ok: bool)
    requires d.Valid() && OnGrid(d.pic, grid, 0, 0) && ValidStreams(rest) && Sized(d.pic, |image|)
    requires AllDescribe(d.pic, grid, trees) && AllShow(d.pic, grid, d.last[..], d.frame[..], image, trees)
    requires d.streams == Append(EncodeBlocks(d.pic, grid, trees, 0, 0), rest)
    modifies d`writes, d`streams, d.frame
    ensures ok && d.Valid() && d.streams == rest && d.last[..] == old(d.last[..])
    ensures d.frame[..] == image
  {
    ghost var s := d.Painting();
    BlocksRead(d.pic, grid, trees, rest, 0, 0, []);
    assert [] + LeavesFrom(d.pic, grid, trees, 0, 0) == LeavesFrom(d.pic, grid, trees, 0, 0);
    ghost var leaves;
    ok, leaves := d.DecodePFrame(grid);
    forall px: nat, py: nat | px < d.pic.width && py < d.pic.height
      ensures SameAt(d.pic.width, d.frame[..], image, px, py)
    {
      FramePixel(d.pic, grid, d.last[..], image, trees, s, d.Painting(), px, py);
    }
    SameFrame(d.pic, d.frame[..], image);
  }
}
