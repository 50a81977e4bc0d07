/**
  mcdc's LE_CENTRIC_MUL: two 16-bit pixels handled in one 32-bit word, on either byte order.
  Words are unsigned 32-bit numbers; every operation is taken modulo 2^32.
 */
module PixelWords {

  type Pixel = p: nat | p < 0x1_0000

  type Word32 = w: nat | w < 0x1_0000_0000

  function U32(n: nat): Word32 {
    n % 0x1_0000_0000
  }

  function Low(w: nat): Pixel {
    w % 0x1_0000
  }

  function High(w: Word32): Pixel {
    w / 0x1_0000
  }

  /** The word with the halves lo and hi. */
  function Join(lo: Pixel, hi: Pixel): Word32 {
    hi * 0x1_0000 + lo
  }

  /** (w << 16) | (w >> 16); the two parts share no bit. */
  function Rotate(w: Word32): Word32 {
    U32(w * 0x1_0000) + w / 0x1_0000
  }

  /** dc *= 0x10001 puts dc in both halves. */
  function Spread(dc: Pixel): Word32 {
    U32(dc * 0x1_0001)
  }

  /** The macro where the first pixel in memory is the low half of a word. */
  function LittleEndianMul(p0: Pixel, p1: Pixel, scale: nat, dc: Word32): (Pixel, Pixel) {
    var w := U32(Join(p0, p1) * scale + dc);
    (Low(w), High(w))
  }

  /** The macro where the first pixel in memory is the high half of a word. */
  function BigEndianMul(p0: Pixel, p1: Pixel, scale: nat, dc: Word32): (Pixel, Pixel) {
    var w := Rotate(U32(Rotate(Join(p1, p0)) * scale + dc));
    (High(w), Low(w))
  }

  lemma RotateSwaps(w: Word32)
    ensures Rotate(w) == Join(High(w), Low(w))
  {
    assert w == High(w) * 0x1_0000 + Low(w);
    assert w * 0x1_0000 == High(w) * 0x1_0000_0000 + Low(w) * 0x1_0000;
  }

  lemma Halves(lo: Pixel, hi: Pixel)
    ensures Low(Join(lo, hi)) == lo && High(Join(lo, hi)) == hi
  {
  }

  /** Both byte orders compute the same two pixels. */
  lemma EndiansAgree(p0: Pixel, p1: Pixel, scale: nat, dc: Word32)
    ensures BigEndianMul(p0, p1, scale, dc) == LittleEndianMul(p0, p1, scale, dc)
  {
    Halves(p1, p0);
    RotateSwaps(Join(p1, p0));
    var w := U32(Join(p0, p1) * scale + dc);
    RotateSwaps(w);
    Halves(High(w), Low(w));
  }

  /** Pixel by pixel, each sum modulo 2^16. */
  function Independent(p: Pixel, scale: nat, dc: Pixel): Pixel {
    Low(p * scale + dc)
  }

  /** What overflows out of a pixel's own 16 bits. */
  function Carry(p: Pixel, scale: nat, dc: Pixel): nat {
    (p * scale + dc) / 0x1_0000
  }

  /** The word operation adds the carry of the first pixel to the second one. */
  lemma CarryIntoSecond(p0: Pixel, p1: Pixel, scale: nat, dc: Pixel)
    requires scale <= 1
    ensures LittleEndianMul(p0, p1, scale, Spread(dc))
         == (Independent(p0, scale, dc), Low(p1 * scale + dc + Carry(p0, scale, dc)))
  {
    var a, b := p0 * scale + dc, p1 * scale + dc;
    assert Join(p0, p1) * scale + Spread(dc) == b * 0x1_0000 + a;
    SplitSum(a, b);
  }

  lemma SplitSum(a: nat, b: nat)
    ensures Low(U32(b * 0x1_0000 + a)) == Low(a)
    ensures High(U32(b * 0x1_0000 + a)) == Low(b + a / 0x1_0000)
  {
    var c := b + a / 0x1_0000;
    var n := b * 0x1_0000 + a;
    assert n == c * 0x1_0000 + Low(a);
    assert c == c / 0x1_0000 * 0x1_0000 + Low(c);
    assert n == c / 0x1_0000 * 0x1_0000_0000 + (Low(c) * 0x1_0000 + Low(a));
    assert U32(n) == Low(c) * 0x1_0000 + Low(a);
  }

  /** The two agree exactly when the first pixel's sum stays below 2^16. */
  lemma IndependentIff(p0: Pixel, p1: Pixel, scale: nat, dc: Pixel)
    requires scale <= 1
    ensures LittleEndianMul(p0, p1, scale, Spread(dc)) == (Independent(p0, scale, dc), Independent(p1, scale, dc))
       <==> p0 * scale + dc < 0x1_0000
  {
    CarryIntoSecond(p0, p1, scale, dc);
    var a, b := p0 * scale + dc, p1 * scale + dc;
    assert scale == 0 || scale == 1;
    CarryShows(a, b);
  }

  lemma CarryShows(a: nat, b: nat)
    requires a < 0x2_0000
    ensures Low(b + a / 0x1_0000) == Low(b) <==> a < 0x1_0000
  {
    if a >= 0x1_0000 {
      assert a / 0x1_0000 == 1;
    }
  }

  /** A pixel that is alone in its row takes the low half of the sum. */
  lemma LowOfSpread(p: Pixel, dc: Pixel)
    ensures Low(1 * p + Spread(dc)) == Independent(p, 1, dc)
  {
    SplitSum(p + dc, dc);
  }

  /** With scale 0 every pixel becomes dc, whatever was read. */
  lemma FillExact(p0: Pixel, p1: Pixel, dc: Pixel)
    ensures LittleEndianMul(p0, p1, 0, Spread(dc)) == (dc, dc)
    ensures Low(0 * p0 + Spread(dc)) == dc
  {
    CarryIntoSecond(p0, p1, 0, dc);
  }
}
