/** The bits of the block types, spelled out for both versions of the format and all shapes of blocks. */
module BlockCodes {
  import opened PixelWords
  import opened BlockAlphabets
  import opened PBlocks
  import opened PBlockEncoder

  /** The bits read as this text of 0s and 1s. */
  predicate Reads(bits: seq<bool>, text: string) {
    |bits| == |text| && forall i :: 0 <= i < |bits| ==> text[i] == if bits[i] then '1' else '0'
  }

  /** The bits of a block type: move, above and below, side by side, still, move and add, flat, two pixels. */
  function TypeBits(pic: Picture, log2w: nat, log2h: nat, code: nat): seq<bool>
    requires log2w < 4 && log2h < 4 && log2w + log2h > 0 && code < 7
  {
    SymbolBits(AlphabetOf(pic, log2w, log2h), code)
  }

  lemma OneBit(b: nat)
    requires b < 2
    ensures Reads(CodeBits(b, 1), if b == 0 then "0" else "1")
  {
    assert CodeBits(b / 2, 0) == [];
  }

  lemma TwoBits(c: nat)
    requires c < 4
    ensures Reads(CodeBits(c, 2), if c == 0 then "00" else if c == 1 then "01" else if c == 2 then "10" else "11")
  {
    OneBit(c / 2);
  }

  lemma ThreeBits(c: nat)
    requires 4 <= c < 8
    ensures Reads(CodeBits(c, 3), if c == 4 then "100" else if c == 5 then "101" else if c == 6 then "110" else "111")
  {
    TwoBits(c / 2);
  }

  lemma FourBits(c: nat)
    requires 14 <= c < 16
    ensures Reads(CodeBits(c, 4), if c == 14 then "1110" else "1111")
  {
    ThreeBits(c / 2);
  }

  lemma FiveBits(c: nat)
    requires 30 <= c < 32
    ensures Reads(CodeBits(c, 5), if c == 30 then "11110" else "11111")
  {
    FourBits(c / 2);
  }

  lemma ShortTypes(pic: Picture, log2w: nat, log2h: nat)
    requires pic.version > 1 && 1 <= log2w < 4 && 1 <= log2h < 4
    ensures Reads(TypeBits(pic, log2w, log2h, 0), "0") && Reads(TypeBits(pic, log2w, log2h, 1), "10")
    ensures Reads(TypeBits(pic, log2w, log2h, 2), "110")
  {
    OneBit(0);
    TwoBits(2);
    ThreeBits(6);
  }

  lemma LongTypes(pic: Picture, log2w: nat, log2h: nat)
    requires pic.version > 1 && 1 <= log2w < 4 && 1 <= log2h < 4
    ensures Reads(TypeBits(pic, log2w, log2h, 3), "1110")
    ensures Reads(TypeBits(pic, log2w, log2h, 4), "11110") && Reads(TypeBits(pic, log2w, log2h, 5), "11111")
  {
    FourBits(14);
    FiveBits(30);
    FiveBits(31);
  }

  /** From version 2 on, blocks with sides of two pixels or more. */
  lemma LargeBlocks(pic: Picture, log2w: nat, log2h: nat)
    requires pic.version > 1 && 1 <= log2w < 4 && 1 <= log2h < 4
    ensures Reads(TypeBits(pic, log2w, log2h, 0), "0") && Reads(TypeBits(pic, log2w, log2h, 1), "10")
    ensures Reads(TypeBits(pic, log2w, log2h, 2), "110") && Reads(TypeBits(pic, log2w, log2h, 3), "1110")
    ensures Reads(TypeBits(pic, log2w, log2h, 4), "11110") && Reads(TypeBits(pic, log2w, log2h, 5), "11111")
  {
    ShortTypes(pic, log2w, log2h);
    LongTypes(pic, log2w, log2h);
  }

  /** Blocks one pixel high and four or more wide: they split side by side only. */
  lemma LowBlocks(pic: Picture, log2w: nat)
    requires pic.version > 1 && 2 <= log2w < 4
    ensures Reads(TypeBits(pic, log2w, 0, 0), "0") && Reads(TypeBits(pic, log2w, 0, 2), "10")
    ensures Reads(TypeBits(pic, log2w, 0, 3), "110") && Reads(TypeBits(pic, log2w, 0, 4), "1110")
    ensures Reads(TypeBits(pic, log2w, 0, 5), "1111")
  {
    OneBit(0);
    TwoBits(2);
    ThreeBits(6);
    FourBits(14);
    FourBits(15);
  }

  /** Blocks one pixel wide and four or more high: they split above and below only. */
  lemma NarrowBlocks(pic: Picture, log2h: nat)
    requires pic.version > 1 && 2 <= log2h < 4
    ensures Reads(TypeBits(pic, 0, log2h, 0), "0") && Reads(TypeBits(pic, 0, log2h, 1), "10")
    ensures Reads(TypeBits(pic, 0, log2h, 3), "110") && Reads(TypeBits(pic, 0, log2h, 4), "1110")
    ensures Reads(TypeBits(pic, 0, log2h, 5), "1111")
  {
    OneBit(0);
    TwoBits(2);
    ThreeBits(6);
    FourBits(14);
    FourBits(15);
  }

  /** Blocks of two pixels, which do not split. */
  lemma SmallBlocks(pic: Picture, log2w: nat, log2h: nat)
    requires pic.version > 1 && log2w + log2h == 1
    ensures Reads(TypeBits(pic, log2w, log2h, 0), "0") && Reads(TypeBits(pic, log2w, log2h, 3), "10")
    ensures Reads(TypeBits(pic, log2w, log2h, 4), "110") && Reads(TypeBits(pic, log2w, log2h, 5), "1110")
    ensures Reads(TypeBits(pic, log2w, log2h, 6), "1111")
  {
    OneBit(0);
    TwoBits(2);
    ThreeBits(6);
    FourBits(14);
    FourBits(15);
  }

  lemma MovingTypesBefore(pic: Picture, log2w: nat, log2h: nat)
    requires pic.version <= 1 && 1 <= log2w < 4 && 1 <= log2h < 4
    ensures Reads(TypeBits(pic, log2w, log2h, 0), "01") && Reads(TypeBits(pic, log2w, log2h, 3), "00")
    ensures Reads(TypeBits(pic, log2w, log2h, 4), "110") && Reads(TypeBits(pic, log2w, log2h, 5), "111")
  {
    TwoBits(0);
    TwoBits(1);
    ThreeBits(6);
    ThreeBits(7);
  }

  lemma SplittingTypesBefore(pic: Picture, log2w: nat, log2h: nat)
    requires pic.version <= 1 && 1 <= log2w < 4 && 1 <= log2h < 4
    ensures Reads(TypeBits(pic, log2w, log2h, 1), "100") && Reads(TypeBits(pic, log2w, log2h, 2), "101")
  {
    ThreeBits(4);
    ThreeBits(5);
  }

  /** Before version 2, blocks with sides of two pixels or more. */
  lemma LargeBlocksBefore(pic: Picture, log2w: nat, log2h: nat)
    requires pic.version <= 1 && 1 <= log2w < 4 && 1 <= log2h < 4
    ensures Reads(TypeBits(pic, log2w, log2h, 0), "01") && Reads(TypeBits(pic, log2w, log2h, 1), "100")
    ensures Reads(TypeBits(pic, log2w, log2h, 2), "101") && Reads(TypeBits(pic, log2w, log2h, 3), "00")
    ensures Reads(TypeBits(pic, log2w, log2h, 4), "110") && Reads(TypeBits(pic, log2w, log2h, 5), "111")
  {
    MovingTypesBefore(pic, log2w, log2h);
    SplittingTypesBefore(pic, log2w, log2h);
  }

  lemma LowBlocksBefore(pic: Picture, log2w: nat)
    requires pic.version <= 1 && 2 <= log2w < 4
    ensures Reads(TypeBits(pic, log2w, 0, 0), "01") && Reads(TypeBits(pic, log2w, 0, 2), "10")
    ensures Reads(TypeBits(pic, log2w, 0, 3), "00") && Reads(TypeBits(pic, log2w, 0, 4), "110")
    ensures Reads(TypeBits(pic, log2w, 0, 5), "111")
  {
    TwoBits(0);
    TwoBits(1);
    TwoBits(2);
    ThreeBits(6);
    ThreeBits(7);
  }

  lemma NarrowBlocksBefore(pic: Picture, log2h: nat)
    requires pic.version <= 1 && 2 <= log2h < 4
    ensures Reads(TypeBits(pic, 0, log2h, 0), "01") && Reads(TypeBits(pic, 0, log2h, 1), "10")
    ensures Reads(TypeBits(pic, 0, log2h, 3), "00") && Reads(TypeBits(pic, 0, log2h, 4), "110")
    ensures Reads(TypeBits(pic, 0, log2h, 5), "111")
  {
    TwoBits(0);
    TwoBits(1);
    TwoBits(2);
    ThreeBits(6);
    ThreeBits(7);
  }

  lemma SmallBlocksBefore(pic: Picture, log2w: nat, log2h: nat)
    requires pic.version <= 1 && log2w + log2h == 1
    ensures Reads(TypeBits(pic, log2w, log2h, 0), "01") && Reads(TypeBits(pic, log2w, log2h, 3), "00")
    ensures Reads(TypeBits(pic, log2w, log2h, 4), "10") && Reads(TypeBits(pic, log2w, log2h, 5), "110")
    ensures Reads(TypeBits(pic, log2w, log2h, 6), "111")
  {
    TwoBits(0);
    TwoBits(1);
    TwoBits(2);
    ThreeBits(6);
    ThreeBits(7);
  }
}
