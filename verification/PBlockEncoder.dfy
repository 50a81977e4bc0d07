/**
  The reference encoder for P-frame blocks: a tree of splits with motion, fills and raw pixels at its
  leaves, written to the three streams. decode_p_block's parse is its inverse.
 */
module PBlockEncoder {
  import opened PixelWords
  import opened Sums
  import opened BlockAlphabets
  import opened PBlocks

  datatype Tree =
    | Stacked(top: Tree, bottom: Tree)
    | Beside(left: Tree, right: Tree)
    | Move(vector: nat)
    | Still
    | MoveAdd(vector: nat, dc: Pixel)
    | Flat(value: Pixel)
    | Two(first: Pixel, second: Pixel)

  function Code(t: Tree): (code: nat)
    ensures code < 7
  {
    match t
    case Move(_) => 0
    case Stacked(_, _) => 1
    case Beside(_, _) => 2
    case Still => 3
    case MoveAdd(_, _) => 4
    case Flat(_) => 5
    case Two(_, _) => 6
  }

  // ---- symbols ---------------------------------------------------------------------------------

  /** The low n bits of a code, first bit most significant. */
  function CodeBits(code: nat, n: nat): (s: seq<bool>)
    ensures |s| == n
  {
    if n == 0 then [] else CodeBits(code / 2, n - 1) + [code % 2 == 1]
  }

  function AlphabetOf(pic: Picture, log2w: nat, log2h: nat): Alphabet
    requires log2w < 4 && log2h < 4 && log2w + log2h > 0
  {
    Splits(Table(pic), log2w, log2h);
    BlockTypes(Table(pic), SizeToIndex(log2h, log2w))
  }

  /** The first n bits, as a number. */
  function Leading(bits: seq<bool>, n: nat): nat {
    if n == 0 then 0 else 2 * Leading(bits, n - 1) + Bit(bits, n - 1)
  }

  lemma {:induction false} LeadingCode(code: nat, n: nat, rest: seq<bool>)
    requires n > 0 ==> code < 2 * Pow2(n - 1)
    requires n == 0 ==> code == 0
    ensures Leading(CodeBits(code, n) + rest, n) == code
  {
    if n > 0 {
      var m := n - 1;
      var last := [code % 2 == 1] + rest;
      assert CodeBits(code, n) + rest == CodeBits(code / 2, m) + last;
      assert (CodeBits(code, n) + rest)[m] == (code % 2 == 1);
      LeadingCode(code / 2, m, last);
    }
  }

  /** The five-bit window begins with the first n bits. */
  lemma WindowLeads(bits: seq<bool>, n: nat)
    requires 1 <= n <= 5
    ensures Window(bits) / Pow2(5 - n) == Leading(bits, n)
  {
    PowerValues();
    assert Leading(bits, 1) == Bit(bits, 0);
    assert Leading(bits, 2) == 2 * Leading(bits, 1) + Bit(bits, 1);
    assert Leading(bits, 3) == 2 * Leading(bits, 2) + Bit(bits, 2);
    assert Leading(bits, 4) == 2 * Leading(bits, 3) + Bit(bits, 3);
    assert Leading(bits, 5) == 2 * Leading(bits, 4) + Bit(bits, 4);
  }

  /** The window begins with the code whose bits come first. */
  lemma WindowOfCode(code: nat, n: nat, rest: seq<bool>)
    requires 1 <= n <= 5 && code < Pow2(n)
    ensures Window(CodeBits(code, n) + rest) / Pow2(5 - n) == code
  {
    assert Pow2(n) == 2 * Pow2(n - 1);
    LeadingCode(code, n, rest);
    WindowLeads(CodeBits(code, n) + rest, n);
  }

  /** The codes of the tables fit their lengths. */
  lemma CodesFit(table: nat, index: nat, s: nat)
    requires table < 2 && index < 4 && s < 7
    ensures var a := BlockTypes(table, index); a[s].1 > 0 ==> a[s].0 < Pow2(a[s].1)
  {
    PowerValues();
  }

  function SymbolBits(a: Alphabet, s: nat): seq<bool>
    requires s < 7
  {
    CodeBits(a[s].0, a[s].1)
  }

  /** The bits of a symbol of the alphabet are read back as the symbol. */
  lemma SymbolRead(pic: Picture, log2w: nat, log2h: nat, s: nat, rest: seq<bool>)
    requires log2w < 4 && log2h < 4 && log2w + log2h > 0 && s < 7
    requires AlphabetOf(pic, log2w, log2h)[s].1 > 0
    ensures NextSymbol(pic, SymbolBits(AlphabetOf(pic, log2w, log2h), s) + rest, log2w, log2h) == (s, rest)
  {
    Splits(Table(pic), log2w, log2h);
    var index := SizeToIndex(log2h, log2w);
    var a := AlphabetOf(pic, log2w, log2h);
    var bits := SymbolBits(a, s) + rest;
    CodesFit(Table(pic), index, s);
    WindowOfCode(a[s].0, a[s].1, rest);
    Complete(Table(pic), index, Window(bits));
    assert Starts(a, s, Window(bits));
    assert bits[a[s].1..] == rest;
  }

  // ---- trees -----------------------------------------------------------------------------------

  function Append(a: Streams, b: Streams): Streams {
    Streams(a.bits + b.bits, a.bytes + b.bytes, a.words + b.words)
  }

  lemma AppendAssociates(a: Streams, b: Streams, c: Streams)
    ensures Append(Append(a, b), c) == Append(a, Append(b, c))
  {
    assert a.bits + b.bits + c.bits == a.bits + (b.bits + c.bits);
    assert a.bytes + b.bytes + c.bytes == a.bytes + (b.bytes + c.bytes);
    assert a.words + b.words + c.words == a.words + (b.words + c.words);
  }

  /** The low byte comes first. */
  function WordBytes(p: Pixel): (s: seq<nat>)
    ensures |s| == 2 && BytesOnly(s) && s[0] + 256 * s[1] == p
  {
    [p % 256, p / 256]
  }

  /** The bytes and words of a leaf. */
  function Payload(t: Tree): Streams
    requires !t.Stacked? && !t.Beside?
  {
    match t
    case Move(vector) => Streams([], [vector], [])
    case Still => Streams([], [], [])
    case MoveAdd(vector, dc) => Streams([], [vector], WordBytes(dc))
    case Flat(value) => Streams([], [], WordBytes(value))
    case Two(first, second) => Streams([], [], WordBytes(first) + WordBytes(second))
  }

  /** A vector byte whose source lies inside the picture. */
  predicate VectorOk(pic: Picture, vector: nat, x: nat, y: nat, log2w: nat, log2h: nat)
    requires ValidPicture(pic) && InFrame(pic, x, y, log2w, log2h)
  {
    vector < 256 && SourceOk(pic, Index(x, y, pic.width, pic.height) + pic.mv[vector], log2w, log2h)
  }

  /** The tree describes the block: only symbols its alphabets have, and only vectors inside the picture. */
  predicate Describes(pic: Picture, t: Tree, x: nat, y: nat, log2w: nat, log2h: nat)
    requires ValidPicture(pic) && InFrame(pic, x, y, log2w, log2h) && log2w + log2h > 0
    decreases t
  {
    Splits(Table(pic), log2w, log2h);
    && AlphabetOf(pic, log2w, log2h)[Code(t)].1 > 0
    && match t
       case Stacked(top, bottom) =>
         Describes(pic, top, x, y, log2w, Half(log2h))
         && Describes(pic, bottom, x, Past(y, Half(log2h)), log2w, Half(log2h))
       case Beside(left, right) =>
         Describes(pic, left, x, y, Half(log2w), log2h)
         && Describes(pic, right, Past(x, Half(log2w)), y, Half(log2w), log2h)
       case Move(vector) => VectorOk(pic, vector, x, y, log2w, log2h)
       case MoveAdd(vector, _) => VectorOk(pic, vector, x, y, log2w, log2h)
       case _ => true
  }

  /** Each node writes its symbol; then come its two blocks, or the payload of the leaf. */
  function Encode(pic: Picture, t: Tree, x: nat, y: nat, log2w: nat, log2h: nat): Streams
    requires ValidPicture(pic) && InFrame(pic, x, y, log2w, log2h) && log2w + log2h > 0
    requires Describes(pic, t, x, y, log2w, log2h)
    decreases t
  {
    Splits(Table(pic), log2w, log2h);
    var symbol := Streams(SymbolBits(AlphabetOf(pic, log2w, log2h), Code(t)), [], []);
    Append(symbol,
      match t
      case Stacked(top, bottom) =>
        Append(Encode(pic, top, x, y, log2w, Half(log2h)),
               Encode(pic, bottom, x, Past(y, Half(log2h)), log2w, Half(log2h)))
      case Beside(left, right) =>
        Append(Encode(pic, left, x, y, Half(log2w), log2h),
               Encode(pic, right, Past(x, Half(log2w)), y, Half(log2w), log2h))
      case _ => Payload(t))
  }

  /** What a leaf of the tree means at its place. */
  function OpOf(pic: Picture, t: Tree, here: nat): Op
    requires ValidPicture(pic) && !t.Stacked? && !t.Beside?
    requires (t.Move? || t.MoveAdd?) ==> t.vector < 256
  {
    match t
    case Move(vector) => Copy(here + pic.mv[vector], 0)
    case Still => if pic.version >= 2 then Skip else Copy(here, 0)
    case MoveAdd(vector, dc) => Copy(here + pic.mv[vector], dc)
    case Flat(value) => Fill(value)
    case Two(first, second) => Raw(first, second)
  }

  /** The leaves of a tree, in the order they are drawn. */
  function Leaves(pic: Picture, t: Tree, x: nat, y: nat, log2w: nat, log2h: nat): seq<Leaf>
    requires ValidPicture(pic) && InFrame(pic, x, y, log2w, log2h) && log2w + log2h > 0
    requires Describes(pic, t, x, y, log2w, log2h)
    decreases t
  {
    Splits(Table(pic), log2w, log2h);
    match t
    case Stacked(top, bottom) =>
      Leaves(pic, top, x, y, log2w, Half(log2h)) + Leaves(pic, bottom, x, Past(y, Half(log2h)), log2w, Half(log2h))
    case Beside(left, right) =>
      Leaves(pic, left, x, y, Half(log2w), log2h) + Leaves(pic, right, Past(x, Half(log2w)), y, Half(log2w), log2h)
    case _ => [Leaf(x, y, log2w, log2h, OpOf(pic, t, Index(x, y, pic.width, pic.height)))]
  }

  // ---- the round trip --------------------------------------------------------------------------

  lemma LeafRead(pic: Picture, t: Tree, rest: Streams, x: nat, y: nat, log2w: nat, log2h: nat)
    requires CanParse(pic, rest, x, y, log2w, log2h) && Describes(pic, t, x, y, log2w, log2h)
    requires !t.Stacked? && !t.Beside?
    ensures CanParse(pic, Append(Payload(t), rest), x, y, log2w, log2h)
    ensures ParseLeaf(pic, Append(Payload(t), rest), x, y, log2w, log2h, Code(t))
         == Parsed(Leaves(pic, t, x, y, log2w, log2h), rest)
  {
    var st := Append(Payload(t), rest);
    UnmovedPasses(pic, x, y, log2w, log2h);
    assert st.bits == rest.bits;
    match t {
      case Move(_) => assert st.bytes[1..] == rest.bytes && st.words == rest.words;
      case Still => assert st == rest;
      case MoveAdd(_, dc) => assert st.bytes[1..] == rest.bytes && st.words[2..] == rest.words && Le16(st.words) == dc;
      case Flat(value) => assert st.bytes == rest.bytes && st.words[2..] == rest.words && Le16(st.words) == value;
      case Two(first, second) =>
        assert st.bytes == rest.bytes && st.words[4..] == rest.words;
        assert st.words[2..][0] == second % 256 && st.words[2..][1] == second / 256;
        assert Le16(st.words) == first && Le16(st.words[2..]) == second;
    }
  }

  /** A node's symbol is read, and what follows it is left for the halves or the leaf. */
  lemma NodeRead(pic: Picture, t: Tree, body: Streams, rest: Streams, x: nat, y: nat, log2w: nat, log2h: nat)
    requires CanParse(pic, Append(body, rest), x, y, log2w, log2h) && Describes(pic, t, x, y, log2w, log2h)
    ensures var symbol := Streams(SymbolBits(AlphabetOf(pic, log2w, log2h), Code(t)), [], []);
            var st := Append(Append(symbol, body), rest);
            && CanParse(pic, st, x, y, log2w, log2h) && |st.bits| >= 1
            && NextSymbol(pic, st.bits, log2w, log2h) == (Code(t), Append(body, rest).bits)
            && st.(bits := Append(body, rest).bits) == Append(body, rest)
  {
    var bits := SymbolBits(AlphabetOf(pic, log2w, log2h), Code(t));
    SymbolRead(pic, log2w, log2h, Code(t), body.bits + rest.bits);
    AppendAssociates(Streams(bits, [], []), body, rest);
  }

  /** Two encoded blocks are read one after the other. */
  lemma {:induction false} TwoRead(pic: Picture, a: Tree, b: Tree, rest: Streams,
                                   x: nat, y: nat, x': nat, y': nat, log2w: nat, log2h: nat)
    requires CanParse(pic, rest, x, y, log2w, log2h) && InFrame(pic, x', y', log2w, log2h)
    requires Describes(pic, a, x, y, log2w, log2h) && Describes(pic, b, x', y', log2w, log2h)
    ensures var st := Append(Append(Encode(pic, a, x, y, log2w, log2h), Encode(pic, b, x', y', log2w, log2h)), rest);
            && CanParse(pic, st, x, y, log2w, log2h)
            && ParseTwo(pic, st, x, y, x', y', log2w, log2h)
               == Parsed(Leaves(pic, a, x, y, log2w, log2h) + Leaves(pic, b, x', y', log2w, log2h), rest)
    decreases log2w + log2h, 2
  {
    var ea, eb := Encode(pic, a, x, y, log2w, log2h), Encode(pic, b, x', y', log2w, log2h);
    BlockRead(pic, b, rest, x', y', log2w, log2h);
    BlockRead(pic, a, Append(eb, rest), x, y, log2w, log2h);
    AppendAssociates(ea, eb, rest);
  }

  /** Parsing what the encoder wrote gives back the leaves of the tree, and leaves the rest. */
  lemma {:induction false} BlockRead(pic: Picture, t: Tree, rest: Streams, x: nat, y: nat, log2w: nat, log2h: nat)
    requires CanParse(pic, rest, x, y, log2w, log2h) && Describes(pic, t, x, y, log2w, log2h)
    ensures CanParse(pic, Append(Encode(pic, t, x, y, log2w, log2h), rest), x, y, log2w, log2h)
    ensures ParseBlock(pic, Append(Encode(pic, t, x, y, log2w, log2h), rest), x, y, log2w, log2h)
         == Parsed(Leaves(pic, t, x, y, log2w, log2h), rest)
    decreases log2w + log2h, 1
  {
    Splits(Table(pic), log2w, log2h);
    match t
    case Stacked(top, bottom) =>
      var half, y' := Half(log2h), Past(y, Half(log2h));
      TwoRead(pic, top, bottom, rest, x, y, x, y', log2w, half);
      var both := Append(Encode(pic, top, x, y, log2w, half), Encode(pic, bottom, x, y', log2w, half));
      NodeRead(pic, t, both, rest, x, y, log2w, log2h);
    case Beside(left, right) =>
      var half, x' := Half(log2w), Past(x, Half(log2w));
      TwoRead(pic, left, right, rest, x, y, x', y, half, log2h);
      var both := Append(Encode(pic, left, x, y, half, log2h), Encode(pic, right, x', y, half, log2h));
      NodeRead(pic, t, both, rest, x, y, log2w, log2h);
    case _ =>
      LeafRead(pic, t, rest, x, y, log2w, log2h);
      NodeRead(pic, t, Payload(t), rest, x, y, log2w, log2h);
  }
}
