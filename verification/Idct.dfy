/**
  The inverse transform of 4xm.c: a column pass and a row pass of one eight-point butterfly, with
  multiplications by constants k / 65536 that are rounded down and wrap around in 32 bits.

  The reference is the same linear map over the reals, without rounding and without wrapping.
 */
module Idct {
  const FIX_1_082392200 := 70936
  const FIX_1_414213562 := 92682
  const FIX_1_847759065 := 121095
  const FIX_2_613125930 := 171254

  // ---- the arithmetic of the code --------------------------------------------------------------

  /** The value of n as a 32-bit int. */
  function Wrap32(n: int): (m: int)
    ensures -0x8000_0000 <= m < 0x8000_0000 && (m - n) % 0x1_0000_0000 == 0
  {
    (n + 0x8000_0000) % 0x1_0000_0000 - 0x8000_0000
  }

  /** The value of n as a 16-bit int. */
  function Wrap16(n: int): (m: int)
    ensures -0x8000 <= m < 0x8000 && (m - n) % 0x1_0000 == 0
  {
    (n + 0x8000) % 0x1_0000 - 0x8000
  }

  /** MULTIPLY; the shift rounds down. */
  function Multiply(v: int, c: int): int {
    Wrap32(v * c) / 0x1_0000
  }

  datatype Vec = Vec(v0: int, v1: int, v2: int, v3: int, v4: int, v5: int, v6: int, v7: int)

  function At(v: Vec, k: int): int {
    if k == 0 then v.v0 else if k == 1 then v.v1 else if k == 2 then v.v2 else if k == 3 then v.v3
    else if k == 4 then v.v4 else if k == 5 then v.v5 else if k == 6 then v.v6 else v.v7
  }

  datatype Quad = Quad(q0: int, q1: int, q2: int, q3: int)

  /** tmp0 to tmp3, from the even entries. */
  function Even(v0: int, v2: int, v4: int, v6: int): Quad {
    var tmp10, tmp11, tmp13 := v0 + v4, v0 - v4, v2 + v6;
    var tmp12 := Multiply(v2 - v6, FIX_1_414213562) - tmp13;
    Quad(tmp10 + tmp13, tmp11 + tmp12, tmp11 - tmp12, tmp10 - tmp13)
  }

  /** tmp7 to tmp4, from the odd entries. */
  function Odd(v1: int, v3: int, v5: int, v7: int): Quad {
    var z13, z10, z11, z12 := v5 + v3, v5 - v3, v1 + v7, v1 - v7;
    var tmp7, tmp11, z5 := z11 + z13, Multiply(z11 - z13, FIX_1_414213562), Multiply(z10 + z12, FIX_1_847759065);
    var tmp10, tmp12 := Multiply(z12, FIX_1_082392200) - z5, Multiply(z10, -FIX_2_613125930) + z5;
    var tmp6 := tmp12 - tmp7;
    var tmp5 := tmp11 - tmp6;
    Quad(tmp7, tmp6, tmp5, tmp10 + tmp5)
  }

  function Join(e: Quad, o: Quad): Vec {
    Vec(e.q0 + o.q0, e.q1 + o.q1, e.q2 + o.q2, e.q3 - o.q3, e.q3 + o.q3, e.q2 - o.q2, e.q1 - o.q1, e.q0 - o.q0)
  }

  /** One column, or one row, of the transform. */
  function Butterfly(x: Vec): Vec {
    Join(Even(x.v0, x.v2, x.v4, x.v6), Odd(x.v1, x.v3, x.v5, x.v7))
  }

  // ---- both passes -----------------------------------------------------------------------------

  type Block = b: seq<int> | |b| == 64 witness seq(64, _ => 0)

  function Column(b: Block, i: int): Vec
    requires 0 <= i < 8
  {
    Vec(b[i], b[8 + i], b[16 + i], b[24 + i], b[32 + i], b[40 + i], b[48 + i], b[56 + i])
  }

  /** Row r of the block that the columns leave, when f transforms a column. */
  function Row(f: Vec -> Vec, b: Block, r: int): Vec {
    Vec(Temp(f, b, r, 0), Temp(f, b, r, 1), Temp(f, b, r, 2), Temp(f, b, r, 3),
        Temp(f, b, r, 4), Temp(f, b, r, 5), Temp(f, b, r, 6), Temp(f, b, r, 7))
  }

  function Temp(f: Vec -> Vec, b: Block, r: int, i: int): int
    requires 0 <= i < 8
  {
    At(f(Column(b, i)), r)
  }

  /** What the second pass computes before it shifts. */
  function Unshifted(f: Vec -> Vec, b: Block, r: int, i: int): int {
    At(f(Row(f, b, r)), i)
  }

  /** The shift, and the store into 16 bits. */
  function Narrow(n: int): int {
    Wrap16(n / 64)
  }

  /** The block after both passes. */
  function Separable(f: Vec -> Vec, b: Block): (t: Block) {
    seq(64, n requires 0 <= n < 64 => Narrow(Unshifted(f, b, n / 8, n % 8)))
  }

  /** The block after idct. */
  function Transformed(b: Block): (t: Block) {
    Separable(Butterfly, b)
  }

  // ---- the code --------------------------------------------------------------------------------

  method StoreColumn(a: array<int>, i: nat, v: Vec)
    requires a.Length == 64 && i < 8
    modifies a
    ensures forall n :: 0 <= n < 64 ==> a[n] == if n % 8 == i then At(v, n / 8) else old(a[n])
  {
    a[8 * 0 + i] := v.v0;
    a[8 * 7 + i] := v.v7;
    a[8 * 1 + i] := v.v1;
    a[8 * 6 + i] := v.v6;
    a[8 * 2 + i] := v.v2;
    a[8 * 5 + i] := v.v5;
    a[8 * 4 + i] := v.v4;
    a[8 * 3 + i] := v.v3;
  }

  /** Row i / 8, shifted and narrowed. */
  method StoreRow(a: array<int>, i: nat, v: Vec)
    requires a.Length == 64 && i % 8 == 0 && i < 64
    modifies a
    ensures forall n :: 0 <= n < 64 ==> a[n] == if n / 8 == i / 8 then Narrow(At(v, n % 8)) else old(a[n])
  {
    a[0 + i] := Narrow(v.v0);
    a[7 + i] := Narrow(v.v7);
    a[1 + i] := Narrow(v.v1);
    a[6 + i] := Narrow(v.v6);
    a[2 + i] := Narrow(v.v2);
    a[5 + i] := Narrow(v.v5);
    a[4 + i] := Narrow(v.v4);
    a[3 + i] := Narrow(v.v3);
  }

  predicate ColumnsDone(f: Vec -> Vec, b: Block, temp: Block, i: nat) {
    forall n :: 0 <= n < 64 && n % 8 < i ==> temp[n] == Temp(f, b, n / 8, n % 8)
  }

  predicate RowsDone(f: Vec -> Vec, b: Block, block: Block, rows: nat) {
    forall n :: 0 <= n < 64 && n / 8 < rows ==> block[n] == Narrow(Unshifted(f, b, n / 8, n % 8))
  }

  method ColumnPass(block: array<int>, temp: array<int>, f: Vec -> Vec)
    requires block.Length == temp.Length == 64 && block != temp
    modifies temp
    ensures ColumnsDone(f, block[..], temp[..], 8)
  {
    var i: nat := 0;
    while i < 8
      invariant i <= 8 && ColumnsDone(f, block[..], temp[..], i)
    {
      var x := Vec(block[i], block[8 + i], block[16 + i], block[24 + i],
                   block[32 + i], block[40 + i], block[48 + i], block[56 + i]);
      assert x == Column(block[..], i);
      StoreColumn(temp, i, f(x));
      i := i + 1;
    }
  }

  lemma RowRead(f: Vec -> Vec, b: Block, temp: Block, i: nat, r: nat)
    requires ColumnsDone(f, b, temp, 8) && r < 8 && i == 8 * r
    ensures Vec(temp[i], temp[1 + i], temp[2 + i], temp[3 + i],
                temp[4 + i], temp[5 + i], temp[6 + i], temp[7 + i]) == Row(f, b, r)
  {
    forall k | 0 <= k < 8 ensures temp[k + i] == Temp(f, b, r, k) {
      assert (k + i) / 8 == r && (k + i) % 8 == k;
    }
  }

  method RowPass(block: array<int>, temp: array<int>, f: Vec -> Vec, ghost b: Block)
    requires block.Length == temp.Length == 64 && block != temp && ColumnsDone(f, b, temp[..], 8)
    modifies block
    ensures RowsDone(f, b, block[..], 8)
  {
    var i: nat := 0;
    while i < 64
      invariant i <= 64 && i % 8 == 0
      invariant ColumnsDone(f, b, temp[..], 8) && RowsDone(f, b, block[..], i / 8)
    {
      var x := Vec(temp[i], temp[1 + i], temp[2 + i], temp[3 + i], temp[4 + i], temp[5 + i], temp[6 + i], temp[7 + i]);
      RowRead(f, b, temp[..], i, i / 8);
      StoreRow(block, i, f(x));
      i := i + 8;
    }
  }

  /** idct, with the transform of a column or row as a parameter. */
  method InPlace(block: array<int>, f: Vec -> Vec)
    requires block.Length == 64
    modifies block
    ensures block[..] == Separable(f, old(block[..]))
  {
    ghost var b: Block := block[..];
    var temp := new int[64];
    ColumnPass(block, temp, f);
    RowPass(block, temp, f, b);
  }

  method Inverse(block: array<int>)
    requires block.Length == 64
    modifies block
    ensures block[..] == Transformed(old(block[..]))
  {
    InPlace(block, Butterfly);
  }

  // ---- the reference ---------------------------------------------------------------------------

  datatype RVec = RVec(v0: real, v1: real, v2: real, v3: real, v4: real, v5: real, v6: real, v7: real)

  function RAt(v: RVec, k: int): real {
    if k == 0 then v.v0 else if k == 1 then v.v1 else if k == 2 then v.v2 else if k == 3 then v.v3
    else if k == 4 then v.v4 else if k == 5 then v.v5 else if k == 6 then v.v6 else v.v7
  }

  function Scale(v: real, c: real): real {
    v * c / 65536.0
  }

  datatype RQuad = RQuad(q0: real, q1: real, q2: real, q3: real)

  function ExactEven(v0: real, v2: real, v4: real, v6: real): RQuad {
    var tmp10, tmp11, tmp13 := v0 + v4, v0 - v4, v2 + v6;
    var tmp12 := Scale(v2 - v6, 92682.0) - tmp13;
    RQuad(tmp10 + tmp13, tmp11 + tmp12, tmp11 - tmp12, tmp10 - tmp13)
  }

  function ExactOdd(v1: real, v3: real, v5: real, v7: real): RQuad {
    var z13, z10, z11, z12 := v5 + v3, v5 - v3, v1 + v7, v1 - v7;
    var tmp7, tmp11, z5 := z11 + z13, Scale(z11 - z13, 92682.0), Scale(z10 + z12, 121095.0);
    var tmp10, tmp12 := Scale(z12, 70936.0) - z5, Scale(z10, -171254.0) + z5;
    var tmp6 := tmp12 - tmp7;
    var tmp5 := tmp11 - tmp6;
    RQuad(tmp7, tmp6, tmp5, tmp10 + tmp5)
  }

  /** The linear map that Butterfly rounds. */
  function Exact(x: RVec): RVec {
    var e, o := ExactEven(x.v0, x.v2, x.v4, x.v6), ExactOdd(x.v1, x.v3, x.v5, x.v7);
    RVec(e.q0 + o.q0, e.q1 + o.q1, e.q2 + o.q2, e.q3 - o.q3, e.q3 + o.q3, e.q2 - o.q2, e.q1 - o.q1, e.q0 - o.q0)
  }

  function ToReal(x: Vec): RVec {
    RVec(x.v0 as real, x.v1 as real, x.v2 as real, x.v3 as real, x.v4 as real, x.v5 as real, x.v6 as real, x.v7 as real)
  }

  function Minus(a: RVec, b: RVec): RVec {
    RVec(a.v0 - b.v0, a.v1 - b.v1, a.v2 - b.v2, a.v3 - b.v3, a.v4 - b.v4, a.v5 - b.v5, a.v6 - b.v6, a.v7 - b.v7)
  }

  predicate Small(x: real, e: real) {
    -e <= x <= e
  }

  /** Every entry is at most e in magnitude. */
  predicate AllSmall(x: RVec, e: real) {
    && Small(x.v0, e) && Small(x.v1, e) && Small(x.v2, e) && Small(x.v3, e)
    && Small(x.v4, e) && Small(x.v5, e) && Small(x.v6, e) && Small(x.v7, e)
  }

  lemma ExactIsLinear(a: RVec, b: RVec)
    ensures Minus(Exact(a), Exact(b)) == Exact(Minus(a, b))
  {
  }

  lemma EvenGain(v0: real, v2: real, v4: real, v6: real, e0: real, e: real)
    requires Small(v0, e0) && Small(v2, e) && Small(v4, e) && Small(v6, e) && e >= 0.0
    ensures var q := ExactEven(v0, v2, v4, v6);
            && Small(q.q0, e0 + 3.0 * e) && Small(q.q1, e0 + 3.9 * e)
            && Small(q.q2, e0 + 3.9 * e) && Small(q.q3, e0 + 3.0 * e)
  {
  }

  lemma OddGain(v1: real, v3: real, v5: real, v7: real, e: real)
    requires Small(v1, e) && Small(v3, e) && Small(v5, e) && Small(v7, e) && e >= 0.0
    ensures var q := ExactOdd(v1, v3, v5, v7);
            && Small(q.q0, 4.0 * e) && Small(q.q1, 5.7 * e) && Small(q.q2, 6.4 * e) && Small(q.q3, 7.4 * e)
  {
  }

  /** The first entry counts once, and the others together at most 10.4 times. */
  lemma ExactGain(x: RVec, e0: real, e: real)
    requires Small(x.v0, e0) && AllSmall(x.(v0 := 0.0), e) && e >= 0.0
    ensures AllSmall(Exact(x), e0 + 10.4 * e)
  {
    EvenGain(x.v0, x.v2, x.v4, x.v6, e0, e);
    OddGain(x.v1, x.v3, x.v5, x.v7, e);
  }

  // ---- rounding --------------------------------------------------------------------------------

  predicate Fits(v: int, c: int) {
    -0x8000_0000 <= v * c < 0x8000_0000
  }

  /** No product of the butterfly exceeds 32 bits. */
  predicate NoWrap(x: Vec) {
    var z13, z10, z11, z12 := x.v5 + x.v3, x.v5 - x.v3, x.v1 + x.v7, x.v1 - x.v7;
    && Fits(x.v2 - x.v6, FIX_1_414213562) && Fits(z11 - z13, FIX_1_414213562)
    && Fits(z10 + z12, FIX_1_847759065) && Fits(z12, FIX_1_082392200) && Fits(z10, -FIX_2_613125930)
  }

  /** A product that fits is rounded down, by less than one. */
  lemma MultiplyRounds(v: int, c: int)
    requires Fits(v, c)
    ensures 0x1_0000 * Multiply(v, c) <= v * c < 0x1_0000 * Multiply(v, c) + 0x1_0000
  {
    var p := v * c;
    assert Wrap32(p) == p;
  }

  lemma Rounds(v: int, c: int, rv: real, rc: real)
    requires Fits(v, c) && rv == v as real && rc == c as real
    ensures Scale(rv, rc) - 1.0 < Multiply(v, c) as real <= Scale(rv, rc)
  {
    MultiplyRounds(v, c);
    var p := v * c;
    assert rv * rc == p as real;
  }

  lemma EvenError(v0: int, v2: int, v4: int, v6: int)
    requires Fits(v2 - v6, FIX_1_414213562)
    ensures var q, r := Even(v0, v2, v4, v6), ExactEven(v0 as real, v2 as real, v4 as real, v6 as real);
            && q.q0 as real == r.q0 && Small(q.q1 as real - r.q1, 1.0)
            && Small(q.q2 as real - r.q2, 1.0) && q.q3 as real == r.q3
  {
    Rounds(v2 - v6, FIX_1_414213562, v2 as real - v6 as real, 92682.0);
  }

  lemma OddError(v1: int, v3: int, v5: int, v7: int)
    requires NoWrap(Vec(0, v1, 0, v3, 0, v5, 0, v7))
    ensures var q, r := Odd(v1, v3, v5, v7), ExactOdd(v1 as real, v3 as real, v5 as real, v7 as real);
            && q.q0 as real == r.q0 && Small(q.q1 as real - r.q1, 2.0)
            && Small(q.q2 as real - r.q2, 2.0) && Small(q.q3 as real - r.q3, 3.0)
  {
    var r1, r3, r5, r7 := v1 as real, v3 as real, v5 as real, v7 as real;
    Rounds((v1 + v7) - (v5 + v3), FIX_1_414213562, (r1 + r7) - (r5 + r3), 92682.0);
    Rounds((v5 - v3) + (v1 - v7), FIX_1_847759065, (r5 - r3) + (r1 - r7), 121095.0);
    Rounds(v1 - v7, FIX_1_082392200, r1 - r7, 70936.0);
    Rounds(v5 - v3, -FIX_2_613125930, r5 - r3, -171254.0);
  }

  /** One pass differs from the exact map by at most 3 in every entry. */
  lemma PassError(x: Vec)
    requires NoWrap(x)
    ensures AllSmall(Minus(ToReal(Butterfly(x)), Exact(ToReal(x))), 3.0)
  {
    EvenError(x.v0, x.v2, x.v4, x.v6);
    OddError(x.v1, x.v3, x.v5, x.v7);
  }

  // ---- both passes against the reference -------------------------------------------------------

  predicate Int16(n: int) {
    -0x8000 <= n < 0x8000
  }

  predicate Within(n: int, m: int) {
    -m <= n <= m
  }

  /** A 16-bit DC coefficient, and AC coefficients of at most ac. */
  predicate Bounded(b: Block, ac: nat) {
    Int16(b[0]) && forall n :: 1 <= n < 64 ==> Within(b[n], ac)
  }

  /** The first entry is at most m0, and the others are at most m. */
  predicate Entries(x: Vec, m0: int, m: int) {
    && Within(x.v0, m0) && Within(x.v1, m) && Within(x.v2, m) && Within(x.v3, m)
    && Within(x.v4, m) && Within(x.v5, m) && Within(x.v6, m) && Within(x.v7, m)
  }

  /** 4433 is the most that four times 121095 / 65536 leaves room for; the first entry is not multiplied. */
  lemma EntriesFit(x: Vec, m0: int, m: int)
    requires Entries(x, m0, m) && m <= 4433
    ensures NoWrap(x)
  {
  }

  // ---- the error, on every block without wrapping ----------------------------------------------

  /** f rounds g at x. */
  predicate Rounding(f: Vec -> Vec, g: RVec -> RVec, x: Vec) {
    AllSmall(Minus(ToReal(f(x)), g(ToReal(x))), 3.0)
  }

  lemma AtRounding(f: Vec -> Vec, g: RVec -> RVec, x: Vec, k: nat)
    requires Rounding(f, g, x) && k < 8
    ensures Small(At(f(x), k) as real - RAt(g(ToReal(x)), k), 3.0)
  {
  }

  function ExactTemp(g: RVec -> RVec, b: Block, r: int, i: int): real
    requires 0 <= i < 8
  {
    RAt(g(ToReal(Column(b, i))), r)
  }

  function ExactRow(g: RVec -> RVec, b: Block, r: int): RVec {
    RVec(ExactTemp(g, b, r, 0), ExactTemp(g, b, r, 1), ExactTemp(g, b, r, 2), ExactTemp(g, b, r, 3),
         ExactTemp(g, b, r, 4), ExactTemp(g, b, r, 5), ExactTemp(g, b, r, 6), ExactTemp(g, b, r, 7))
  }

  /** The two-dimensional map that g makes. */
  function ExactUnshifted(g: RVec -> RVec, b: Block, r: int, i: int): real {
    RAt(g(ExactRow(g, b, r)), i)
  }

  /** No product of either pass exceeds 32 bits. */
  predicate NoneWraps(b: Block) {
    forall k: nat | k < 8 :: NoWrap(Column(b, k)) && NoWrap(Row(Butterfly, b, k))
  }

  predicate TempClose(f: Vec -> Vec, g: RVec -> RVec, b: Block, r: int, i: int)
    requires 0 <= i < 8
  {
    Small(Temp(f, b, r, i) as real - ExactTemp(g, b, r, i), 3.0)
  }

  lemma RowClose(f: Vec -> Vec, g: RVec -> RVec, b: Block, r: nat)
    requires r < 8 && forall i: nat :: i < 8 ==> Rounding(f, g, Column(b, i))
    ensures AllSmall(Minus(ToReal(Row(f, b, r)), ExactRow(g, b, r)), 3.0)
  {
    forall i: nat | i < 8 ensures TempClose(f, g, b, r, i) {
      AtRounding(f, g, Column(b, i), r);
    }
    assert TempClose(f, g, b, r, 0) && TempClose(f, g, b, r, 1) && TempClose(f, g, b, r, 2) && TempClose(f, g, b, r, 3);
    assert TempClose(f, g, b, r, 4) && TempClose(f, g, b, r, 5) && TempClose(f, g, b, r, 6) && TempClose(f, g, b, r, 7);
  }

  lemma PassRounds(x: Vec)
    requires NoWrap(x)
    ensures Rounding(Butterfly, Exact, x)
  {
    PassError(x);
  }

  lemma Triangle(x: RVec, y: RVec, z: RVec, e: real, d: real)
    requires AllSmall(Minus(x, y), e) && AllSmall(Minus(y, z), d)
    ensures AllSmall(Minus(x, z), e + d)
  {
  }

  /** An error of 3 in each entry grows to 3 * 11.4. */
  lemma ErrorGrows(x: RVec, y: RVec)
    requires AllSmall(Minus(x, y), 3.0)
    ensures AllSmall(Minus(Exact(x), Exact(y)), 34.2)
  {
    ExactIsLinear(x, y);
    ExactGain(Minus(x, y), 3.0, 3.0);
  }

  lemma CloseAt(f: Vec -> Vec, g: RVec -> RVec, x: Vec, y: RVec, i: nat)
    requires Rounding(f, g, x) && AllSmall(Minus(g(ToReal(x)), g(y)), 34.2) && i < 8
    ensures Small(At(f(x), i) as real - RAt(g(y), i), 37.2)
  {
    Triangle(ToReal(f(x)), g(ToReal(x)), g(y), 3.0, 34.2);
  }

  /** Wherever no product wraps, every entry before the shift is within 37.2 of the exact linear map. */
  lemma WithinOfExact(b: Block, r: nat, i: nat)
    requires NoneWraps(b) && r < 8 && i < 8
    ensures Small(Unshifted(Butterfly, b, r, i) as real - ExactUnshifted(Exact, b, r, i), 37.2)
  {
    forall k: nat | k < 8 ensures Rounding(Butterfly, Exact, Column(b, k)) {
      PassRounds(Column(b, k));
    }
    RowClose(Butterfly, Exact, b, r);
    var x, y := Row(Butterfly, b, r), ExactRow(Exact, b, r);
    PassRounds(x);
    ErrorGrows(ToReal(x), y);
    CloseAt(Butterfly, Exact, x, y, i);
  }

  // ---- how large the coefficients may be -------------------------------------------------------

  lemma Product(v: int, c: int, m: int)
    requires Fits(v, c) && 0x1_0000 * m <= v * c < 0x1_0000 * m + 0x1_0000
    ensures Multiply(v, c) == m
  {
    MultiplyRounds(v, c);
  }

  /** tmp4 in terms of its four products; each is rounded down by less than one. */
  lemma OddLinear(v1: int, v3: int, v5: int, v7: int)
    requires NoWrap(Vec(0, v1, 0, v3, 0, v5, 0, v7))
    ensures var q := 0x1_0000 * Odd(v1, v3, v5, v7).q3; var e := OddExact(v1, v3, v5, v7);
            e - 0x2_0000 < q < e + 0x3_0000
  {
    var z13, z10, z11, z12 := v5 + v3, v5 - v3, v1 + v7, v1 - v7;
    MultiplyRounds(z11 - z13, FIX_1_414213562);
    MultiplyRounds(z10 + z12, FIX_1_847759065);
    MultiplyRounds(z12, FIX_1_082392200);
    MultiplyRounds(z10, -FIX_2_613125930);
  }

  /** 65536 times tmp4 without rounding. */
  function OddExact(v1: int, v3: int, v5: int, v7: int): int {
    -13036 * v1 + 43790 * v3 - 98082 * v5 + 329472 * v7
  }

  lemma OddFits(v1: int, v3: int, v5: int, v7: int)
    requires Within(v1, 389) && Within(v3, 389) && Within(v5, 389) && Within(v7, 389)
    ensures NoWrap(Vec(0, v1, 0, v3, 0, v5, 0, v7))
  {
    EntriesFit(Vec(0, v1, 0, v3, 0, v5, 0, v7), 0, 389);
  }

  /** At the corner where all four products push the same way, rounding does not add up. */
  lemma OddCorner()
    ensures Odd(-389, 389, -389, 389).q3 == 2876
  {
    Product(0, FIX_1_414213562, 0);
    Product(-1556, FIX_1_847759065, -2876);
    Product(-778, FIX_1_082392200, -843);
    Product(-778, -FIX_2_613125930, 2033);
  }

  lemma OddLast(v1: int, v3: int, v5: int, v7: int)
    requires Within(v1, 389) && Within(v3, 389) && Within(v5, 389) && Within(v7, 389)
    ensures Within(Odd(v1, v3, v5, v7).q3, 2877)
  {
    OddFits(v1, v3, v5, v7);
    OddLinear(v1, v3, v5, v7);
    if v1 == -389 && v3 == 389 && v5 == -389 && v7 == 389 {
      OddCorner();
    }
  }

  lemma EvenSize(v0: int, v2: int, v4: int, v6: int, m0: nat)
    requires Within(v0, m0) && Within(v2, 389) && Within(v4, 389) && Within(v6, 389)
    ensures var q := Even(v0, v2, v4, v6);
            Within(q.q0, m0 + 1167) && Within(q.q1, m0 + 1519) && Within(q.q2, m0 + 1519) && Within(q.q3, m0 + 1167)
  {
    EvenError(v0, v2, v4, v6);
    EvenGain(v0 as real, v2 as real, v4 as real, v6 as real, m0 as real, 389.0);
  }

  lemma OddSize(v1: int, v3: int, v5: int, v7: int)
    requires Within(v1, 389) && Within(v3, 389) && Within(v5, 389) && Within(v7, 389)
    ensures var q := Odd(v1, v3, v5, v7);
            Within(q.q0, 1556) && Within(q.q1, 2220) && Within(q.q2, 2492) && Within(q.q3, 2877)
  {
    OddFits(v1, v3, v5, v7);
    OddError(v1, v3, v5, v7);
    OddGain(v1 as real, v3 as real, v5 as real, v7 as real, 389.0);
    OddLast(v1, v3, v5, v7);
  }

  /** 4044 + 389 is just 4433, the most that the second pass has room for. */
  lemma ColumnSize(x: Vec, m0: nat)
    requires Entries(x, m0, 389)
    ensures Entries(Butterfly(x), m0 + 4044, m0 + 4044)
  {
    EvenSize(x.v0, x.v2, x.v4, x.v6, m0);
    OddSize(x.v1, x.v3, x.v5, x.v7);
  }

  lemma ColumnEntries(b: Block, i: nat)
    requires Bounded(b, 389) && i < 8
    ensures Entries(Column(b, i), if i == 0 then 32768 else 389, 389)
  {
  }

  lemma TempSize(f: Vec -> Vec, b: Block, r: nat, i: nat, m: nat)
    requires r < 8 && i < 8 && Entries(f(Column(b, i)), m, m)
    ensures Within(Temp(f, b, r, i), m)
  {
  }

  lemma RowSize(f: Vec -> Vec, b: Block, r: nat)
    requires r < 8
    requires forall i: nat :: i < 8 ==> Within(Temp(f, b, r, i), if i == 0 then 36812 else 4433)
    ensures Entries(Row(f, b, r), 36812, 4433)
  {
  }

  /** What the second pass is given. */
  lemma BetweenPasses(b: Block, r: nat)
    requires Bounded(b, 389) && r < 8
    ensures Entries(Row(Butterfly, b, r), 36812, 4433)
  {
    forall i: nat | i < 8 ensures Within(Temp(Butterfly, b, r, i), if i == 0 then 36812 else 4433) {
      ColumnEntries(b, i);
      var m0: nat := if i == 0 then 32768 else 389;
      ColumnSize(Column(b, i), m0);
      TempSize(Butterfly, b, r, i, m0 + 4044);
    }
    RowSize(Butterfly, b, r);
  }

  /** With any 16-bit DC and AC coefficients of at most 389 no product wraps. */
  lemma SmallNeverWraps(b: Block)
    requires Bounded(b, 389)
    ensures NoneWraps(b)
  {
    forall k: nat | k < 8 ensures NoWrap(Column(b, k)) && NoWrap(Row(Butterfly, b, k)) {
      ColumnEntries(b, k);
      EntriesFit(Column(b, k), if k == 0 then 32768 else 389, 389);
      BetweenPasses(b, k);
      EntriesFit(Row(Butterfly, b, k), 36812, 4433);
    }
  }

  lemma RealEntries(x: Vec, m0: nat, m: nat)
    requires Entries(x, m0, m)
    ensures AllSmall(Exact(ToReal(x)), m0 as real + 10.4 * m as real)
  {
    var r, e0, e := ToReal(x), m0 as real, m as real;
    assert Small(r.v0, e0) && AllSmall(r.(v0 := 0.0), e);
    ExactGain(r, e0, e);
  }

  /** The stored entry is the shifted one: 16 bits are enough. */
  lemma StoredWhole(b: Block, n: nat)
    requires Bounded(b, 389) && n < 64
    ensures Transformed(b)[n] == Unshifted(Butterfly, b, n / 8, n % 8) / 64
  {
    var x := Row(Butterfly, b, n / 8);
    BetweenPasses(b, n / 8);
    EntriesFit(x, 36812, 4433);
    PassRounds(x);
    RealEntries(x, 36812, 4433);
    StoredAt(Butterfly, Exact, b, n);
  }

  lemma StoredAt(f: Vec -> Vec, g: RVec -> RVec, b: Block, n: nat)
    requires n < 64 && Rounding(f, g, Row(f, b, n / 8)) && AllSmall(g(ToReal(Row(f, b, n / 8))), 82915.2)
    ensures Separable(f, b)[n] == Unshifted(f, b, n / 8, n % 8) / 64
  {
    AtRounding(f, g, Row(f, b, n / 8), n % 8);
    AtSmall(g(ToReal(Row(f, b, n / 8))), n % 8, 82915.2);
  }

  lemma AtSmall(x: RVec, k: nat, e: real)
    requires AllSmall(x, e) && k < 8
    ensures Small(RAt(x, k), e)
  {
  }

  // ---- a block with nothing but DC -------------------------------------------------------------

  function Flat(n: int): Vec {
    Vec(n, n, n, n, n, n, n, n)
  }

  function First(n: int): Vec {
    Vec(n, 0, 0, 0, 0, 0, 0, 0)
  }

  /** A transform that spreads a first entry that stands alone. */
  ghost predicate Spreads(f: Vec -> Vec) {
    forall n :: f(First(n)) == Flat(n)
  }

  lemma ButterflySpreads()
    ensures Spreads(Butterfly)
  {
    forall n ensures Butterfly(First(n)) == Flat(n) {
      assert Multiply(0, FIX_1_414213562) == 0;
    }
  }

  lemma SpreadAll(f: Vec -> Vec, b: Block, n: nat)
    requires Spreads(f) && Bounded(b, 0) && n < 64
    ensures Separable(f, b)[n] == b[0] / 64
  {
    forall i | 0 <= i < 8 ensures Column(b, i) == First(if i == 0 then b[0] else 0) {
    }
    assert Row(f, b, n / 8) == First(b[0]);
  }

  /** The DC coefficient alone gives a flat block. */
  lemma DcOnly(b: Block, n: nat)
    requires Bounded(b, 0) && n < 64
    ensures Transformed(b)[n] == b[0] / 64
  {
    ButterflySpreads();
    SpreadAll(Butterfly, b, n);
  }

  // ---- the bound is exact ----------------------------------------------------------------------

  /** Columns 1 and 5 alternate in sign with the exact map, and columns 3 and 7 the other way. */
  function Steep(): Block {
    seq(64, n requires 0 <= n < 64 =>
      var sign := if n / 8 == 0 || n / 8 == 1 || n / 8 == 4 || n / 8 == 5 then 1 else -1;
      if n % 8 == 1 || n % 8 == 5 then 390 * sign else if n % 8 == 3 || n % 8 == 7 then -390 * sign else 0)
  }

  function Up(): Vec {
    Vec(390, 390, -390, -390, 390, 390, -390, -390)
  }

  function Down(): Vec {
    Vec(-390, -390, 390, 390, -390, -390, 390, 390)
  }

  lemma SteepColumns()
    ensures Bounded(Steep(), 390) && Column(Steep(), 1) == Column(Steep(), 5) == Up()
    ensures Column(Steep(), 3) == Column(Steep(), 7) == Down()
  {
  }

  lemma SteepUp()
    ensures Odd(390, -390, 390, -390).q3 == -2881
  {
    Product(0, FIX_1_414213562, 0);
    Product(1560, FIX_1_847759065, 2882);
    Product(780, FIX_1_082392200, 844);
    Product(780, -FIX_2_613125930, -2039);
  }

  lemma SteepDown()
    ensures Odd(-390, 390, -390, 390).q3 == 2883
  {
    Product(0, FIX_1_414213562, 0);
    Product(-1560, FIX_1_847759065, -2883);
    Product(-780, FIX_1_082392200, -845);
    Product(-780, -FIX_2_613125930, 2038);
  }

  lemma SteepPass()
    ensures Butterfly(Up()).v3 == 4441 && Butterfly(Down()).v3 == -4443
  {
    SteepUp();
    SteepDown();
  }

  lemma SteepRow(f: Vec -> Vec, b: Block)
    requires Column(b, 1) == Column(b, 5) == Up() && Column(b, 3) == Column(b, 7) == Down()
    requires f(Up()).v3 == 4441 && f(Down()).v3 == -4443
    ensures !NoWrap(Row(f, b, 3))
  {
    var x := Row(f, b, 3);
    assert x.v1 == x.v5 == 4441 && x.v3 == x.v7 == -4443;
  }

  /** With AC coefficients of 390 a product of the second pass can wrap. */
  lemma WrapsAt390()
    ensures Bounded(Steep(), 390) && !NoWrap(Row(Butterfly, Steep(), 3))
  {
    SteepColumns();
    SteepPass();
    SteepRow(Butterfly, Steep());
  }

  lemma BoundedMonotone(b: Block, ac: nat, ac': nat)
    requires Bounded(b, ac) && ac <= ac'
    ensures Bounded(b, ac')
  {
  }

  /** No block with AC coefficients of at most ac makes a product wrap. */
  ghost predicate Safe(ac: nat) {
    forall b: Block :: Bounded(b, ac) ==> NoneWraps(b)
  }

  /** Products stay within 32 bits for every block exactly up to AC coefficients of 389. */
  lemma SafeIff(ac: nat)
    ensures Safe(ac) <==> ac <= 389
  {
    if ac <= 389 {
      forall b: Block | Bounded(b, ac) ensures NoneWraps(b) {
        BoundedMonotone(b, ac, 389);
        SmallNeverWraps(b);
      }
    } else {
      WrapsAt390();
      BoundedMonotone(Steep(), 390, ac);
      assert !NoneWraps(Steep());
    }
  }
}
