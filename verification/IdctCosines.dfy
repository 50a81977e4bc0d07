/**
  That the exact map of the inverse transform is one of cosines. Column u of an inverse cosine
  transform over eight points is cos((2 k + 1) u pi / 16) for k from 0 to 7, here divided by its first
  entry. Up to that entry it is told apart by what its neighbours add up to: each entry times twice
  cos(u pi / 8), with the first and the last entry repeated beyond the ends.
 */
module IdctCosines {
  import opened Idct

  /** Twice the cosine of u * pi / 8. */
  function TwiceCos(u: nat): real
    requires u < 8
  {
    if u == 0 then 2.0 else if u == 1 then 1.8477590650 else if u == 2 then 1.4142135624
    else if u == 3 then 0.7653668647 else if u == 4 then 0.0
    else if u == 5 then -0.7653668647 else if u == 6 then -1.4142135624 else -1.8477590650
  }

  predicate Close(a: real, b: real, e: real) {
    -e <= a - b <= e
  }

  /** Its values are those of the cosine: they fall from 2 by way of 0, and double as angles do. */
  lemma CosinesDouble(u: nat)
    requires 1 <= u <= 4
    ensures TwiceCos(u - 1) > TwiceCos(u) >= 0.0 == TwiceCos(4) && TwiceCos(0) == 2.0
    ensures TwiceCos(8 - u) == -TwiceCos(u)
    ensures u < 4 ==> Close(TwiceCos(u) * TwiceCos(u), 2.0 + TwiceCos(2 * u), 0.000000001)
  {
  }

  /** The neighbours of every entry add up to c times the entry, within e. */
  predicate Wave(f: RVec, c: real, e: real) {
    && Close(f.v0 + f.v1, c * f.v0, e) && Close(f.v0 + f.v2, c * f.v1, e)
    && Close(f.v1 + f.v3, c * f.v2, e) && Close(f.v2 + f.v4, c * f.v3, e)
    && Close(f.v3 + f.v5, c * f.v4, e) && Close(f.v4 + f.v6, c * f.v5, e)
    && Close(f.v5 + f.v7, c * f.v6, e) && Close(f.v6 + f.v7, c * f.v7, e)
  }

  lemma Column0(t: real)
    ensures var f := Exact(RVec(t, 0.0, 0.0, 0.0, 0.0, 0.0, 0.0, 0.0)); f.v0 == t && Wave(f, 2.0, 0.0)
  {
  }

  lemma Column1(t: real, s: real)
    requires Small(t, s)
    ensures var f := Exact(RVec(0.0, t, 0.0, 0.0, 0.0, 0.0, 0.0, 0.0));
            f.v0 == t && Wave(f, 1.8477590650, 0.00001 * s)
  {
    var a, b, c := t * 92682.0 / 65536.0, t * 121095.0 / 65536.0, t * 70936.0 / 65536.0;
    var f := Exact(RVec(0.0, t, 0.0, 0.0, 0.0, 0.0, 0.0, 0.0));
    var o1 := b - t;
    var o2 := a - o1;
    var o3 := c - b + o2;
    assert f == RVec(t, o1, o2, -o3, o3, -o2, -o1, -t);
  }

  lemma Column2(t: real, s: real)
    requires Small(t, s)
    ensures var f := Exact(RVec(0.0, 0.0, t, 0.0, 0.0, 0.0, 0.0, 0.0));
            f.v0 == t && Wave(f, 1.4142135624, 0.00001 * s)
  {
    var a, f := t * 92682.0 / 65536.0, Exact(RVec(0.0, 0.0, t, 0.0, 0.0, 0.0, 0.0, 0.0));
    assert f == RVec(t, a - t, t - a, -t, -t, t - a, a - t, t);
  }

  lemma Column3(t: real, s: real)
    requires Small(t, s)
    ensures var f := Exact(RVec(0.0, 0.0, 0.0, t, 0.0, 0.0, 0.0, 0.0));
            f.v0 == t && Wave(f, 0.7653668647, 0.00001 * s)
  {
    var a, b, d := t * 92682.0 / 65536.0, t * 121095.0 / 65536.0, t * 171254.0 / 65536.0;
    var f := Exact(RVec(0.0, 0.0, 0.0, t, 0.0, 0.0, 0.0, 0.0));
    var o1 := d - b - t;
    var o2 := -a - o1;
    var o3 := b + o2;
    assert f == RVec(t, o1, o2, -o3, o3, -o2, -o1, -t);
  }

  lemma Column4(t: real)
    ensures var f := Exact(RVec(0.0, 0.0, 0.0, 0.0, t, 0.0, 0.0, 0.0)); f.v0 == t && Wave(f, 0.0, 0.0)
  {
  }

  lemma Column5(t: real, s: real)
    requires Small(t, s)
    ensures var f := Exact(RVec(0.0, 0.0, 0.0, 0.0, 0.0, t, 0.0, 0.0));
            f.v0 == t && Wave(f, -0.7653668647, 0.00001 * s)
  {
    var a, b, d := t * 92682.0 / 65536.0, t * 121095.0 / 65536.0, t * 171254.0 / 65536.0;
    var f := Exact(RVec(0.0, 0.0, 0.0, 0.0, 0.0, t, 0.0, 0.0));
    var o1 := b - d - t;
    var o2 := -a - o1;
    var o3 := o2 - b;
    assert f == RVec(t, o1, o2, -o3, o3, -o2, -o1, -t);
  }

  lemma Column6(t: real, s: real)
    requires Small(t, s)
    ensures var f := Exact(RVec(0.0, 0.0, 0.0, 0.0, 0.0, 0.0, t, 0.0));
            f.v0 == t && Wave(f, -1.4142135624, 0.00001 * s)
  {
    var a, f := t * 92682.0 / 65536.0, Exact(RVec(0.0, 0.0, 0.0, 0.0, 0.0, 0.0, t, 0.0));
    assert f == RVec(t, -t - a, t + a, -t, -t, t + a, -t - a, t);
  }

  lemma Column7(t: real, s: real)
    requires Small(t, s)
    ensures var f := Exact(RVec(0.0, 0.0, 0.0, 0.0, 0.0, 0.0, 0.0, t));
            f.v0 == t && Wave(f, -1.8477590650, 0.00001 * s)
  {
    var a, b, c := t * 92682.0 / 65536.0, t * 121095.0 / 65536.0, t * 70936.0 / 65536.0;
    var f := Exact(RVec(0.0, 0.0, 0.0, 0.0, 0.0, 0.0, 0.0, t));
    var o1 := -b - t;
    var o2 := a - o1;
    var o3 := b - c + o2;
    assert f == RVec(t, o1, o2, -o3, o3, -o2, -o1, -t);
  }

  /** The input with t at place u and 0 elsewhere. */
  function Place(u: nat, t: real): RVec
    requires u < 8
  {
    RVec(if u == 0 then t else 0.0, if u == 1 then t else 0.0, if u == 2 then t else 0.0, if u == 3 then t else 0.0,
         if u == 4 then t else 0.0, if u == 5 then t else 0.0, if u == 6 then t else 0.0, if u == 7 then t else 0.0)
  }

  /** Column u of the exact map is the wave with twice the cosine of u * pi / 8 that begins with its input. */
  lemma ColumnIsCosine(u: nat, t: real, s: real)
    requires u < 8 && Small(t, s)
    ensures var f := Exact(Place(u, t)); f.v0 == t && Wave(f, TwiceCos(u), 0.00001 * s)
  {
    if u == 0 { Column0(t); }
    else if u == 1 { Column1(t, s); }
    else if u == 2 { Column2(t, s); }
    else if u == 3 { Column3(t, s); }
    else if u == 4 { Column4(t); }
    else if u == 5 { Column5(t, s); }
    else if u == 6 { Column6(t, s); }
    else { Column7(t, s); }
  }

  // ---- one coefficient -------------------------------------------------------------------------

  /** Only the coefficient in row u, column v of the block is not 0. */
  predicate Single(b: Block, u: nat, v: nat) {
    u < 8 && v < 8 && forall n :: 0 <= n < 64 && n != 8 * u + v ==> b[n] == 0
  }

  lemma ColumnOfSingle(b: Block, u: nat, v: nat, k: nat)
    requires Single(b, u, v) && k < 8
    ensures ToReal(Column(b, k)) == Place(u, if k == v then b[8 * u + v] as real else 0.0)
  {
    assert b[k] == b[8 * 0 + k] && b[8 + k] == b[8 * 1 + k];
  }

  lemma NothingStays(u: nat, r: nat)
    requires u < 8 && r < 8
    ensures RAt(Exact(Place(u, 0.0)), r) == 0.0
  {
    assert Place(u, 0.0) == RVec(0.0, 0.0, 0.0, 0.0, 0.0, 0.0, 0.0, 0.0);
  }

  lemma TempOfSingle(b: Block, u: nat, v: nat, r: nat, k: nat)
    requires Single(b, u, v) && r < 8 && k < 8
    ensures ExactTemp(Exact, b, r, k) == if k == v then RAt(Exact(Place(u, b[8 * u + v] as real)), r) else 0.0
  {
    ColumnOfSingle(b, u, v, k);
    NothingStays(u, r);
  }

  /** Down a column it makes the cosine of its row, and along a row, of what that gives, the cosine of its column. */
  lemma RowOfSingle(b: Block, u: nat, v: nat, r: nat)
    requires Single(b, u, v) && r < 8
    ensures ExactRow(Exact, b, r) == Place(v, RAt(Exact(Place(u, b[8 * u + v] as real)), r))
  {
    TempOfSingle(b, u, v, r, 0);
    TempOfSingle(b, u, v, r, 1);
    TempOfSingle(b, u, v, r, 2);
    TempOfSingle(b, u, v, r, 3);
    TempOfSingle(b, u, v, r, 4);
    TempOfSingle(b, u, v, r, 5);
    TempOfSingle(b, u, v, r, 6);
    TempOfSingle(b, u, v, r, 7);
  }

  /**
    The entry in row r, column i of the transformed block, 64 times, is the product of the two cosines
    to within the rounding of both passes and of the shift.
   */
  lemma SingleTransformed(b: Block, u: nat, v: nat, r: nat, i: nat)
    requires Single(b, u, v) && Bounded(b, 389) && r < 8 && i < 8
    ensures var down := RAt(Exact(Place(u, b[8 * u + v] as real)), r);
            var exact := RAt(Exact(Place(v, down)), i);
            exact - 101.2 <= 64.0 * Transformed(b)[8 * r + i] as real <= exact + 37.2
  {
    var n := 8 * r + i;
    assert n / 8 == r && n % 8 == i;
    SmallNeverWraps(b);
    WithinOfExact(b, r, i);
    RowOfSingle(b, u, v, r);
    StoredWhole(b, n);
    ShiftRounds(Unshifted(Butterfly, b, r, i), Transformed(b)[n]);
  }

  lemma ShiftRounds(n: int, m: int)
    requires m == n / 64
    ensures n as real - 64.0 < 64.0 * m as real <= n as real
  {
    var r := n - 64 * m;
    assert 0 <= r < 64;
    assert n as real == 64.0 * m as real + r as real;
  }
}
