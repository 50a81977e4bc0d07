/**
  No binary prefix code for the same symbols beats the lengths of a Huffman run.

  The competitor only enters through Kraft's inequality. Each merge turns the competitor's lengths
  into lengths for the merged table that cost at least f[a] + f[b] less and still satisfy Kraft.
 */
module HuffmanOptimal {
  import opened Sums
  import opened HuffmanTree

  function CostTerms(f: Freq, len: seq<nat>): (s: seq<int>)
    requires |f| == |len|
    ensures |s| == |f|
  {
    seq(|f|, k requires 0 <= k < |f| => f[k] * len[k])
  }

  /** Total bits spent: the sum of frequency times code length. */
  function Cost(f: Freq, len: seq<nat>): int
    requires |f| == |len|
  {
    Sum(CostTerms(f, len))
  }

  function Share(n: nat, len: nat): nat {
    if len <= n then Pow2(n - len) else 0
  }

  function KraftTerms(f: Freq, len: seq<nat>, n: nat): (s: seq<int>)
    requires |f| == |len|
    ensures |s| == |f|
  {
    seq(|f|, k requires 0 <= k < |f| => if f[k] > 0 then Share(n, len[k]) else 0)
  }

  /** The Kraft sum of the live symbols, scaled by 2^n. */
  function Kraft(f: Freq, len: seq<nat>, n: nat): int
    requires |f| == |len|
  {
    Sum(KraftTerms(f, len, n))
  }

  predicate Fits(f: Freq, len: seq<nat>, n: nat) {
    |f| == |len| && forall k :: 0 <= k < |f| && f[k] > 0 ==> len[k] <= n
  }

  /** Lengths of at most n that satisfy Kraft's inequality. */
  predicate Feasible(f: Freq, len: seq<nat>, n: nat) {
    Fits(f, len, n) && Kraft(f, len, n) <= Pow2(n)
  }

  // ---- from a prefix code to Kraft's inequality -------------------------------------------------

  predicate IsPrefix(c: seq<nat>, d: seq<nat>) {
    |c| <= |d| && c == d[..|c|]
  }

  /** The codewords of the live symbols are bit strings, none a prefix of another. */
  predicate PrefixCode(f: Freq, code: seq<seq<nat>>) {
    && |f| == |code|
    && (forall k, i :: 0 <= k < |f| && f[k] > 0 && 0 <= i < |code[k]| ==> code[k][i] < 2)
    && (forall k, l :: 0 <= k < |f| && 0 <= l < |f| && k != l && f[k] > 0 && f[l] > 0 ==>
          !IsPrefix(code[k], code[l]))
  }

  function Lengths(code: seq<seq<nat>>): (len: seq<nat>)
    ensures |len| == |code|
  {
    seq(|code|, k requires 0 <= k < |code| => |code[k]|)
  }

  function StartingWith(f: Freq, code: seq<seq<nat>>, bit: nat): (g: Freq)
    requires |f| == |code|
    ensures |g| == |f|
  {
    seq(|f|, k requires 0 <= k < |f| => if f[k] > 0 && code[k] != [] && code[k][0] == bit then f[k] else 0)
  }

  function Tails(code: seq<seq<nat>>): (tails: seq<seq<nat>>)
    ensures |tails| == |code|
  {
    seq(|code|, k requires 0 <= k < |code| => if code[k] == [] then [] else code[k][1..])
  }

  lemma KraftOfOne(f: Freq, len: seq<nat>, n: nat, a: nat)
    requires |f| == |len| && a < |f| && f[a] > 0
    requires forall k :: 0 <= k < |f| && f[k] > 0 ==> k == a
    ensures Kraft(f, len, n) == Share(n, len[a])
  {
    var s := KraftTerms(f, len, n);
    SumUpdate(s, a, 0);
    SumZero(s[a := 0]);
  }

  lemma PrefixOfTails(c: seq<nat>, d: seq<nat>)
    requires c != [] && d != [] && c[0] == d[0]
    ensures IsPrefix(c[1..], d[1..]) <==> IsPrefix(c, d)
  {
    if IsPrefix(c, d) {
      assert d[1..][..|c| - 1] == d[..|c|][1..];
    }
    if IsPrefix(c[1..], d[1..]) {
      assert d[..|c|] == [d[0]] + d[1..][..|c| - 1];
    }
  }

  lemma TailsArePrefixCode(f: Freq, code: seq<seq<nat>>, bit: nat)
    requires PrefixCode(f, code)
    ensures PrefixCode(StartingWith(f, code, bit), Tails(code))
  {
    var g, t := StartingWith(f, code, bit), Tails(code);
    forall k, l | 0 <= k < |g| && 0 <= l < |g| && k != l && g[k] > 0 && g[l] > 0
      ensures !IsPrefix(t[k], t[l])
    {
      PrefixOfTails(code[k], code[l]);
    }
  }

  lemma KraftOfEmptyWord(f: Freq, code: seq<seq<nat>>, n: nat, a: nat)
    requires PrefixCode(f, code) && a < |f| && f[a] > 0 && code[a] == []
    ensures Kraft(f, Lengths(code), n) == Pow2(n)
  {
    forall k | 0 <= k < |f| && f[k] > 0
      ensures k == a
    {
      assert IsPrefix(code[a], code[k]);
    }
    KraftOfOne(f, Lengths(code), n, a);
  }

  /** The words starting with 0 and those starting with 1 share the Kraft sum. */
  lemma KraftByFirstBit(f: Freq, code: seq<seq<nat>>, n: nat, n': nat)
    requires PrefixCode(f, code) && n' + 1 == n
    requires forall k :: 0 <= k < |f| && f[k] > 0 ==> code[k] != []
    ensures Kraft(f, Lengths(code), n)
         == Kraft(StartingWith(f, code, 0), Lengths(Tails(code)), n')
          + Kraft(StartingWith(f, code, 1), Lengths(Tails(code)), n')
  {
    var len := Lengths(Tails(code));
    SumPointwise(KraftTerms(f, Lengths(code), n),
                 KraftTerms(StartingWith(f, code, 0), len, n'), KraftTerms(StartingWith(f, code, 1), len, n'));
  }

  /** Kraft's inequality. */
  lemma {:induction false} KraftInequality(f: Freq, code: seq<seq<nat>>, n: nat)
    requires PrefixCode(f, code) && Fits(f, Lengths(code), n)
    ensures Kraft(f, Lengths(code), n) <= Pow2(n)
    decreases n, 0
  {
    if a :| 0 <= a < |f| && f[a] > 0 && code[a] == [] {
      KraftOfEmptyWord(f, code, n, a);
    } else if n == 0 {
      SumZero(KraftTerms(f, Lengths(code), n));
    } else {
      KraftByFirstBit(f, code, n, n - 1);
      KraftOfHalf(f, code, 0, n - 1);
      KraftOfHalf(f, code, 1, n - 1);
    }
  }

  lemma {:induction false} KraftOfHalf(f: Freq, code: seq<seq<nat>>, bit: nat, n: nat)
    requires PrefixCode(f, code) && Fits(f, Lengths(code), n + 1)
    ensures Kraft(StartingWith(f, code, bit), Lengths(Tails(code)), n) <= Pow2(n)
    decreases n, 1
  {
    TailsArePrefixCode(f, code, bit);
    KraftInequality(StartingWith(f, code, bit), Tails(code), n);
  }

  // ---- one merge --------------------------------------------------------------------------------

  /** Halving the scale of lengths that all fit below n. */
  lemma KraftHalves(f: Freq, len: seq<nat>, n: nat)
    requires n > 0 && Fits(f, len, n - 1)
    ensures Kraft(f, len, n) == 2 * Kraft(f, len, n - 1)
  {
    SumScale(KraftTerms(f, len, n), KraftTerms(f, len, n - 1), 2);
  }

  /** A longest codeword without a companion of the same length can be shortened. */
  lemma ShortenLonely(f: Freq, len: seq<nat>, n: nat, x: nat) returns (len': seq<nat>)
    requires Feasible(f, len, n) && n > 0 && x < |f| && f[x] > 0 && len[x] == n
    requires forall k :: 0 <= k < |f| && f[k] > 0 && k != x ==> len[k] < n
    ensures Feasible(f, len', n - 1) && Cost(f, len') <= Cost(f, len)
  {
    len' := len[x := n - 1];
    var s := KraftTerms(f, len, n);
    SumUpdate(s, x, 0);
    SumEven(s[x := 0]);
    assert Pow2(n) % 2 == 0;
    SumUpdate(s, x, 2);
    assert KraftTerms(f, len', n) == s[x := 2];
    KraftHalves(f, len', n);
    var c := CostTerms(f, len);
    SumUpdate(c, x, f[x] * (n - 1));
    assert CostTerms(f, len') == c[x := f[x] * (n - 1)];
  }

  /** Among at least two live nodes, two can be assumed to share the greatest length. */
  lemma {:induction false} LongestPair(f: Freq, len: seq<nat>, n: nat, a: nat, b: nat)
      returns (len': seq<nat>, n': nat, x: nat, y: nat)
    requires Feasible(f, len, n)
    requires a < |f| && b < |f| && a != b && f[a] > 0 && f[b] > 0
    ensures Feasible(f, len', n') && n' > 0 && Cost(f, len') <= Cost(f, len)
    ensures x < |f| && y < |f| && x != y && f[x] > 0 && f[y] > 0 && len'[x] == len'[y] == n'
    decreases n
  {
    SumAtLeastTwo(KraftTerms(f, len, n), a, b);
    assert n > 0;
    if x', y' :| 0 <= x' < |f| && 0 <= y' < |f| && x' != y' && f[x'] > 0 && f[y'] > 0 && len[x'] == len[y'] == n {
      len', n', x, y := len, n, x', y';
    } else if z :| 0 <= z < |f| && f[z] > 0 && len[z] == n {
      len' := ShortenLonely(f, len, n, z);
      len', n', x, y := LongestPair(f, len', n - 1, a, b);
    } else {
      KraftHalves(f, len, n);
      len', n', x, y := LongestPair(f, len, n - 1, a, b);
    }
  }

  lemma ExchangeGain(fp: nat, fq: nat, lp: nat, n: nat)
    requires fp <= fq && lp <= n
    ensures fp * n + fq * lp <= fp * lp + fq * n
  {
    assert (fq - fp) * (n - lp) >= 0;
  }

  lemma ExchangeCost(f: Freq, len: seq<nat>, p: nat, q: nat)
    requires |f| == |len| && p < |f| && q < |f| && p != q
    ensures Cost(f, len[p := len[q]][q := len[p]])
         == Cost(f, len) - f[p] * len[p] - f[q] * len[q] + f[p] * len[q] + f[q] * len[p]
  {
    var c := CostTerms(f, len);
    SumUpdateTwo(c, p, f[p] * len[q], q, f[q] * len[p]);
    assert CostTerms(f, len[p := len[q]][q := len[p]]) == c[p := f[p] * len[q]][q := f[q] * len[p]];
  }

  lemma ExchangeKraft(f: Freq, len: seq<nat>, n: nat, p: nat, q: nat)
    requires |f| == |len| && p < |f| && q < |f| && p != q && f[p] > 0 && f[q] > 0
    ensures Kraft(f, len[p := len[q]][q := len[p]], n) == Kraft(f, len, n)
  {
    var s := KraftTerms(f, len, n);
    SumUpdateTwo(s, p, s[q], q, s[p]);
    assert KraftTerms(f, len[p := len[q]][q := len[p]], n) == s[p := s[q]][q := s[p]];
  }

  /** Giving the longer codeword to the less frequent node costs nothing. */
  lemma Exchange(f: Freq, len: seq<nat>, n: nat, p: nat, q: nat) returns (len': seq<nat>)
    requires Feasible(f, len, n)
    requires p < |f| && q < |f| && 0 < f[p] <= f[q] && len[q] == n
    ensures Feasible(f, len', n) && Cost(f, len') <= Cost(f, len)
    ensures len' == len[p := n][q := len[p]]
  {
    len' := len[p := n][q := len[p]];
    if p != q {
      ExchangeKraft(f, len, n, p, q);
      ExchangeCost(f, len, p, q);
      ExchangeGain(f[p], f[q], len[p], n);
    } else {
      assert len' == len;
    }
  }

  lemma CostAfterMerge(f: Freq, len: seq<nat>, m: Merge, l: nat)
    requires |f| == |len| && m.zero < |f| && m.one < |f| && m.zero != m.one
    ensures Cost(Apply(f, m), len + [l])
         == Cost(f, len) - f[m.zero] * len[m.zero] - f[m.one] * len[m.one] + (f[m.zero] + f[m.one]) * l
  {
    var c, w := CostTerms(f, len), (f[m.zero] + f[m.one]) * l;
    SumUpdateTwo(c, m.zero, 0, m.one, 0);
    SumAppend(c[m.zero := 0][m.one := 0], w);
    assert CostTerms(Apply(f, m), len + [l]) == c[m.zero := 0][m.one := 0] + [w];
  }

  lemma KraftAfterMerge(f: Freq, len: seq<nat>, n: nat, m: Merge, l: nat)
    requires |f| == |len| && m.zero < |f| && m.one < |f| && m.zero != m.one && f[m.zero] > 0 && f[m.one] > 0
    ensures Kraft(Apply(f, m), len + [l], n)
         == Kraft(f, len, n) - Share(n, len[m.zero]) - Share(n, len[m.one]) + Share(n, l)
  {
    var s := KraftTerms(f, len, n);
    SumUpdateTwo(s, m.zero, 0, m.one, 0);
    SumAppend(s[m.zero := 0][m.one := 0], Share(n, l));
    assert KraftTerms(Apply(f, m), len + [l], n) == s[m.zero := 0][m.one := 0] + [Share(n, l)];
  }

  /** Sibling nodes a and b become one node, one level up. */
  lemma MergeSiblings(f: Freq, len: seq<nat>, n: nat, m: Merge) returns (len': seq<nat>)
    requires Feasible(f, len, n) && n > 0
    requires m.zero < |f| && m.one < |f| && m.zero != m.one && f[m.zero] > 0 && f[m.one] > 0
    requires len[m.zero] == len[m.one] == n
    ensures Feasible(Apply(f, m), len', n)
    ensures Cost(Apply(f, m), len') + f[m.zero] + f[m.one] == Cost(f, len)
  {
    len' := len + [n - 1];
    CostAfterMerge(f, len, m, n - 1);
    KraftAfterMerge(f, len, n, m, n - 1);
    OneLevel(f[m.zero], f[m.one], n - 1);
  }

  /** Two nodes one level down cost their own weight more than one node in their place. */
  lemma OneLevel(a: nat, b: nat, l: nat)
    ensures a * (l + 1) + b * (l + 1) == (a + b) * l + a + b
  {
  }

  lemma MergeStep(f: Freq, len: seq<nat>, n: nat, m: Merge) returns (len': seq<nat>, n': nat)
    requires Feasible(f, len, n) && LeastTwo(f, m.zero, m.one)
    ensures Feasible(Apply(f, m), len', n')
    ensures Cost(Apply(f, m), len') + f[m.zero] + f[m.one] <= Cost(f, len)
  {
    var a, b := m.zero, m.one;
    var l, x, y;
    l, n', x, y := LongestPair(f, len, n, a, b);
    var x', y' := if y == a || x == b then y else x, if y == a || x == b then x else y;
    var l1 := Exchange(f, l, n', a, x');
    var l2 := Exchange(f, l1, n', b, y');
    len' := MergeSiblings(f, l2, n', m);
  }

  // ---- whole runs -------------------------------------------------------------------------------

  /** What all merges of a run put together: the weight of every internal node. */
  ghost function MergeCost(f: Freq, ms: seq<Merge>): nat
    requires Run(f, ms)
  {
    if ms == [] then 0
    else
      var g := After(f, Init(ms));
      MergeCost(f, Init(ms)) + g[Last(ms).zero] + g[Last(ms).one]
  }

  lemma RunStep(f: Freq, ms: seq<Merge>, i: nat, i': nat)
    requires Run(f, ms) && i < |ms| && i' == i + 1
    ensures Run(f, ms[..i]) && Run(f, ms[..i'])
    ensures Mergeable(After(f, ms[..i]), ms[i])
    ensures After(f, ms[..i']) == Apply(After(f, ms[..i]), ms[i])
    ensures MergeCost(f, ms[..i'])
         == MergeCost(f, ms[..i]) + After(f, ms[..i])[ms[i].zero] + After(f, ms[..i])[ms[i].one]
  {
    RunPrefix(f, ms, i');
    assert Init(ms[..i']) == ms[..i] && Last(ms[..i']) == ms[i];
  }

  lemma {:induction false} LowerBound(f: Freq, ms: seq<Merge>, len: seq<nat>, n: nat) returns (len': seq<nat>, n': nat)
    requires Run(f, ms) && Feasible(f, len, n)
    ensures Feasible(After(f, ms), len', n')
    ensures Cost(After(f, ms), len') + MergeCost(f, ms) <= Cost(f, len)
  {
    if ms == [] {
      len', n' := len, n;
    } else {
      len', n' := LowerBound(f, Init(ms), len, n);
      len', n' := MergeStep(After(f, Init(ms)), len', n', Last(ms));
    }
  }

  lemma CostNonNegative(f: Freq, len: seq<nat>)
    requires |f| == |len|
    ensures Cost(f, len) >= 0
  {
    var z := seq(|f|, _ => 0);
    SumZero(z);
    forall k | 0 <= k < |f|
      ensures 0 <= f[k] * len[k]
    {
    }
    SumMonotone(z, CostTerms(f, len));
  }

  predicate Mergeable(f: Freq, m: Merge) {
    m.zero < |f| && m.one < |f| && m.zero != m.one && f[m.zero] > 0 && f[m.one] > 0
  }

  /** Undoing one merge keeps the Kraft sum and costs the weight of the merged node. */
  lemma UndoMerge(g: Freq, h: Freq, m: Merge, d: seq<nat>, j: nat)
    requires |g| == j < |d| && Mergeable(g, m) && h == Apply(g, m)
    requires d[m.zero] == d[m.one] == d[j] + 1
    ensures Cost(g, d[..j]) == Cost(h, d[..j + 1]) + g[m.zero] + g[m.one]
    ensures forall n :: n > d[j] ==> Kraft(g, d[..j], n) == Kraft(h, d[..j + 1], n)
  {
    assert d[..j + 1] == d[..j] + [d[j]];
    CostAfterMerge(g, d[..j], m, d[j]);
    OneLevel(g[m.zero], g[m.one], d[j]);
    forall n | n > d[j]
      ensures Kraft(g, d[..j], n) == Kraft(h, d[..j + 1], n)
    {
      KraftAfterMerge(g, d[..j], n, m, d[j]);
    }
  }

  lemma {:induction false} DepthBelow(up: seq<int>, k: nat)
    requires Forest(up) && k < |up|
    ensures Depth(up, k) < |up| - k
    decreases |up| - k
  {
    if up[k] != ROOT {
      DepthBelow(up, up[k]);
    }
  }

  /** Table g has the cost and Kraft sums of table f under the depths d, but for the amount c. */
  ghost predicate SameUpTo(f: Freq, g: Freq, d: seq<nat>, c: int) {
    && |f| <= |g| <= |d|
    && Cost(f, d[..|f|]) == Cost(g, d[..|g|]) + c
    && forall n :: n >= |d| ==> Kraft(f, d[..|f|], n) == Kraft(g, d[..|g|], n)
  }

  lemma SameAfterMerge(f: Freq, g: Freq, m: Merge, d: seq<nat>, c: int)
    requires SameUpTo(f, g, d, c) && |g| < |d| && Mergeable(g, m)
    requires Level(d, m, |g|)
    ensures SameUpTo(f, Apply(g, m), d, c + g[m.zero] + g[m.one])
  {
    UndoMerge(g, Apply(g, m), m, d, |g|);
  }

  /** d puts the two children of every merge one level below the node it created. */
  ghost predicate Levels(n: nat, ms: seq<Merge>, d: seq<nat>) {
    && |d| == n + |ms|
    && forall i :: 0 <= i < |ms| ==> Level(d, ms[i], n + i)
  }

  predicate Level(d: seq<nat>, m: Merge, j: nat) {
    m.zero < j < |d| && m.one < j && d[m.zero] == d[j] + 1 && d[m.one] == d[j] + 1 && d[j] < |d|
  }

  lemma LevelAt(n: nat, ms: seq<Merge>, d: seq<nat>, i: nat, j: nat)
    requires Levels(n, ms, d) && i < |ms| && j == n + i
    ensures Level(d, ms[i], j)
  {
  }

  lemma DepthsAreLevels(f: Freq, ms: seq<Merge>)
    requires Run(f, ms) && Forest(Up(f, ms))
    ensures Levels(|f|, ms, Depths(Up(f, ms)))
  {
    var d := Depths(Up(f, ms));
    forall i | 0 <= i < |ms|
      ensures Level(d, ms[i], |f| + i)
    {
      UpStable(f, ms, i);
      DepthBelow(Up(f, ms), |f| + i);
    }
  }

  /** The cost and the Kraft sum of the lengths d, followed from the table f to stage i of a run. */
  lemma {:induction false} StageAll(f: Freq, ms: seq<Merge>, i: nat, d: seq<nat>) returns (g: Freq, c: nat)
    requires Run(f, ms) && i <= |ms| && Levels(|f|, ms, d)
    ensures Run(f, ms[..i]) && g == After(f, ms[..i]) && c == MergeCost(f, ms[..i])
    ensures SameUpTo(f, g, d, c)
  {
    if i == 0 {
      assert ms[..0] == [];
      g, c := f, 0;
    } else {
      var j, m := i - 1, ms[i - 1];
      g, c := StageAll(f, ms, j, d);
      RunStep(f, ms, j, i);
      LevelAt(|f|, ms, d, j, |g|);
      SameAfterMerge(f, g, m, d, c);
      g, c := Apply(g, m), c + g[m.zero] + g[m.one];
    }
  }

  /** The scaled Kraft sum counts the trees that are left. */
  lemma {:induction false} KraftOfRoots(f: Freq, len: seq<nat>, n: nat)
    requires |f| == |len| && forall k :: 0 <= k < |f| && f[k] > 0 ==> len[k] == 0
    ensures Kraft(f, len, n) == LiveCount(f) * Pow2(n)
  {
    SumScale(KraftTerms(f, len, n), LiveFlags(f), Pow2(n));
  }

  /** The lengths a run of merges gives to the symbols. */
  ghost function RunLengths(f: Freq, ms: seq<Merge>): (len: seq<nat>)
    requires Run(f, ms)
    ensures |len| == |f|
  {
    RunForest(f, ms);
    Depths(Up(f, ms))[..|f|]
  }

  lemma CostOfRoots(f: Freq, len: seq<nat>)
    requires |f| == |len| && forall k :: 0 <= k < |f| && f[k] > 0 ==> len[k] == 0
    ensures Cost(f, len) == 0
  {
    SumZero(CostTerms(f, len));
  }

  /** At the end of a run the roots are the live nodes, at depth 0. */
  lemma FinalStage(f: Freq, ms: seq<Merge>)
    requires Run(f, ms)
    ensures Cost(f, RunLengths(f, ms)) == MergeCost(f, ms)
    ensures forall n :: n >= |f| + |ms| ==> Kraft(f, RunLengths(f, ms), n) == LiveCount(After(f, ms)) * Pow2(n)
  {
    RootsAreLive(f, ms);
    var g, d := After(f, ms), Depths(Up(f, ms));
    DepthsAreLevels(f, ms);
    var g', c := StageAll(f, ms, |ms|, d);
    assert ms[..|ms|] == ms;
    assert d[..|g|] == d;
    CostOfRoots(g, d);
    forall n | n >= |f| + |ms|
      ensures Kraft(f, RunLengths(f, ms), n) == LiveCount(g) * Pow2(n)
    {
      KraftOfRoots(g, d, n);
    }
  }

  /**
    Optimality: whatever prefix code one chooses for the symbols that occur, it spends at least as
    many bits as the lengths of the run.
   */
  lemma Optimal(f: Freq, ms: seq<Merge>, code: seq<seq<nat>>)
    requires Run(f, ms) && PrefixCode(f, code)
    ensures Cost(f, RunLengths(f, ms)) <= Cost(f, Lengths(code))
  {
    var n := Longest(code);
    KraftInequality(f, code, n);
    var len, n' := LowerBound(f, ms, Lengths(code), n);
    CostNonNegative(After(f, ms), len);
    FinalStage(f, ms);
  }

  lemma {:induction false} Longest(code: seq<seq<nat>>) returns (n: nat)
    ensures forall k :: 0 <= k < |code| ==> |code[k]| <= n
  {
    if code == [] {
      n := 0;
    } else {
      n := Longest(Init(code));
      n := if |Last(code)| > n then |Last(code)| else n;
    }
  }
}
