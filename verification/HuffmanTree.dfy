/**
  The tree that read_huffman_tables builds over flat tables: what a merge selects, what a run of
  merges leaves in the frequency, parent and flag tables, and the shape those tables always have.

  Nodes are indices. The first |f| nodes are the symbols; merge number i creates node |f| + i.
  A node is live while its frequency is nonzero.
 */
module HuffmanTree {
  import opened Sums

  type Freq = seq<nat>

  /** One merge: the node that gets flag 0 and the node that gets flag 1. */
  datatype Merge = Merge(zero: nat, one: nat)

  const ROOT := -1

  // ---- selection -------------------------------------------------------------------------------

  /** Node a comes before node b by (frequency, index). */
  predicate Before(f: Freq, a: nat, b: nat)
    requires a < |f| && b < |f|
  {
    f[a] < f[b] || (f[a] == f[b] && a < b)
  }

  /** a and b are, in this order, the two live nodes least by (frequency, index). */
  ghost predicate LeastTwo(f: Freq, a: nat, b: nat) {
    && a < |f| && b < |f| && f[a] > 0 && f[b] > 0
    && Before(f, a, b)
    && forall k :: 0 <= k < |f| && f[k] > 0 && k != a && k != b ==> Before(f, b, k)
  }

  lemma LeastTwoUnique(f: Freq, a: nat, b: nat, a': nat, b': nat)
    requires LeastTwo(f, a, b) && LeastTwo(f, a', b')
    ensures a == a' && b == b'
  {
  }

  // ---- runs ------------------------------------------------------------------------------------

  function Apply(f: Freq, m: Merge): Freq
    requires m.zero < |f| && m.one < |f|
  {
    f[m.zero := 0][m.one := 0] + [f[m.zero] + f[m.one]]
  }

  function Last<T>(s: seq<T>): T
    requires s != []
  {
    s[|s| - 1]
  }

  function Init<T>(s: seq<T>): seq<T>
    requires s != []
  {
    s[..|s| - 1]
  }

  /** Every merge of ms took the two least live nodes of the table that the merges before it left. */
  ghost predicate Run(f: Freq, ms: seq<Merge>)
    decreases |ms|, 0
  {
    ms == [] || (Run(f, Init(ms)) && LeastTwo(After(f, Init(ms)), Last(ms).zero, Last(ms).one))
  }

  /** The frequency table after the merges ms. */
  ghost function After(f: Freq, ms: seq<Merge>): (g: Freq)
    requires Run(f, ms)
    ensures |g| == |f| + |ms|
    decreases |ms|, 1
  {
    if ms == [] then f else Apply(After(f, Init(ms)), Last(ms))
  }

  /** The parent table after the merges ms over n symbols. */
  ghost function Up(f: Freq, ms: seq<Merge>): (up: seq<int>)
    requires Run(f, ms)
    ensures |up| == |f| + |ms|
  {
    if ms == [] then seq(|f|, _ => ROOT)
    else
      var up, j := Up(f, Init(ms)), |f| + |ms| - 1;
      up[Last(ms).zero := j][Last(ms).one := j] + [ROOT]
  }

  /** Every node's weight at the moment it came into being. */
  ghost function Weights(f: Freq, ms: seq<Merge>): (w: Freq)
    requires Run(f, ms)
    ensures |w| == |f| + |ms|
  {
    if ms == [] then f
    else
      var g := After(f, Init(ms));
      Weights(f, Init(ms)) + [g[Last(ms).zero] + g[Last(ms).one]]
  }

  /** The nodes of the tree: all internal nodes, and the symbols that occur. */
  predicate Node(f: Freq, k: nat) {
    k >= |f| || f[k] > 0
  }

  lemma RunPrefix(f: Freq, ms: seq<Merge>, i: nat)
    requires Run(f, ms) && i <= |ms|
    ensures Run(f, ms[..i])
  {
    if i < |ms| {
      RunPrefix(f, Init(ms), i);
      assert Init(ms)[..i] == ms[..i];
    } else {
      assert ms[..i] == ms;
    }
  }

  /** The rule of selection leaves no choice, so equally long runs from one table are equal. */
  lemma {:induction false} RunUnique(f: Freq, ms: seq<Merge>, ms': seq<Merge>)
    requires Run(f, ms) && Run(f, ms') && |ms| == |ms'|
    ensures ms == ms'
  {
    if ms != [] {
      RunUnique(f, Init(ms), Init(ms'));
      LeastTwoUnique(After(f, Init(ms)), Last(ms).zero, Last(ms).one, Last(ms').zero, Last(ms').one);
      assert ms == Init(ms) + [Last(ms)] && ms' == Init(ms') + [Last(ms')];
    }
  }

  // ---- what every run keeps --------------------------------------------------------------------

  /** The total weight never changes. */
  lemma {:induction false} TotalKept(f: Freq, ms: seq<Merge>)
    requires Run(f, ms)
    ensures Sum(After(f, ms)) == Sum(f)
  {
    if ms != [] {
      TotalKept(f, Init(ms));
      var g, m := After(f, Init(ms)), Last(ms);
      SumUpdateTwo(g, m.zero, 0, m.one, 0);
      SumAppend(g[m.zero := 0][m.one := 0], g[m.zero] + g[m.one]);
    }
  }

  function LiveFlags(f: Freq): (s: seq<int>)
    ensures |s| == |f|
  {
    seq(|f|, i requires 0 <= i < |f| => if f[i] > 0 then 1 else 0)
  }

  /** How many nodes are live. */
  function LiveCount(f: Freq): int {
    Sum(LiveFlags(f))
  }

  /** Each merge makes one live node out of two. */
  lemma {:induction false} LiveCountDrops(f: Freq, ms: seq<Merge>)
    requires Run(f, ms)
    ensures LiveCount(After(f, ms)) == LiveCount(f) - |ms|
  {
    if ms != [] {
      LiveCountDrops(f, Init(ms));
      var g, m := After(f, Init(ms)), Last(ms);
      var s := LiveFlags(g);
      SumUpdateTwo(s, m.zero, 0, m.one, 0);
      SumAppend(s[m.zero := 0][m.one := 0], 1);
      assert LiveFlags(After(f, ms)) == s[m.zero := 0][m.one := 0] + [1];
    }
  }

  lemma LiveCountOne(f: Freq, a: nat)
    requires a < |f| && f[a] > 0
    requires forall k :: 0 <= k < |f| && f[k] > 0 ==> k == a
    ensures LiveCount(f) == 1
  {
    var s := LiveFlags(f);
    SumUpdate(s, a, 0);
    SumZero(s[a := 0]);
  }

  /** Fewer than two live nodes is the same as no two distinct live nodes. */
  lemma LiveCountAtMostOne(f: Freq)
    ensures LiveCount(f) >= 0
    ensures LiveCount(f) <= 1 <==> forall a, b :: 0 <= a < b < |f| && f[a] > 0 ==> f[b] == 0
    ensures LiveCount(f) == 0 <==> forall a :: 0 <= a < |f| ==> f[a] == 0
  {
    var s := LiveFlags(f);
    var z := seq(|f|, _ => 0);
    SumZero(z);
    SumMonotone(z, s);
    if a, b :| 0 <= a < b < |f| && f[a] > 0 && f[b] > 0 {
      SumAtLeastTwo(s, a, b);
    } else if a :| 0 <= a < |f| && f[a] > 0 {
      LiveCountOne(f, a);
    } else {
      SumZero(s);
    }
  }

  /**
    The roots of the tree are exactly the live nodes, a live node has the weight it was created
    with, and every parent is a later, internal node.
   */
  lemma {:induction false} RootsAreLive(f: Freq, ms: seq<Merge>)
    requires Run(f, ms)
    ensures forall k :: 0 <= k < |f| + |ms| ==>
              (After(f, ms)[k] > 0 <==> Up(f, ms)[k] == ROOT && Node(f, k))
    ensures forall k :: 0 <= k < |f| + |ms| && After(f, ms)[k] > 0 ==> After(f, ms)[k] == Weights(f, ms)[k]
    ensures forall k :: 0 <= k < |f| + |ms| && Up(f, ms)[k] != ROOT ==>
              Node(f, k) && |f| <= Up(f, ms)[k] && k < Up(f, ms)[k] < |f| + |ms|
  {
    if ms != [] {
      RootsAreLive(f, Init(ms));
    }
  }

  /** A node that has a parent is not live any more, so one more merge leaves its parent alone. */
  lemma UpKept(f: Freq, ms: seq<Merge>, k: nat)
    requires Run(f, ms) && ms != [] && k < |f| + |ms| - 1 && Up(f, Init(ms))[k] != ROOT
    ensures Up(f, ms)[k] == Up(f, Init(ms))[k]
  {
    RootsAreLive(f, Init(ms));
  }

  /** Once a node has a parent, later merges leave both alone. */
  lemma {:induction false} UpStable(f: Freq, ms: seq<Merge>, i: nat)
    requires Run(f, ms) && i < |ms|
    ensures Run(f, ms[..i])
    ensures ms[i].zero < |f| + i && ms[i].one < |f| + i
    ensures LeastTwo(After(f, ms[..i]), ms[i].zero, ms[i].one)
    ensures Up(f, ms)[ms[i].zero] == Up(f, ms)[ms[i].one] == |f| + i
  {
    assert ms[..|ms| - 1] == Init(ms);
    if i < |ms| - 1 {
      UpStable(f, Init(ms), i);
      assert Init(ms)[..i] == ms[..i];
      UpKept(f, ms, ms[i].zero);
      UpKept(f, ms, ms[i].one);
    }
  }

  /** Which merge a node took part in. */
  lemma {:induction false} ParentMerge(f: Freq, ms: seq<Merge>, k: nat) returns (i: nat)
    requires Run(f, ms) && k < |f| + |ms| && Up(f, ms)[k] != ROOT
    ensures i < |ms| && Up(f, ms)[k] == |f| + i && (k == ms[i].zero || k == ms[i].one)
  {
    if k < |f| + |ms| - 1 && Up(f, Init(ms))[k] != ROOT {
      i := ParentMerge(f, Init(ms), k);
      UpKept(f, ms, k);
    } else {
      i := |ms| - 1;
    }
  }

  // ---- codes -----------------------------------------------------------------------------------

  /** Parents come later than their children, so every walk upwards ends. */
  ghost predicate Forest(up: seq<int>) {
    forall k :: 0 <= k < |up| && up[k] != ROOT ==> k < up[k] < |up|
  }

  ghost function Depth(up: seq<int>, k: nat): nat
    requires Forest(up) && k < |up|
    decreases |up| - k
  {
    if up[k] == ROOT then 0 else 1 + Depth(up, up[k])
  }

  /** The path from the root to node k: its codeword, first bit first. */
  ghost function Code(up: seq<int>, flag: seq<nat>, k: nat): (c: seq<nat>)
    requires Forest(up) && |flag| == |up| && k < |up|
    ensures |c| == Depth(up, k)
    decreases |up| - k
  {
    if up[k] == ROOT then [] else Code(up, flag, up[k]) + [flag[k]]
  }

  ghost function Depths(up: seq<int>): (d: seq<nat>)
    requires Forest(up)
    ensures |d| == |up| && forall k :: 0 <= k < |up| ==> d[k] == Depth(up, k)
  {
    seq(|up|, k requires 0 <= k < |up| => Depth(up, k))
  }

  /** A flag table that agrees with the merges: 0 and 1 on the two children of each internal node. */
  ghost predicate Flags(f: Freq, ms: seq<Merge>, flag: seq<nat>)
    requires Run(f, ms)
  {
    && |flag| == |f| + |ms|
    && forall i :: 0 <= i < |ms| ==>
         && ms[i].zero < |flag| && flag[ms[i].zero] == 0
         && ms[i].one < |flag| && flag[ms[i].one] == 1
  }

  lemma RunForest(f: Freq, ms: seq<Merge>)
    requires Run(f, ms)
    ensures Forest(Up(f, ms))
  {
    RootsAreLive(f, ms);
  }
}
