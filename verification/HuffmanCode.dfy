/**
  The code that a Huffman run gives to the symbols: it is a complete prefix code exactly when one
  root is left, and no codeword is longer than the Fibonacci bound allows.
 */
module HuffmanCode {
  import opened Sums
  import opened HuffmanTree
  import opened HuffmanOptimal

  // ---- siblings and ancestors ------------------------------------------------------------------

  /** A parent together with a flag determines the child. */
  lemma ChildUnique(f: Freq, ms: seq<Merge>, flag: seq<nat>, k: nat, l: nat)
    requires Run(f, ms) && Flags(f, ms, flag) && k < |f| + |ms| && l < |f| + |ms|
    requires Up(f, ms)[k] == Up(f, ms)[l] != ROOT && flag[k] == flag[l]
    ensures k == l
  {
    var i := ParentMerge(f, ms, k);
    var j := ParentMerge(f, ms, l);
    assert i == j;
  }

  /** A parent is a node of the tree above all symbols, and so are all flags bits. */
  lemma ParentFacts(f: Freq, ms: seq<Merge>, flag: seq<nat>, k: nat)
    requires Run(f, ms) && Flags(f, ms, flag) && k < |f| + |ms| && Up(f, ms)[k] != ROOT
    ensures |f| <= Up(f, ms)[k] < |f| + |ms| && k < Up(f, ms)[k]
    ensures Node(f, k) && flag[k] < 2
  {
    var i := ParentMerge(f, ms, k);
    RootsAreLive(f, ms);
  }

  /** One live node is left at the end. */
  ghost predicate OneRoot(f: Freq, ms: seq<Merge>)
    requires Run(f, ms)
  {
    LiveCount(After(f, ms)) == 1
  }

  lemma RootUnique(f: Freq, ms: seq<Merge>, k: nat, l: nat)
    requires Run(f, ms) && OneRoot(f, ms) && k < |f| + |ms| && l < |f| + |ms|
    requires Node(f, k) && Node(f, l) && Up(f, ms)[k] == ROOT && Up(f, ms)[l] == ROOT
    ensures k == l
  {
    RootsAreLive(f, ms);
    LiveCountAtMostOne(After(f, ms));
  }

  /** Different nodes have different paths from the root. */
  lemma {:induction false} CodeInjective(f: Freq, ms: seq<Merge>, flag: seq<nat>, k: nat, l: nat)
    requires Run(f, ms) && Flags(f, ms, flag) && OneRoot(f, ms) && Forest(Up(f, ms))
    requires k < |f| + |ms| && l < |f| + |ms| && Node(f, k) && Node(f, l)
    requires Code(Up(f, ms), flag, k) == Code(Up(f, ms), flag, l)
    ensures k == l
    decreases |f| + |ms| - k
  {
    var up := Up(f, ms);
    if up[k] == ROOT {
      RootUnique(f, ms, k, l);
    } else {
      ParentFacts(f, ms, flag, k);
      ParentFacts(f, ms, flag, l);
      var c, d := Code(up, flag, up[k]), Code(up, flag, up[l]);
      assert Code(up, flag, k)[..|c|] == c && Code(up, flag, l)[..|d|] == d;
      assert Code(up, flag, k)[|c|] == flag[k] && Code(up, flag, l)[|d|] == flag[l];
      CodeInjective(f, ms, flag, up[k], up[l]);
      ChildUnique(f, ms, flag, k, l);
    }
  }

  /** Every proper prefix of a node's path is the path of an internal node. */
  lemma {:induction false} AncestorAt(f: Freq, ms: seq<Merge>, flag: seq<nat>, k: nat, n: nat) returns (a: nat)
    requires Run(f, ms) && Flags(f, ms, flag) && Forest(Up(f, ms)) && k < |f| + |ms|
    requires n < |Code(Up(f, ms), flag, k)|
    ensures |f| <= a < |f| + |ms|
    ensures Code(Up(f, ms), flag, a) == Code(Up(f, ms), flag, k)[..n]
    decreases |f| + |ms| - k
  {
    var up := Up(f, ms);
    ParentFacts(f, ms, flag, k);
    var c := Code(up, flag, up[k]);
    assert Code(up, flag, k) == c + [flag[k]];
    if n == |c| {
      a := up[k];
    } else {
      a := AncestorAt(f, ms, flag, up[k], n);
      assert (c + [flag[k]])[..n] == c[..n];
    }
  }

  lemma {:induction false} CodeBits(f: Freq, ms: seq<Merge>, flag: seq<nat>, k: nat)
    requires Run(f, ms) && Flags(f, ms, flag) && Forest(Up(f, ms)) && k < |f| + |ms|
    ensures forall i :: 0 <= i < |Code(Up(f, ms), flag, k)| ==> Code(Up(f, ms), flag, k)[i] < 2
    decreases |f| + |ms| - k
  {
    if Up(f, ms)[k] != ROOT {
      ParentFacts(f, ms, flag, k);
      CodeBits(f, ms, flag, Up(f, ms)[k]);
    }
  }

  /** The codewords of the symbols. */
  ghost function Codes(f: Freq, ms: seq<Merge>, flag: seq<nat>): (code: seq<seq<nat>>)
    requires Run(f, ms) && |flag| == |f| + |ms|
    ensures |code| == |f|
    ensures Lengths(code) == RunLengths(f, ms)
  {
    RunForest(f, ms);
    seq(|f|, k requires 0 <= k < |f| => Code(Up(f, ms), flag, k))
  }

  lemma OneRootGivesPrefixCode(f: Freq, ms: seq<Merge>, flag: seq<nat>)
    requires Run(f, ms) && Flags(f, ms, flag) && OneRoot(f, ms)
    ensures PrefixCode(f, Codes(f, ms, flag))
  {
    RunForest(f, ms);
    var code := Codes(f, ms, flag);
    forall k, i | 0 <= k < |f| && f[k] > 0 && 0 <= i < |code[k]|
      ensures code[k][i] < 2
    {
      CodeBits(f, ms, flag, k);
    }
    forall k, l | 0 <= k < |f| && 0 <= l < |f| && k != l && f[k] > 0 && f[l] > 0
      ensures !IsPrefix(code[k], code[l])
    {
      if IsPrefix(code[k], code[l]) {
        var a := l;
        if |code[k]| < |code[l]| {
          a := AncestorAt(f, ms, flag, l, |code[k]|);
        } else {
          assert code[l][..|code[k]|] == code[l];
        }
        CodeInjective(f, ms, flag, k, a);
      }
    }
  }

  lemma RunLengthsFit(f: Freq, ms: seq<Merge>)
    requires Run(f, ms)
    ensures Fits(f, RunLengths(f, ms), |f| + |ms|)
  {
    RunForest(f, ms);
    forall k | 0 <= k < |f|
      ensures RunLengths(f, ms)[k] <= |f| + |ms|
    {
      DepthBelow(Up(f, ms), k);
    }
  }

  /** The scaled Kraft sum of the codewords counts the roots. */
  lemma KraftOfCodes(f: Freq, ms: seq<Merge>, flag: seq<nat>, n: nat)
    requires Run(f, ms) && |flag| == |f| + |ms| && n == |f| + |ms|
    ensures Kraft(f, Lengths(Codes(f, ms, flag)), n) == LiveCount(After(f, ms)) * Pow2(n)
  {
    FinalStage(f, ms);
    assert Lengths(Codes(f, ms, flag)) == RunLengths(f, ms);
  }

  lemma KraftOfPrefixCode(f: Freq, ms: seq<Merge>, flag: seq<nat>, n: nat)
    requires Run(f, ms) && |flag| == |f| + |ms| && n == |f| + |ms|
    requires PrefixCode(f, Codes(f, ms, flag))
    ensures Kraft(f, Lengths(Codes(f, ms, flag)), n) <= Pow2(n)
  {
    RunLengthsFit(f, ms);
    assert Lengths(Codes(f, ms, flag)) == RunLengths(f, ms);
    KraftInequality(f, Codes(f, ms, flag), n);
  }

  /** Without a single root the Kraft sum is the number of roots, which no prefix code allows. */
  lemma PrefixCodeGivesOneRoot(f: Freq, ms: seq<Merge>, flag: seq<nat>)
    requires Run(f, ms) && |flag| == |f| + |ms| && LiveCount(f) >= 1
    requires PrefixCode(f, Codes(f, ms, flag))
    ensures OneRoot(f, ms)
  {
    var n := |f| + |ms|;
    KraftOfCodes(f, ms, flag, n);
    KraftOfPrefixCode(f, ms, flag, n);
    RootsRemain(f, ms);
    OneRootOfKraft(LiveCount(After(f, ms)), Pow2(n));
  }

  /** Merging never removes the last live node. */
  lemma {:induction false} RootsRemain(f: Freq, ms: seq<Merge>)
    requires Run(f, ms) && LiveCount(f) >= 1
    ensures LiveCount(After(f, ms)) >= 1
  {
    if ms != [] {
      LiveCountAtMostOne(After(f, ms));
      assert After(f, ms)[|f| + |ms| - 1] > 0;
    }
  }

  /** Complete prefix code: prefix-free with Kraft sum 1, exactly when the run ended with one root. */
  lemma CompletePrefixCode(f: Freq, ms: seq<Merge>, flag: seq<nat>)
    requires Run(f, ms) && Flags(f, ms, flag) && LiveCount(f) >= 1
    ensures OneRoot(f, ms) <==> PrefixCode(f, Codes(f, ms, flag))
    ensures OneRoot(f, ms) <==>
              forall n :: n >= |f| + |ms| ==> Kraft(f, Lengths(Codes(f, ms, flag)), n) == Pow2(n)
  {
    FinalStage(f, ms);
    if OneRoot(f, ms) {
      OneRootGivesPrefixCode(f, ms, flag);
    }
    if PrefixCode(f, Codes(f, ms, flag)) {
      PrefixCodeGivesOneRoot(f, ms, flag);
    }
    var n := |f| + |ms|;
    if Kraft(f, RunLengths(f, ms), n) == Pow2(n) {
      OneRootOfKraft(LiveCount(After(f, ms)), Pow2(n));
    }
  }

  lemma OneRootOfKraft(roots: int, scale: nat)
    requires scale >= 1
    ensures roots >= 2 ==> roots * scale > scale
    ensures roots <= 0 ==> roots * scale <= 0
  {
  }

  // ---- the Fibonacci bound ---------------------------------------------------------------------

  /** No consumed node weighs more than a live one. */
  ghost predicate ConsumedBelowLive(f: Freq, ms: seq<Merge>)
    requires Run(f, ms)
  {
    forall x, y :: 0 <= x < |f| + |ms| && 0 <= y < |f| + |ms| && Up(f, ms)[x] != ROOT && After(f, ms)[y] > 0 ==>
      Weights(f, ms)[x] <= Weights(f, ms)[y]
  }

  lemma {:induction false} ConsumedStayBelow(f: Freq, ms: seq<Merge>)
    requires Run(f, ms)
    ensures ConsumedBelowLive(f, ms)
  {
    if ms != [] {
      ConsumedStayBelow(f, Init(ms));
      RootsAreLive(f, Init(ms));
    }
  }

  /** A parent outweighs its child; a grandparent weighs at least its child and grandchild together. */
  ghost predicate GrowsAt(up: seq<int>, w: Freq, x: nat)
    requires |up| == |w| && Forest(up) && x < |up|
  {
    up[x] != ROOT ==>
      && w[up[x]] > w[x] >= 1
      && (up[up[x]] != ROOT ==> w[up[up[x]]] >= w[up[x]] + w[x])
  }

  ghost predicate Growth(up: seq<int>, w: Freq)
    requires |up| == |w| && Forest(up)
  {
    forall x :: 0 <= x < |up| ==> GrowsAt(up, w, x)
  }

  /** The two nodes of a merge, under the new one. */
  lemma MergedGrow(f: Freq, ms: seq<Merge>, x: nat)
    requires Run(f, ms) && ms != [] && Forest(Up(f, ms)) && (x == Last(ms).zero || x == Last(ms).one)
    ensures GrowsAt(Up(f, ms), Weights(f, ms), x)
  {
    RootsAreLive(f, Init(ms));
  }

  /** A node that had a parent; its parent may be one of the two. */
  lemma OthersGrow(f: Freq, ms: seq<Merge>, x: nat)
    requires Run(f, ms) && ms != [] && Forest(Up(f, ms)) && Forest(Up(f, Init(ms)))
    requires x < |f| + |ms| - 1 && Up(f, Init(ms))[x] != ROOT
    requires GrowsAt(Up(f, Init(ms)), Weights(f, Init(ms)), x)
    ensures GrowsAt(Up(f, ms), Weights(f, ms), x)
  {
    var before := Init(ms);
    var p := Up(f, before)[x];
    RootsAreLive(f, before);
    UpKept(f, ms, x);
    if p == Last(ms).zero || p == Last(ms).one {
      ConsumedStayBelow(f, before);
    } else {
      assert Up(f, ms)[p] == Up(f, before)[p];
    }
  }

  lemma {:induction false} WeightsGrow(f: Freq, ms: seq<Merge>)
    requires Run(f, ms) && Forest(Up(f, ms))
    ensures Growth(Up(f, ms), Weights(f, ms))
  {
    if ms != [] {
      RunForest(f, Init(ms));
      WeightsGrow(f, Init(ms));
      forall x | 0 <= x < |f| + |ms| ensures GrowsAt(Up(f, ms), Weights(f, ms), x) {
        if x == Last(ms).zero || x == Last(ms).one {
          MergedGrow(f, ms, x);
        } else if x < |f| + |ms| - 1 && Up(f, Init(ms))[x] != ROOT {
          OthersGrow(f, ms, x);
        }
      }
    }
  }

  /** The node d steps above k. */
  ghost function Above(up: seq<int>, k: nat, d: nat): (a: nat)
    requires Forest(up) && k < |up| && d <= Depth(up, k)
    ensures a < |up| && Depth(up, a) == Depth(up, k) - d
  {
    if d == 0 then k else up[Above(up, k, d - 1)]
  }

  /** d levels up the tree the weight is at least the Fibonacci number F(d + 2). */
  lemma {:induction false} FibonacciGrowth(up: seq<int>, w: Freq, k: nat, d: nat)
    requires |up| == |w| && Forest(up) && Growth(up, w) && k < |up| && w[k] >= 1 && d <= Depth(up, k)
    ensures w[Above(up, k, d)] >= Fib(d + 2)
  {
    if d == 1 {
      assert Above(up, k, 1) == up[Above(up, k, 0)] && GrowsAt(up, w, k);
    } else if d >= 2 {
      FibonacciGrowth(up, w, k, d - 1);
      FibonacciGrowth(up, w, k, d - 2);
      assert Above(up, k, d - 1) == up[Above(up, k, d - 2)];
      assert GrowsAt(up, w, Above(up, k, d - 2));
    }
  }

  lemma RootWeight(f: Freq, ms: seq<Merge>, r: nat)
    requires Run(f, ms) && r < |f| + |ms| && Node(f, r) && Up(f, ms)[r] == ROOT
    ensures Weights(f, ms)[r] <= Sum(f)
  {
    RootsAreLive(f, ms);
    TotalKept(f, ms);
    SumAtLeast(After(f, ms), r);
  }

  /** A codeword of length d needs a total weight of at least F(d + 2). */
  lemma DepthNeedsWeight(f: Freq, ms: seq<Merge>, k: nat)
    requires Run(f, ms) && k < |f| && f[k] > 0
    ensures Fib(RunLengths(f, ms)[k] + 2) <= Sum(f)
  {
    RunForest(f, ms);
    var up := Up(f, ms);
    WeightsGrow(f, ms);
    SymbolWeight(f, ms, k);
    var d := Depth(up, k);
    FibonacciGrowth(up, Weights(f, ms), k, d);
    var r := Above(up, k, d);
    assert Depth(up, r) == 0;
    AboveIsNode(f, ms, k, d);
    RootWeight(f, ms, r);
  }

  lemma {:induction false} SymbolWeight(f: Freq, ms: seq<Merge>, k: nat)
    requires Run(f, ms) && k < |f|
    ensures Weights(f, ms)[k] == f[k]
  {
    if ms != [] {
      SymbolWeight(f, Init(ms), k);
    }
  }

  lemma {:induction false} AboveIsNode(f: Freq, ms: seq<Merge>, k: nat, d: nat)
    requires Run(f, ms) && Forest(Up(f, ms)) && k < |f| && f[k] > 0 && d <= Depth(Up(f, ms), k)
    ensures Node(f, Above(Up(f, ms), k, d))
  {
    if d > 0 {
      RootsAreLive(f, ms);
    }
  }
}
