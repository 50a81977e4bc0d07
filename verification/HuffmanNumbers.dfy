/**
  The codewords as numbers, which is all that a caller of read_huffman_tables gets to see: lengths and
  bits, the first bit most significant. What is said here is said of these numbers and of the
  frequencies alone.
 */
module HuffmanNumbers {
  import opened Sums
  import opened HuffmanTree
  import opened HuffmanOptimal
  import opened HuffmanCode

  // ---- bit strings and numbers -----------------------------------------------------------------

  /** The value of a bit string, first bit most significant. */
  function Value(c: seq<nat>): nat {
    if c == [] then 0 else 2 * Value(Init(c)) + Last(c)
  }

  predicate Bits(c: seq<nat>) {
    forall i :: 0 <= i < |c| ==> c[i] < 2
  }

  lemma {:induction false} ValueBelow(c: seq<nat>)
    requires Bits(c)
    ensures Value(c) < Pow2(|c|)
  {
    if c != [] {
      ValueBelow(Init(c));
    }
  }

  lemma HalveQuotient(v: nat, bit: nat, w: nat, p: nat)
    requires bit < 2 && w == 2 * v + bit && p >= 1
    ensures w / (2 * p) == v / p
  {
    var q, r := v / p, v % p;
    assert v == p * q + r;
    var rest: nat := 2 * r + bit;
    assert w == 2 * p * q + rest && rest < 2 * p;
    QuotientIs(w, 2 * p, q, rest);
  }

  lemma QuotientIs(w: nat, p: nat, q: nat, rest: nat)
    requires p >= 1 && w == p * q + rest && rest < p
    ensures w / p == q
  {
    var a, b := w / p, w % p;
    if a < q {
      MulGap(p, a, q);
    } else if q < a {
      MulGap(p, q, a);
    }
  }

  lemma MulGap(p: nat, a: nat, b: nat)
    requires a < b
    ensures p * a + p <= p * b
  {
    var d: nat := b - a - 1;
    assert p * b == p * a + p + p * d;
  }

  /** Dropping the last bits of a number drops them from the string. */
  lemma {:induction false} ValueOfPrefix(c: seq<nat>, n: nat, cut: nat)
    requires Bits(c) && n + cut == |c|
    ensures Value(c) / Pow2(cut) == Value(c[..n])
  {
    if cut == 0 {
      assert c[..n] == c;
    } else {
      ValueOfPrefix(Init(c), n, cut - 1);
      assert Init(c)[..n] == c[..n];
      HalveQuotient(Value(Init(c)), Last(c), Value(c), Pow2(cut - 1));
    }
  }

  /** Bit strings of one length are told apart by their numbers. */
  lemma {:induction false} ValueInjective(c: seq<nat>, d: seq<nat>)
    requires Bits(c) && Bits(d) && |c| == |d| && Value(c) == Value(d)
    ensures c == d
  {
    if c != [] {
      assert Last(c) == Last(d);
      ValueInjective(Init(c), Init(d));
      assert c == Init(c) + [Last(c)] && d == Init(d) + [Last(d)];
    }
  }

  // ---- prefixes --------------------------------------------------------------------------------

  /** The first n bits of a codeword of so many bits. */
  function Head(len: nat, bits: nat, n: nat): int
    requires n <= len
  {
    bits / Pow2(len - n)
  }

  /** No codeword in use begins another one. */
  predicate PrefixFree(f: Freq, len: seq<nat>, bits: seq<nat>)
    requires |f| == |len| == |bits|
  {
    forall k, l :: 0 <= k < |f| && 0 <= l < |f| && k != l && f[k] > 0 && f[l] > 0 && len[k] <= len[l] ==>
      bits[l] / Pow2(len[l] - len[k]) != bits[k]
  }

  /** The numbers are those of the bit strings. */
  predicate Numbers(code: seq<seq<nat>>, len: seq<nat>, bits: seq<nat>) {
    && |code| == |len| == |bits|
    && forall k :: 0 <= k < |code| ==> Bits(code[k]) && len[k] == |code[k]| && bits[k] == Value(code[k])
  }

  lemma PrefixByNumbers(c: seq<nat>, d: seq<nat>)
    requires Bits(c) && Bits(d) && |c| <= |d|
    ensures Value(d) / Pow2(|d| - |c|) == Value(c) <==> IsPrefix(c, d)
  {
    ValueOfPrefix(d, |c|, |d| - |c|);
    if Value(d[..|c|]) == Value(c) {
      ValueInjective(c, d[..|c|]);
    }
  }

  /** A code is a prefix code exactly when its numbers say so. */
  lemma PrefixFreeIff(f: Freq, code: seq<seq<nat>>, len: seq<nat>, bits: seq<nat>)
    requires |f| == |code| && Numbers(code, len, bits)
    ensures PrefixFree(f, len, bits) <==> PrefixCode(f, code)
  {
    forall k, l | 0 <= k < |f| && 0 <= l < |f| && len[k] <= len[l]
      ensures bits[l] / Pow2(len[l] - len[k]) == bits[k] <==> IsPrefix(code[k], code[l])
    {
      PrefixByNumbers(code[k], code[l]);
    }
    if PrefixFree(f, len, bits) {
      forall k, l | 0 <= k < |f| && 0 <= l < |f| && k != l && f[k] > 0 && f[l] > 0
        ensures !IsPrefix(code[k], code[l])
      {
        assert len[k] <= len[l] ==> bits[l] / Pow2(len[l] - len[k]) != bits[k];
      }
    }
  }

  // ---- subtrees --------------------------------------------------------------------------------

  /** Node s is a, or lies below it. */
  ghost predicate Under(up: seq<int>, s: nat, a: nat)
    requires Forest(up) && s < |up|
    decreases |up| - s
  {
    s == a || (up[s] != ROOT && Under(up, up[s], a))
  }

  lemma {:induction false} RootsApart(up: seq<int>, s: nat, a: nat, b: nat)
    requires Forest(up) && s < |up| && a < |up| && b < |up| && up[a] == ROOT && up[b] == ROOT
    requires Under(up, s, a) && Under(up, s, b)
    ensures a == b
    decreases |up| - s
  {
    if up[s] != ROOT {
      RootsApart(up, up[s], a, b);
    }
  }

  /** A merge changes nothing below the nodes there were. */
  lemma {:induction false} UnderKept(f: Freq, ms: seq<Merge>, s: nat, a: nat)
    requires Run(f, ms) && ms != [] && Forest(Up(f, ms)) && Forest(Up(f, Init(ms)))
    requires s < |f| + |ms| - 1 && a < |f| + |ms| - 1
    ensures Under(Up(f, ms), s, a) <==> Under(Up(f, Init(ms)), s, a)
    decreases |f| + |ms| - s
  {
    var up, up' := Up(f, Init(ms)), Up(f, ms);
    if up[s] != ROOT {
      UpKept(f, ms, s);
      UnderKept(f, ms, up[s], a);
    } else if up'[s] != ROOT {
      assert up'[s] == |f| + |ms| - 1 && up'[up'[s]] == ROOT;
    }
  }

  /** Below the new node lies what lay below its two children. */
  lemma {:induction false} UnderNew(f: Freq, ms: seq<Merge>, s: nat, j: nat)
    requires Run(f, ms) && ms != [] && Forest(Up(f, ms)) && Forest(Up(f, Init(ms)))
    requires j == |f| + |ms| - 1 && s < j
    ensures Under(Up(f, ms), s, j)
            <==> Under(Up(f, Init(ms)), s, Last(ms).zero) || Under(Up(f, Init(ms)), s, Last(ms).one)
    decreases j - s
  {
    var up, up' := Up(f, Init(ms)), Up(f, ms);
    RootsAreLive(f, Init(ms));
    if up[s] != ROOT {
      UpKept(f, ms, s);
      UnderNew(f, ms, up[s], j);
    } else if up'[s] != ROOT {
      assert up'[s] == j;
    }
  }

  /** The weights of the symbols below a node, and 0 for the others. */
  ghost function Below(f: Freq, up: seq<int>, a: nat): (s: seq<nat>)
    requires Forest(up) && |f| <= |up|
    ensures |s| == |f|
  {
    seq(|f|, k requires 0 <= k < |f| => if Under(up, k, a) then f[k] else 0)
  }

  lemma BelowSymbol(f: Freq, up: seq<int>, a: nat)
    requires Forest(up) && |f| == |up| && a < |f| && forall k :: 0 <= k < |up| ==> up[k] == ROOT
    ensures Sum(Below(f, up, a)) == f[a]
  {
    var s := Below(f, up, a);
    SumUpdate(s, a, 0);
    SumZero(s[a := 0]);
  }

  lemma BelowNew(f: Freq, ms: seq<Merge>, j: nat)
    requires Run(f, ms) && ms != [] && Forest(Up(f, ms)) && Forest(Up(f, Init(ms))) && j == |f| + |ms| - 1
    ensures var up := Up(f, Init(ms));
            Sum(Below(f, Up(f, ms), j)) == Sum(Below(f, up, Last(ms).zero)) + Sum(Below(f, up, Last(ms).one))
  {
    var up, up' := Up(f, Init(ms)), Up(f, ms);
    var s, t, u := Below(f, up', j), Below(f, up, Last(ms).zero), Below(f, up, Last(ms).one);
    RootsAreLive(f, Init(ms));
    forall k | 0 <= k < |f| ensures s[k] == t[k] + u[k] {
      UnderNew(f, ms, k, j);
      if Under(up, k, Last(ms).zero) && Under(up, k, Last(ms).one) {
        RootsApart(up, k, Last(ms).zero, Last(ms).one);
      }
    }
    SumPointwise(s, t, u);
  }

  lemma BelowKept(f: Freq, ms: seq<Merge>, a: nat)
    requires Run(f, ms) && ms != [] && Forest(Up(f, ms)) && Forest(Up(f, Init(ms))) && a < |f| + |ms| - 1
    ensures Below(f, Up(f, ms), a) == Below(f, Up(f, Init(ms)), a)
    ensures Weights(f, ms)[a] == Weights(f, Init(ms))[a]
  {
    forall k | 0 <= k < |f| ensures Under(Up(f, ms), k, a) <==> Under(Up(f, Init(ms)), k, a) {
      UnderKept(f, ms, k, a);
    }
  }

  lemma WeightOfNew(f: Freq, ms: seq<Merge>, j: nat)
    requires Run(f, ms) && ms != [] && j == |f| + |ms| - 1
    ensures Weights(f, ms)[j] == Weights(f, Init(ms))[Last(ms).zero] + Weights(f, Init(ms))[Last(ms).one]
  {
    RootsAreLive(f, Init(ms));
  }

  /** A node weighs what the symbols below it weigh. */
  lemma {:induction false} WeightOfNode(f: Freq, ms: seq<Merge>, a: nat)
    requires Run(f, ms) && Forest(Up(f, ms)) && a < |f| + |ms|
    ensures Weights(f, ms)[a] == Sum(Below(f, Up(f, ms), a))
  {
    if ms == [] {
      BelowSymbol(f, Up(f, ms), a);
    } else {
      RunForest(f, Init(ms));
      if a < |f| + |ms| - 1 {
        WeightOfNode(f, Init(ms), a);
        BelowKept(f, ms, a);
      } else {
        WeightOfNode(f, Init(ms), Last(ms).zero);
        WeightOfNode(f, Init(ms), Last(ms).one);
        BelowNew(f, ms, a);
        WeightOfNew(f, ms, a);
      }
    }
  }

  /** Of the two children of a node the one with bit 0 is the lighter one; of two that weigh the same, the earlier. */
  lemma ZeroChild(f: Freq, ms: seq<Merge>, flag: seq<nat>, a: nat, b: nat)
    requires Run(f, ms) && Flags(f, ms, flag) && Forest(Up(f, ms)) && a < |f| + |ms| && b < |f| + |ms|
    requires Up(f, ms)[a] == Up(f, ms)[b] != ROOT && flag[a] == 0 && flag[b] == 1
    ensures Weights(f, ms)[a] <= Weights(f, ms)[b]
    ensures Weights(f, ms)[a] == Weights(f, ms)[b] ==> a < b
  {
    var i := ParentMerge(f, ms, a);
    var i' := ParentMerge(f, ms, b);
    assert a == ms[i].zero && b == ms[i].one;
    UpStable(f, ms, i);
    RootsAreLive(f, ms[..i]);
    WeightsKept(f, ms, i, a);
    WeightsKept(f, ms, i, b);
  }

  lemma {:induction false} WeightsKept(f: Freq, ms: seq<Merge>, i: nat, k: nat)
    requires Run(f, ms) && i <= |ms| && Run(f, ms[..i]) && k < |f| + i
    ensures Weights(f, ms)[k] == Weights(f, ms[..i])[k]
  {
    if i < |ms| {
      assert Init(ms)[..i] == ms[..i];
      WeightsKept(f, Init(ms), i, k);
    } else {
      assert ms[..i] == ms;
    }
  }

  // ---- the lighter half gets the 0 -------------------------------------------------------------

  /** The codeword of symbol k begins with n bits of this value. */
  predicate Begins(len: seq<nat>, bits: seq<nat>, k: nat, n: nat, v: int)
    requires k < |len| == |bits|
  {
    n <= len[k] && Head(len[k], bits[k], n) == v
  }

  /** The frequencies of the symbols whose codewords begin with n bits of value v. */
  function Group(f: Freq, len: seq<nat>, bits: seq<nat>, n: nat, v: int): (s: seq<nat>)
    requires |f| == |len| == |bits|
    ensures |s| == |f|
  {
    seq(|f|, k requires 0 <= k < |f| => if Begins(len, bits, k, n, v) then f[k] else 0)
  }

  /**
    Wherever codewords part, those that go on with 0 have no greater total weight than those that go
    on with 1. If the totals are equal and the 1 ends a codeword, so does the 0, that of a smaller symbol.
   */
  ghost predicate ZeroIsLighter(f: Freq, len: seq<nat>, bits: seq<nat>)
    requires |f| == |len| == |bits|
  {
    forall k, l, n: nat {:trigger Parts(f, len, bits, k, l, n)} | Parts(f, len, bits, k, l, n) ::
      LighterAt(f, len, bits, k, l, n)
  }

  /** After n - 1 common bits the codeword of k goes on with 0 and that of l with 1. */
  predicate Parts(f: Freq, len: seq<nat>, bits: seq<nat>, k: nat, l: nat, n: nat)
    requires |f| == |len| == |bits|
  {
    && k < |f| && l < |f| && f[k] > 0 && f[l] > 0 && 1 <= n <= len[k] && n <= len[l]
    && Head(len[k], bits[k], n) % 2 == 0 && Head(len[l], bits[l], n) == Head(len[k], bits[k], n) + 1
  }

  predicate LighterAt(f: Freq, len: seq<nat>, bits: seq<nat>, k: nat, l: nat, n: nat)
    requires |f| == |len| == |bits| && k < |f| && l < |f| && n <= len[k] && n <= len[l]
  {
    var zero := Sum(Group(f, len, bits, n, Head(len[k], bits[k], n)));
    var one := Sum(Group(f, len, bits, n, Head(len[l], bits[l], n)));
    zero <= one && (zero == one && len[l] == n ==> len[k] == n && k < l)
  }

  /** The node whose path is the first n bits of a symbol's path. */
  lemma {:induction false} AncestorUnder(f: Freq, ms: seq<Merge>, flag: seq<nat>, k: nat, n: nat) returns (a: nat)
    requires Run(f, ms) && Flags(f, ms, flag) && Forest(Up(f, ms)) && k < |f| + |ms|
    requires n <= |Code(Up(f, ms), flag, k)| && Node(f, k)
    ensures a < |f| + |ms| && Node(f, a) && Under(Up(f, ms), k, a)
    ensures Code(Up(f, ms), flag, a) == Code(Up(f, ms), flag, k)[..n]
    ensures if n == |Code(Up(f, ms), flag, k)| then a == k else a >= |f|
    decreases |f| + |ms| - k
  {
    var up := Up(f, ms);
    var c := Code(up, flag, k);
    if n == |c| {
      a := k;
      assert c[..n] == c;
    } else {
      ParentFacts(f, ms, flag, k);
      var d := Code(up, flag, up[k]);
      assert c == d + [flag[k]] && c[..n] == d[..n];
      a := AncestorUnder(f, ms, flag, up[k], n);
    }
  }

  lemma {:induction false} UnderPrefix(f: Freq, ms: seq<Merge>, flag: seq<nat>, k: nat, a: nat)
    requires Run(f, ms) && Flags(f, ms, flag) && Forest(Up(f, ms)) && k < |f| + |ms| && a < |f| + |ms|
    requires Under(Up(f, ms), k, a)
    ensures IsPrefix(Code(Up(f, ms), flag, a), Code(Up(f, ms), flag, k))
    decreases |f| + |ms| - k
  {
    var up := Up(f, ms);
    if k != a {
      ParentFacts(f, ms, flag, k);
      UnderPrefix(f, ms, flag, up[k], a);
      var c, d := Code(up, flag, a), Code(up, flag, up[k]);
      assert (d + [flag[k]])[..|c|] == d[..|c|];
    }
  }

  /** The symbols below a node are those whose codewords begin with its path. */
  lemma UnderIff(f: Freq, ms: seq<Merge>, flag: seq<nat>, k: nat, a: nat)
    requires Run(f, ms) && Flags(f, ms, flag) && OneRoot(f, ms) && Forest(Up(f, ms))
    requires k < |f| && f[k] > 0 && a < |f| + |ms| && Node(f, a)
    ensures Under(Up(f, ms), k, a) <==> IsPrefix(Code(Up(f, ms), flag, a), Code(Up(f, ms), flag, k))
  {
    var c := Code(Up(f, ms), flag, a);
    if Under(Up(f, ms), k, a) {
      UnderPrefix(f, ms, flag, k, a);
    } else if IsPrefix(c, Code(Up(f, ms), flag, k)) {
      var b := AncestorUnder(f, ms, flag, k, |c|);
      CodeInjective(f, ms, flag, a, b);
    }
  }

  lemma BeginsUnder(f: Freq, ms: seq<Merge>, flag: seq<nat>, len: seq<nat>, bits: seq<nat>,
                    a: nat, n: nat, v: int, k: nat)
    requires Run(f, ms) && Flags(f, ms, flag) && OneRoot(f, ms) && Forest(Up(f, ms))
    requires Numbers(Codes(f, ms, flag), len, bits) && a < |f| + |ms| && Node(f, a)
    requires var c := Code(Up(f, ms), flag, a); Bits(c) && n == |c| && v == Value(c)
    requires k < |f| && f[k] > 0
    ensures Begins(len, bits, k, n, v) <==> Under(Up(f, ms), k, a)
  {
    var c, d := Code(Up(f, ms), flag, a), Codes(f, ms, flag)[k];
    assert d == Code(Up(f, ms), flag, k);
    UnderIff(f, ms, flag, k, a);
    if n <= |d| {
      PrefixByNumbers(c, d);
    }
  }

  /** So the weight of a node can be read off the code tables. */
  lemma GroupOfNode(f: Freq, ms: seq<Merge>, flag: seq<nat>, len: seq<nat>, bits: seq<nat>, a: nat, n: nat, v: int)
    requires Run(f, ms) && Flags(f, ms, flag) && OneRoot(f, ms) && Forest(Up(f, ms))
    requires Numbers(Codes(f, ms, flag), len, bits) && a < |f| + |ms| && Node(f, a)
    requires var c := Code(Up(f, ms), flag, a); Bits(c) && n == |c| && v == Value(c)
    ensures Sum(Group(f, len, bits, n, v)) == Weights(f, ms)[a]
  {
    var up := Up(f, ms);
    forall k | 0 <= k < |f|
      ensures Group(f, len, bits, n, v)[k] == Below(f, up, a)[k]
    {
      if f[k] > 0 {
        BeginsUnder(f, ms, flag, len, bits, a, n, v, k);
      }
    }
    assert Group(f, len, bits, n, v) == Below(f, up, a);
    WeightOfNode(f, ms, a);
  }

  lemma CodesAreBits(f: Freq, ms: seq<Merge>, flag: seq<nat>, k: nat)
    requires Run(f, ms) && Flags(f, ms, flag) && Forest(Up(f, ms)) && k < |f| + |ms|
    ensures Bits(Code(Up(f, ms), flag, k))
  {
    CodeBits(f, ms, flag, k);
  }

  /** Where two numbers differ by one from an even one, the bit strings part in their last bit. */
  lemma PartBits(c: seq<nat>, d: seq<nat>)
    requires Bits(c) && Bits(d) && |c| == |d| >= 1 && Value(c) % 2 == 0 && Value(d) == Value(c) + 1
    ensures Init(c) == Init(d) && Last(c) == 0 && Last(d) == 1
  {
    ValueInjective(Init(c), Init(d));
  }

  /** Nodes whose paths part in the last bit are the two children of a node. */
  lemma PartingNodes(f: Freq, ms: seq<Merge>, flag: seq<nat>, a: nat, b: nat)
    requires Run(f, ms) && Flags(f, ms, flag) && OneRoot(f, ms) && Forest(Up(f, ms))
    requires a < |f| + |ms| && b < |f| + |ms|
    requires var c, d := Code(Up(f, ms), flag, a), Code(Up(f, ms), flag, b);
             c != [] && d != [] && Init(c) == Init(d) && Last(c) == 0 && Last(d) == 1
    ensures Up(f, ms)[a] == Up(f, ms)[b] != ROOT && flag[a] == 0 && flag[b] == 1
  {
    var up := Up(f, ms);
    ParentFacts(f, ms, flag, a);
    ParentFacts(f, ms, flag, b);
    assert Init(Code(up, flag, a)) == Code(up, flag, up[a]);
    assert Init(Code(up, flag, b)) == Code(up, flag, up[b]);
    CodeInjective(f, ms, flag, up[a], up[b]);
  }

  lemma HeadOfCode(f: Freq, ms: seq<Merge>, flag: seq<nat>, len: seq<nat>, bits: seq<nat>, k: nat, n: nat)
      returns (a: nat)
    requires Run(f, ms) && Flags(f, ms, flag) && OneRoot(f, ms) && Forest(Up(f, ms))
    requires Numbers(Codes(f, ms, flag), len, bits) && k < |f| && f[k] > 0 && n <= len[k]
    ensures a < |f| + |ms| && Node(f, a) && (if n == len[k] then a == k else a >= |f|)
    ensures var c := Code(Up(f, ms), flag, a); Bits(c) && |c| == n && Value(c) == Head(len[k], bits[k], n)
  {
    var c := Codes(f, ms, flag)[k];
    assert c == Code(Up(f, ms), flag, k);
    a := AncestorUnder(f, ms, flag, k, n);
    HeadOfString(c, len[k], bits[k], n);
    CodesAreBits(f, ms, flag, a);
  }

  lemma HeadOfString(c: seq<nat>, len: nat, bits: nat, n: nat)
    requires Bits(c) && len == |c| && bits == Value(c) && n <= len
    ensures Head(len, bits, n) == Value(c[..n])
  {
    ValueOfPrefix(c, n, len - n);
  }

  /** With one root left, the lighter part of every group of codewords goes on with 0. */
  lemma LighterGoesZero(f: Freq, ms: seq<Merge>, flag: seq<nat>, len: seq<nat>, bits: seq<nat>, k: nat, l: nat, n: nat)
    requires Run(f, ms) && Flags(f, ms, flag) && OneRoot(f, ms) && Forest(Up(f, ms))
    requires Numbers(Codes(f, ms, flag), len, bits) && Parts(f, len, bits, k, l, n)
    ensures LighterAt(f, len, bits, k, l, n)
  {
    var up := Up(f, ms);
    var a := HeadOfCode(f, ms, flag, len, bits, k, n);
    var b := HeadOfCode(f, ms, flag, len, bits, l, n);
    PartBits(Code(up, flag, a), Code(up, flag, b));
    PartingNodes(f, ms, flag, a, b);
    ZeroChild(f, ms, flag, a, b);
    GroupOfNode(f, ms, flag, len, bits, a, n, Head(len[k], bits[k], n));
    GroupOfNode(f, ms, flag, len, bits, b, n, Head(len[l], bits[l], n));
  }

  lemma LighterZero(f: Freq, ms: seq<Merge>, flag: seq<nat>, len: seq<nat>, bits: seq<nat>)
    requires Run(f, ms) && Flags(f, ms, flag) && OneRoot(f, ms) && Numbers(Codes(f, ms, flag), len, bits)
    ensures ZeroIsLighter(f, len, bits)
  {
    RunForest(f, ms);
    forall k, l, n: nat | Parts(f, len, bits, k, l, n) ensures LighterAt(f, len, bits, k, l, n) {
      LighterGoesZero(f, ms, flag, len, bits, k, l, n);
    }
  }
}
