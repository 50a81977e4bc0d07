/**
  read_huffman_tables of the 4XM decoder, once the frequencies are read: the in-place merge loop over
  the 512-entry tables, and the upward walks that produce code lengths and code bits.
 */
module HuffmanBuild {
  import opened Sums
  import opened HuffmanTree
  import opened HuffmanOptimal
  import opened HuffmanCode
  import opened HuffmanNumbers

  const SYMBOLS := 257
  const NODES := 512
  const SENTINEL := 256 * 256

  // ---- the frequency table ---------------------------------------------------------------------

  /** Frequencies as the input leaves them: bytes, and weight 1 for the extra symbol 256. */
  ghost predicate Table(f: Freq) {
    |f| == SYMBOLS && (forall k :: 0 <= k < 256 ==> f[k] < 256) && f[256] == 1
  }

  // ---- the merge loop --------------------------------------------------------------------------

  /** Byte frequencies and the single extra symbol weigh at most 256 * 255 + 1 together. */
  lemma TableTotal(f: Freq)
    requires Table(f)
    ensures 1 <= Sum(f) <= 65281 < SENTINEL
    ensures LiveCount(f) >= 1
  {
    SumAtLeast(f, 256);
    var ones := seq(SYMBOLS, _ => 1);
    Ones(SYMBOLS);
    var top := seq(SYMBOLS, _ => 255);
    SumScale(top, ones, 255);
    SumUpdate(top, 256, 1);
    SumMonotone(f, top[256 := 1]);
    LiveCountAtMostOne(f);
  }

  lemma {:induction false} Ones(n: nat)
    ensures Sum(seq(n, _ => 1)) == n
  {
    if n > 0 {
      Ones(n - 1);
      assert seq(n, _ => 1) == seq(n - 1, _ => 1) + [1];
      SumAppend(seq(n - 1, _ => 1), 1);
    }
  }

  /** By conservation of the total, the sentinel exceeds every frequency a run can produce. */
  lemma BelowSentinel(f: Freq, ms: seq<Merge>)
    requires Run(f, ms) && Sum(f) < SENTINEL
    ensures forall k :: 0 <= k < |f| + |ms| ==> After(f, ms)[k] < SENTINEL
  {
    TotalKept(f, ms);
    forall k | 0 <= k < |f| + |ms|
      ensures After(f, ms)[k] < SENTINEL
    {
      SumAtLeast(After(f, ms), k);
    }
  }

  /** The scan for the two smallest live entries among the first j. */
  method FindSmallest(frequency: array<nat>, j: nat) returns (min0: nat, min1: nat, s0: nat, s1: nat)
    requires j <= frequency.Length
    requires forall k :: 0 <= k < j ==> frequency[k] < SENTINEL
    ensures min1 == SENTINEL <==> LiveCount(frequency[..j]) <= 1
    ensures min1 != SENTINEL ==>
              LeastTwo(frequency[..j], s0, s1) && min0 == frequency[s0] && min1 == frequency[s1]
  {
    min0, min1 := SENTINEL, SENTINEL;
    s0, s1 := 0, 0;
    var i := 0;
    while i < j
      invariant i <= j
      invariant min0 == SENTINEL ==> min1 == SENTINEL && forall k :: 0 <= k < i ==> frequency[k] == 0
      invariant min0 != SENTINEL ==> s0 < i && 0 < frequency[s0] == min0
      invariant min0 != SENTINEL && min1 == SENTINEL ==> forall k :: 0 <= k < i && frequency[k] > 0 ==> k == s0
      invariant min1 != SENTINEL ==> s1 < i && frequency[s1] == min1 && LeastTwo(frequency[..i], s0, s1)
    {
      if frequency[i] != 0 && frequency[i] < min1 {
        if frequency[i] < min0 {
          min1, s1 := min0, s0;
          min0, s0 := frequency[i], i;
        } else {
          min1, s1 := frequency[i], i;
        }
      }
      i := i + 1;
    }
    LiveCountAtMostOne(frequency[..j]);
  }

  /** The tables are those of the run ms over the symbols f. */
  ghost predicate Built(f: Freq, ms: seq<Merge>, frequency: Freq, flag: seq<nat>, up: seq<int>) {
    Run(f, ms) && frequency == After(f, ms) && up == Up(f, ms) && Flags(f, ms, flag)
  }

  lemma RunExtend(f: Freq, ms: seq<Merge>, m: Merge)
    requires Run(f, ms) && LeastTwo(After(f, ms), m.zero, m.one)
    ensures Run(f, ms + [m]) && After(f, ms + [m]) == Apply(After(f, ms), m)
  {
    assert Init(ms + [m]) == ms && Last(ms + [m]) == m;
  }

  lemma UpExtend(f: Freq, ms: seq<Merge>, m: Merge, ms': seq<Merge>, j: nat)
    requires Run(f, ms) && Run(f, ms') && ms' != [] && Init(ms') == ms && Last(ms') == m && j == |f| + |ms|
    ensures m.zero < j && m.one < j && Up(f, ms') == Up(f, ms)[m.zero := j][m.one := j] + [ROOT]
  {
  }

  /** Live nodes were not merged before, so their flags are still free. */
  lemma FlagsExtend(f: Freq, ms: seq<Merge>, m: Merge, flag: seq<nat>, flag': seq<nat>)
    requires Run(f, ms) && LeastTwo(After(f, ms), m.zero, m.one) && Run(f, ms + [m])
    requires Flags(f, ms, flag) && |flag'| == |flag| + 1 && flag'[..|flag|] == flag[m.zero := 0][m.one := 1]
    ensures Flags(f, ms + [m], flag')
  {
    RootsAreLive(f, ms);
    forall i | 0 <= i < |ms|
      ensures ms[i].zero < |flag| && flag'[ms[i].zero] == 0
      ensures ms[i].one < |flag| && flag'[ms[i].one] == 1
    {
      UpStable(f, ms, i);
      assert flag'[..|flag|][ms[i].zero] == 0 && flag'[..|flag|][ms[i].one] == 1;
    }
    assert flag'[..|flag|][m.zero] == 0 && flag'[..|flag|][m.one] == 1;
  }

  /** One more merge of the two smallest extends a run and its tables. */
  lemma BuiltExtend(f: Freq, ms: seq<Merge>, m: Merge, frequency: Freq, flag: seq<nat>, up: seq<int>, flag': seq<nat>)
    requires Built(f, ms, frequency, flag, up) && LeastTwo(frequency, m.zero, m.one)
    requires |flag'| == |flag| + 1 && flag'[..|flag|] == flag[m.zero := 0][m.one := 1]
    ensures Built(f, ms + [m], Apply(frequency, m), flag', up[m.zero := |up|][m.one := |up|] + [ROOT])
  {
    RunExtend(f, ms, m);
    assert Init(ms + [m]) == ms && Last(ms + [m]) == m;
    UpExtend(f, ms, m, ms + [m], |up|);
    FlagsExtend(f, ms, m, flag, flag');
  }

  lemma LiveBelowSentinel(f: Freq, ms: seq<Merge>, frequency: array<nat>, j: nat, flag: seq<nat>, up: seq<int>)
    requires j <= frequency.Length && Sum(f) < SENTINEL && Built(f, ms, frequency[..j], flag, up)
    ensures forall k :: 0 <= k < j ==> frequency[k] < SENTINEL
  {
    BelowSentinel(f, ms);
    assert forall k :: 0 <= k < j ==> frequency[k] == frequency[..j][k];
  }

  method Join(frequency: array<nat>, flag: array<nat>, up: array<int>, j: nat, s0: nat, s1: nat, weight: nat)
    requires frequency.Length == flag.Length == up.Length == NODES && frequency != flag
    requires s0 < j && s1 < j < NODES && s0 != s1 && weight == frequency[s0] + frequency[s1]
    requires up[j] == ROOT
    modifies frequency, flag, up
    ensures frequency[..j + 1] == Apply(old(frequency[..j]), Merge(s0, s1))
    ensures up[..j + 1] == old(up[..j])[s0 := j][s1 := j] + [ROOT]
    ensures flag[..j + 1] == old(flag[..j])[s0 := 0][s1 := 1] + [old(flag[j])]
    ensures forall k :: j < k < NODES ==> up[k] == old(up[k])
  {
    frequency[j] := weight;
    flag[s0] := 0;
    flag[s1] := 1;
    up[s0], up[s1] := j, j;
    frequency[s0], frequency[s1] := 0, 0;
  }

  /**
    The merge loop. It ends with the tables of a run that stopped because one live node was left,
    or because the 512 entries were used up.
   */
  method BuildTree(frequency: array<nat>, flag: array<nat>, up: array<int>) returns (ghost ms: seq<Merge>)
    requires frequency.Length == flag.Length == up.Length == NODES && frequency != flag
    requires Sum(frequency[..SYMBOLS]) < SENTINEL
    requires forall k :: 0 <= k < NODES ==> up[k] == ROOT
    modifies frequency, flag, up
    ensures |ms| <= NODES - SYMBOLS
    ensures Built(old(frequency[..SYMBOLS]), ms,
                  frequency[..SYMBOLS + |ms|], flag[..SYMBOLS + |ms|], up[..SYMBOLS + |ms|])
    ensures |ms| == NODES - SYMBOLS || LiveCount(frequency[..SYMBOLS + |ms|]) <= 1
    ensures forall k :: SYMBOLS + |ms| <= k < NODES ==> up[k] == ROOT
  {
    ghost var f := frequency[..SYMBOLS];
    ms := [];
    var j := SYMBOLS;
    while j < NODES
      invariant SYMBOLS <= j <= NODES && |ms| == j - SYMBOLS
      invariant Built(f, ms, frequency[..j], flag[..j], up[..j])
      invariant forall k :: j <= k < NODES ==> up[k] == ROOT
    {
      LiveBelowSentinel(f, ms, frequency, j, flag[..j], up[..j]);
      var min0, min1, s0, s1 := FindSmallest(frequency, j);
      if min1 == SENTINEL {
        break;
      }
      BuiltExtend(f, ms, Merge(s0, s1), frequency[..j], flag[..j], up[..j], flag[..j][s0 := 0][s1 := 1] + [flag[j]]);
      Join(frequency, flag, up, j, s0, s1, min0 + min1);
      ms := ms + [Merge(s0, s1)];
      j := j + 1;
    }
  }

  // ---- the walks upwards -----------------------------------------------------------------------

  /** bit << len. */
  function ShiftLeft(bit: nat, len: nat): nat {
    bit * Pow2(len)
  }

  /** What the walk has collected so far, below node: len bits of value bits. */
  ghost predicate Walked(up: seq<int>, flag: seq<nat>, j: nat, node: nat, len: nat, bits: nat)
    requires Forest(up) && |flag| == |up| && j < |up| && node < |up|
  {
    && Depth(up, j) == Depth(up, node) + len
    && Value(Code(up, flag, j)) == ShiftLeft(Value(Code(up, flag, node)), len) + bits
  }

  lemma WalkStep(up: seq<int>, flag: seq<nat>, j: nat, node: nat, len: nat, bits: nat, len': nat, bits': nat)
    requires Forest(up) && |flag| == |up| && j < |up| && node < |up| && up[node] != ROOT
    requires Walked(up, flag, j, node, len, bits) && len' == len + 1 && bits' == bits + ShiftLeft(flag[node], len)
    ensures Walked(up, flag, j, up[node], len', bits')
  {
    var c := Code(up, flag, up[node]);
    assert Init(c + [flag[node]]) == c;
    ShiftIn(Value(c), flag[node], len);
  }

  lemma ShiftIn(v: nat, b: nat, len: nat)
    ensures ShiftLeft(2 * v + b, len) == ShiftLeft(v, len + 1) + ShiftLeft(b, len)
  {
    var p := Pow2(len);
    assert (2 * v + b) * p == v * (2 * p) + b * p;
  }

  /** F(25) == 75025 is above every total weight a 4XM table can have. */
  lemma WeightBoundsLength(d: nat)
    requires Fib(d + 2) <= 65281
    ensures d <= 22
  {
    Fib25();
    if d > 22 {
      FibMonotone(25, d + 2);
    }
  }

  /** No codeword of a 4XM table is longer than 22 bits. */
  lemma LengthAtMost22(f: Freq, ms: seq<Merge>, k: nat)
    requires Table(f) && Run(f, ms) && k < SYMBOLS
    ensures RunLengths(f, ms)[k] <= 22
  {
    RunForest(f, ms);
    if f[k] > 0 {
      DepthNeedsWeight(f, ms, k);
      TableTotal(f);
      WeightBoundsLength(RunLengths(f, ms)[k]);
    } else {
      RootsAreLive(f, ms);
      assert Depth(Up(f, ms), k) == 0;
    }
  }

  /**
    The walk from symbol j to its root. overlong tells whether the "vlc length overflow" message was
    printed.
   */
  method Walk(flag: array<nat>, up: array<int>, j: nat, ghost n: nat)
      returns (len: nat, bits: nat, overlong: bool)
    requires j < n <= NODES == flag.Length == up.Length
    requires Forest(up[..n])
    ensures len == Depth(up[..n], j)
    ensures bits == Value(Code(up[..n], flag[..n], j))
    ensures overlong <==> len > 31
  {
    ghost var u, g := up[..n], flag[..n];
    len, bits, overlong := 0, 0, false;
    var node := j;
    while up[node] != ROOT
      invariant node < n && Walked(u, g, j, node, len, bits)
      invariant overlong <==> len > 31
      decreases n - node
    {
      assert up[node] == u[node] && flag[node] == g[node];
      ghost var len', bits' := len, bits;
      bits := bits + ShiftLeft(flag[node], len);
      len := len + 1;
      WalkStep(u, g, j, node, len', bits', len, bits);
      if len > 31 {
        overlong := true;
      }
      node := up[node];
    }
    assert u[node] == up[node];
  }

  /** The two code tables hold the codewords of the run, none overlong. */
  ghost predicate Coded(f: Freq, ms: seq<Merge>, flag: seq<nat>, len: seq<nat>, bits: seq<nat>)
    requires Run(f, ms) && |flag| == |f| + |ms|
  {
    && |bits| == |len| <= |f|
    && forall k :: 0 <= k < |len| ==>
         var c := Codes(f, ms, flag)[k];
         len[k] == |c| <= 22 && bits[k] == Value(c) < Pow2(len[k])
  }

  lemma CodedSymbol(f: Freq, ms: seq<Merge>, flag: seq<nat>, k: nat)
    requires Table(f) && Run(f, ms) && Flags(f, ms, flag) && Forest(Up(f, ms)) && k < SYMBOLS
    ensures Codes(f, ms, flag)[k] == Code(Up(f, ms), flag, k)
    ensures |Codes(f, ms, flag)[k]| == Depth(Up(f, ms), k) <= 22
    ensures Value(Codes(f, ms, flag)[k]) < Pow2(Depth(Up(f, ms), k))
  {
    LengthAtMost22(f, ms, k);
    CodeBits(f, ms, flag, k);
    ValueBelow(Code(Up(f, ms), flag, k));
  }

  method BuildCodes(flag: array<nat>, up: array<int>, ghost f: Freq, ghost ms: seq<Merge>, ghost n: nat)
      returns (lenTab: array<nat>, bitsTab: array<nat>, overlong: bool)
    requires flag.Length == up.Length == NODES && Table(f) && n == SYMBOLS + |ms| <= NODES
    requires Run(f, ms) && up[..n] == Up(f, ms) && Flags(f, ms, flag[..n])
    ensures lenTab.Length == bitsTab.Length == SYMBOLS && !overlong
    ensures Coded(f, ms, flag[..n], lenTab[..], bitsTab[..])
  {
    lenTab, bitsTab, overlong := new nat[SYMBOLS], new nat[SYMBOLS], false;
    RunForest(f, ms);
    var j := 0;
    while j < SYMBOLS
      invariant j <= SYMBOLS && !overlong
      invariant Coded(f, ms, flag[..n], lenTab[..j], bitsTab[..j])
    {
      var len, bits, long := Walk(flag, up, j, n);
      CodedSymbol(f, ms, flag[..n], j);
      lenTab[j], bitsTab[j], overlong := len, bits, overlong || long;
      assert lenTab[..j + 1] == lenTab[..j] + [len] && bitsTab[..j + 1] == bitsTab[..j] + [bits];
      j := j + 1;
    }
    assert lenTab[..SYMBOLS] == lenTab[..] && bitsTab[..SYMBOLS] == bitsTab[..];
  }

  // ---- the whole function ----------------------------------------------------------------------

  /** A run that went on as long as it could ends with one root, unless all 257 symbols occur. */
  lemma RootsLeft(f: Freq, ms: seq<Merge>)
    requires Table(f) && Run(f, ms) && |ms| <= NODES - SYMBOLS
    requires |ms| == NODES - SYMBOLS || LiveCount(After(f, ms)) <= 1
    ensures OneRoot(f, ms) <==> LiveCount(f) <= 256
  {
    TableTotal(f);
    LiveCountDrops(f, ms);
    RootsRemain(f, ms);
  }

  /** The lengths beat every prefix code for the symbols that occur. */
  ghost predicate BeatsAllPrefixCodes(f: Freq, len: seq<nat>)
    requires |len| == |f|
  {
    forall code :: PrefixCode(f, code) ==> Cost(f, len) <= Cost(f, Lengths(code))
  }

  /** The Kraft sum of the symbols that occur is exactly 1, at every scale that fits the table. */
  ghost predicate KraftSumIsOne(f: Freq, len: seq<nat>)
    requires |len| == |f|
  {
    forall n :: n >= NODES ==> Kraft(f, len, n) == Pow2(n)
  }

  lemma AllOptimal(f: Freq, ms: seq<Merge>)
    requires Run(f, ms)
    ensures BeatsAllPrefixCodes(f, RunLengths(f, ms))
  {
    forall code | PrefixCode(f, code)
      ensures Cost(f, RunLengths(f, ms)) <= Cost(f, Lengths(code))
    {
      Optimal(f, ms, code);
    }
  }

  lemma KraftIffOneRoot(f: Freq, ms: seq<Merge>)
    requires Run(f, ms) && |f| + |ms| <= NODES
    ensures OneRoot(f, ms) <==> KraftSumIsOne(f, RunLengths(f, ms))
  {
    FinalStage(f, ms);
    var r := LiveCount(After(f, ms));
    if KraftSumIsOne(f, RunLengths(f, ms)) {
      assert Kraft(f, RunLengths(f, ms), NODES) == Pow2(NODES);
      OneRootOfKraft(r, Pow2(NODES));
    }
  }

  /**
    What the merge loop achieves on every frequency table: lengths no prefix code beats, and a
    complete prefix code exactly when at most 256 of the 257 symbols occur. With all 257 the bound
    j < 512 stops the loop one merge early.
   */
  lemma HuffmanTheorem(f: Freq, ms: seq<Merge>, flag: seq<nat>)
    requires Table(f) && Run(f, ms) && Flags(f, ms, flag) && |ms| <= NODES - SYMBOLS
    requires |ms| == NODES - SYMBOLS || LiveCount(After(f, ms)) <= 1
    ensures BeatsAllPrefixCodes(f, Lengths(Codes(f, ms, flag)))
    ensures PrefixCode(f, Codes(f, ms, flag)) <==> LiveCount(f) <= 256
    ensures KraftSumIsOne(f, Lengths(Codes(f, ms, flag))) <==> LiveCount(f) <= 256
  {
    TableTotal(f);
    RootsLeft(f, ms);
    CompletePrefixCode(f, ms, flag);
    KraftIffOneRoot(f, ms);
    AllOptimal(f, ms);
  }

  /** What the code tables say as numbers. */
  lemma NumbersTell(f: Freq, ms: seq<Merge>, flag: seq<nat>, len: seq<nat>, bits: seq<nat>)
    requires Table(f) && Run(f, ms) && Flags(f, ms, flag) && |ms| <= NODES - SYMBOLS
    requires |ms| == NODES - SYMBOLS || LiveCount(After(f, ms)) <= 1
    requires |len| == SYMBOLS && Coded(f, ms, flag, len, bits)
    ensures PrefixFree(f, len, bits) <==> LiveCount(f) <= 256
    ensures LiveCount(f) <= 256 ==> ZeroIsLighter(f, len, bits)
  {
    CodesAreNumbers(f, ms, flag, len, bits);
    PrefixFreeIff(f, Codes(f, ms, flag), len, bits);
    HuffmanTheorem(f, ms, flag);
    if LiveCount(f) <= 256 {
      RootsLeft(f, ms);
      LighterZero(f, ms, flag, len, bits);
    }
  }

  lemma CodesAreNumbers(f: Freq, ms: seq<Merge>, flag: seq<nat>, len: seq<nat>, bits: seq<nat>)
    requires Run(f, ms) && Flags(f, ms, flag) && |len| == |f| && Coded(f, ms, flag, len, bits)
    ensures Numbers(Codes(f, ms, flag), len, bits)
  {
    RunForest(f, ms);
    forall k | 0 <= k < |f| ensures Bits(Codes(f, ms, flag)[k]) {
      CodesAreBits(f, ms, flag, k);
    }
  }

  /** Symbols that do not occur get no codeword. */
  predicate UnusedEmpty(f: Freq, len: seq<nat>, bits: seq<nat>)
    requires |f| == |len| == |bits|
  {
    forall k :: 0 <= k < |f| && f[k] == 0 ==> len[k] == 0 && bits[k] == 0
  }

  lemma UnusedAreRoots(f: Freq, ms: seq<Merge>, flag: seq<nat>, len: seq<nat>, bits: seq<nat>)
    requires Run(f, ms) && |flag| == |f| + |ms| && |len| == |f| && Coded(f, ms, flag, len, bits)
    ensures UnusedEmpty(f, len, bits)
  {
    RunForest(f, ms);
    RootsAreLive(f, ms);
    forall k | 0 <= k < |f| && f[k] == 0 ensures len[k] == 0 && bits[k] == 0 {
      assert Codes(f, ms, flag)[k] == Code(Up(f, ms), flag, k) == [];
    }
  }

  /** From frequencies to the code tables. */
  method BuildHuffmanCode(frequency: array<nat>)
      returns (lenTab: array<nat>, bitsTab: array<nat>, overlong: bool, ghost codes: seq<seq<nat>>)
    requires frequency.Length == NODES && Table(frequency[..SYMBOLS])
    modifies frequency
    ensures !overlong && bitsTab.Length == |codes| == SYMBOLS && lenTab[..] == Lengths(codes)
    ensures forall k :: 0 <= k < SYMBOLS ==> |codes[k]| <= 22
    ensures forall k :: 0 <= k < SYMBOLS ==> bitsTab[k] == Value(codes[k]) < Pow2(|codes[k]|)
    ensures BeatsAllPrefixCodes(old(frequency[..SYMBOLS]), lenTab[..])
    ensures PrefixCode(old(frequency[..SYMBOLS]), codes) <==> LiveCount(old(frequency[..SYMBOLS])) <= 256
    ensures KraftSumIsOne(old(frequency[..SYMBOLS]), lenTab[..]) <==> LiveCount(old(frequency[..SYMBOLS])) <= 256
    ensures PrefixFree(old(frequency[..SYMBOLS]), lenTab[..], bitsTab[..])
            <==> LiveCount(old(frequency[..SYMBOLS])) <= 256
    ensures LiveCount(old(frequency[..SYMBOLS])) <= 256 ==>
              ZeroIsLighter(old(frequency[..SYMBOLS]), lenTab[..], bitsTab[..])
    ensures UnusedEmpty(old(frequency[..SYMBOLS]), lenTab[..], bitsTab[..])
  {
    ghost var f := frequency[..SYMBOLS];
    TableTotal(f);
    var flag, up := new nat[NODES], new int[NODES](_ => ROOT);
    ghost var ms := BuildTree(frequency, flag, up);
    ghost var n := SYMBOLS + |ms|;
    HuffmanTheorem(f, ms, flag[..n]);
    lenTab, bitsTab, overlong := BuildCodes(flag, up, f, ms, n);
    codes := Codes(f, ms, flag[..n]);
    assert forall k :: 0 <= k < SYMBOLS ==> lenTab[k] == lenTab[..][k] && bitsTab[k] == bitsTab[..][k];
    assert lenTab[..] == Lengths(codes);
    NumbersTell(f, ms, flag[..n], lenTab[..], bitsTab[..]);
    UnusedAreRoots(f, ms, flag[..n], lenTab[..], bitsTab[..]);
  }
}
