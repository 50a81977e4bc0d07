/**
  How read_huffman_tables gets its frequencies: ranges of symbols, each with its first and last symbol
  and a byte for every symbol between, ended by a range that starts at 0. The reference is an encoder.
 */
module HuffmanRanges {
  import opened LittleEndian
  import opened Options
  import opened HuffmanTree
  import opened HuffmanOptimal
  import opened HuffmanBuild
  import opened HuffmanNumbers

  /** Bytes after the input read as zero, like the padding of every packet. */
  function ByteAt(data: seq<Byte>, i: nat): Byte {
    if i < |data| then data[i] else 0
  }

  function Length(start: nat, end: nat): nat {
    if end < start then 0 else end - start + 1
  }

  /** A table with the entries from start on replaced. */
  function Overlay(f: seq<nat>, start: nat, weights: seq<Byte>): (g: seq<nat>)
    requires start + |weights| <= |f|
    ensures |g| == |f|
    decreases |weights|
  {
    if weights == [] then f
    else
      var n := |weights| - 1;
      Overlay(f, start, weights[..n])[start + n := weights[n]]
  }

  /** An overlaid table has the weights in their range, and elsewhere what was there. */
  lemma {:induction false} OverlayAt(f: seq<nat>, start: nat, weights: seq<Byte>, k: nat)
    requires start + |weights| <= |f| && k < |f|
    ensures Overlay(f, start, weights)[k] == if start <= k < start + |weights| then weights[k - start] else f[k]
    decreases |weights|
  {
    if weights != [] {
      OverlayAt(f, start, weights[..|weights| - 1], k);
    }
  }

  datatype Ranges = Ranges(table: seq<nat>, next: nat)

  /** The loop over ranges, about to read the weights from start to end. */
  function Parse(data: seq<Byte>, size: nat, ptr: nat, start: Byte, end: Byte, f: seq<nat>): (r: Option<Ranges>)
    requires size <= |data| && |f| == SYMBOLS
    ensures r.Some? ==> |r.value.table| == SYMBOLS
    decreases size + 1 - ptr
  {
    var n := Length(start, end);
    if size < ptr + n + 1 then None
    else
      var g, next := Overlay(f, start, data[ptr..ptr + n]), ptr + n + 1;
      if data[ptr + n] == 0 then Some(Ranges(g, next))
      else Parse(data, size, next + 1, data[ptr + n], ByteAt(data, next), g)
  }

  /** The next multiple of four. */
  function Aligned(n: nat): (m: nat)
    ensures m % 4 == 0 && n <= m < n + 4
  {
    (n + 3) / 4 * 4
  }

  function Zeros(): (f: seq<nat>)
    ensures |f| == SYMBOLS
  {
    seq(SYMBOLS, _ => 0)
  }

  /** The frequencies and where the input goes on, or nothing if it is cut short. */
  function Frequencies(data: seq<Byte>, size: nat): Option<Ranges>
    requires size <= |data|
  {
    var r := Parse(data, size, 2, ByteAt(data, 0), ByteAt(data, 1), Zeros());
    if r.None? || Aligned(r.value.next) > size then None
    else Some(Ranges(r.value.table[256 := 1], Aligned(r.value.next)))
  }

  // ---- every input gives a table ---------------------------------------------------------------

  ghost predicate Bytes(f: seq<nat>) {
    forall k :: 0 <= k < |f| ==> f[k] < 256
  }

  lemma {:induction false} OverlayBytes(f: seq<nat>, start: nat, weights: seq<Byte>)
    requires start + |weights| <= |f| && Bytes(f)
    ensures Bytes(Overlay(f, start, weights))
    decreases |weights|
  {
    if weights != [] {
      OverlayBytes(f, start, weights[..|weights| - 1]);
    }
  }

  lemma {:induction false} ParseBytes(data: seq<Byte>, size: nat, ptr: nat, start: Byte, end: Byte, f: seq<nat>)
    requires size <= |data| && |f| == SYMBOLS && Bytes(f)
    ensures var r := Parse(data, size, ptr, start, end, f);
            r.Some? ==> |r.value.table| == SYMBOLS && Bytes(r.value.table)
    decreases size + 1 - ptr
  {
    var n := Length(start, end);
    if size >= ptr + n + 1 {
      OverlayBytes(f, start, data[ptr..ptr + n]);
      var next := ptr + n + 1;
      ParseBytes(data, size, next + 1, data[ptr + n], ByteAt(data, next), Overlay(f, start, data[ptr..ptr + n]));
    }
  }

  /** Whatever the input, the frequencies are a table that the Huffman construction accepts. */
  lemma FrequenciesAreTable(data: seq<Byte>, size: nat)
    requires size <= |data| && Frequencies(data, size).Some?
    ensures Table(Frequencies(data, size).value.table)
  {
    ParseBytes(data, size, 2, ByteAt(data, 0), ByteAt(data, 1), Zeros());
  }

  // ---- the encoder -----------------------------------------------------------------------------

  datatype Range = Range(start: Byte, weights: seq<Byte>)

  /** A range of symbols below 256, with something in it. */
  predicate Fits(r: Range) {
    r.weights != [] && r.start + |r.weights| <= 256
  }

  /** Ranges that can follow another: 0 would end the list. */
  predicate Following(runs: seq<Range>) {
    forall i :: 0 <= i < |runs| ==> Fits(runs[i]) && (i > 0 ==> runs[i].start != 0)
  }

  function End(r: Range): Byte
    requires Fits(r)
  {
    r.start + |r.weights| - 1
  }

  function Encode(runs: seq<Range>): (s: seq<Byte>)
    requires Following(runs)
    ensures |s| >= 1 && (runs != [] ==> |s| >= 2 && s[0] == runs[0].start && s[1] == End(runs[0]))
    ensures runs == [] ==> s == [0]
  {
    if runs == [] then [0]
    else [runs[0].start, End(runs[0])] + runs[0].weights + Encode(runs[1..])
  }

  function OverlayAll(f: seq<nat>, runs: seq<Range>): (g: seq<nat>)
    requires Following(runs) && |f| == SYMBOLS
    ensures |g| == SYMBOLS
    decreases |runs|
  {
    if runs == [] then f else OverlayAll(Overlay(f, runs[0].start, runs[0].weights), runs[1..])
  }

  /** Part of a slice. */
  lemma Within(data: seq<Byte>, at: nat, next: nat, s: seq<Byte>, from: nat, to: nat)
    requires at <= next <= |data| && data[at..next] == s && from <= to <= |s|
    ensures data[at + from..at + to] == s[from..to]
  {
    forall k | 0 <= k < to - from ensures data[at + from..at + to][k] == s[from..to][k] {
      assert data[at..next][from + k] == data[at + (from + k)];
    }
  }

  /** One range that is there is overlaid, and ends the list or is followed by another. */
  lemma ParseOne(data: seq<Byte>, size: nat, ptr: nat, r: Range, f: seq<nat>, at: nat)
    requires size <= |data| && |f| == SYMBOLS && Fits(r)
    requires at == ptr + |r.weights| && at + 1 <= size && data[ptr..at] == r.weights
    ensures var g := Overlay(f, r.start, r.weights);
            Parse(data, size, ptr, r.start, End(r), f)
            == if data[at] == 0 then Some(Ranges(g, at + 1))
               else Parse(data, size, at + 2, data[at], ByteAt(data, at + 1), g)
  {
  }

  lemma EncodeParts(runs: seq<Range>, n: nat)
    requires runs != [] && Following(runs) && n == |runs[0].weights|
    ensures |Encode(runs)| == 2 + n + |Encode(runs[1..])|
    ensures Encode(runs)[2..2 + n] == runs[0].weights && Encode(runs)[2 + n..] == Encode(runs[1..])
  {
  }

  /** What was encoded is what is parsed, up to the byte after it. */
  lemma {:induction false} ParseEncoded(data: seq<Byte>, size: nat, at: nat, next: nat, runs: seq<Range>, f: seq<nat>)
    requires runs != [] && Following(runs) && size <= |data| && |f| == SYMBOLS
    requires next == at + |Encode(runs)| <= size && data[at..next] == Encode(runs)
    ensures Parse(data, size, at + 2, runs[0].start, End(runs[0]), f) == Some(Ranges(OverlayAll(f, runs), next))
    decreases |runs|
  {
    var r, rest, s := runs[0], runs[1..], Encode(runs);
    var ptr, n := at + 2, |r.weights|;
    var at' := ptr + n;
    EncodeParts(runs, n);
    Within(data, at, next, s, 2, 2 + n);
    Within(data, at, next, s, 2 + n, |s|);
    assert data[ptr..at'] == r.weights && data[at'..next] == Encode(rest);
    assert data[at'] == data[at'..next][0];
    ParseOne(data, size, ptr, r, f, at');
    if rest != [] {
      assert data[at' + 1] == data[at'..next][1];
      ParseEncoded(data, size, at', next, rest, Overlay(f, r.start, r.weights));
    }
  }

  /** If the input ends before they do, it is refused. */
  lemma {:induction false} ParseCutShort(data: seq<Byte>, size: nat, at: nat, next: nat, runs: seq<Range>, f: seq<nat>)
    requires runs != [] && Following(runs) && |f| == SYMBOLS
    requires size < next == at + |Encode(runs)| <= |data| && data[at..next] == Encode(runs)
    ensures Parse(data, size, at + 2, runs[0].start, End(runs[0]), f) == None
    decreases |runs|
  {
    var r, rest, s := runs[0], runs[1..], Encode(runs);
    var ptr, n := at + 2, |r.weights|;
    var at' := ptr + n;
    if at' + 1 <= size {
      EncodeParts(runs, n);
      Within(data, at, next, s, 2, 2 + n);
      Within(data, at, next, s, 2 + n, |s|);
      assert data[ptr..at'] == r.weights && data[at'..next] == Encode(rest);
      assert data[at'] == data[at'..next][0] && data[at' + 1] == data[at'..next][1];
      ParseOne(data, size, ptr, r, f, at');
      ParseCutShort(data, size, at', next, rest, Overlay(f, r.start, r.weights));
    }
  }

  /** Encoded ranges are accepted exactly if they are there whole, with the padding behind them. */
  lemma AcceptedIff(data: seq<Byte>, size: nat, runs: seq<Range>)
    requires runs != [] && Following(runs) && Encode(runs) <= data && size <= |data|
    ensures Frequencies(data, size).Some? <==> Aligned(|Encode(runs)|) <= size
  {
    var next := |Encode(runs)|;
    assert data[0..next] == Encode(runs);
    assert data[0] == Encode(runs)[0] && data[1] == Encode(runs)[1];
    if size < next {
      ParseCutShort(data, size, 0, next, runs, Zeros());
    } else {
      ParseEncoded(data, size, 0, next, runs, Zeros());
    }
  }

  /** Encoded ranges, padded to a multiple of four bytes, are read back as the table they describe. */
  lemma RoundTrip(data: seq<Byte>, size: nat, runs: seq<Range>)
    requires runs != [] && Following(runs) && Encode(runs) <= data && Aligned(|Encode(runs)|) <= size <= |data|
    ensures Frequencies(data, size) == Some(Ranges(OverlayAll(Zeros(), runs)[256 := 1], Aligned(|Encode(runs)|)))
  {
    var next := |Encode(runs)|;
    assert data[0..next] == Encode(runs);
    assert data[0] == Encode(runs)[0] && data[1] == Encode(runs)[1];
    ParseEncoded(data, size, 0, next, runs, Zeros());
  }

  // ---- the code --------------------------------------------------------------------------------

  /** The loop over one range. */
  method ReadRange(data: seq<Byte>, ptr: nat, start: Byte, end: Byte, frequency: array<nat>)
    requires frequency.Length == NODES && ptr + Length(start, end) <= |data|
    modifies frequency
    ensures frequency[..SYMBOLS] == Overlay(old(frequency[..SYMBOLS]), start, data[ptr..ptr + Length(start, end)])
    ensures frequency[SYMBOLS..] == old(frequency[SYMBOLS..])
  {
    ghost var f := frequency[..SYMBOLS];
    var i: nat, n: nat := start, 0;
    while i <= end
      invariant i == start + n && n <= Length(start, end)
      invariant frequency[..SYMBOLS] == Overlay(f, start, data[ptr..ptr + n])
      invariant frequency[SYMBOLS..] == old(frequency[SYMBOLS..])
    {
      assert data[ptr..ptr + n + 1][..n] == data[ptr..ptr + n];
      frequency[i] := data[ptr + n];
      i, n := i + 1, n + 1;
    }
  }

  /** The loop over ranges, from the first pair on. */
  method ReadAll(data: seq<Byte>, size: nat, frequency: array<nat>) returns (next: Option<nat>)
    requires frequency.Length == NODES && size <= |data|
    modifies frequency
    ensures var r := Parse(data, size, 2, ByteAt(data, 0), ByteAt(data, 1), old(frequency[..SYMBOLS]));
            && (next.Some? <==> r.Some?)
            && (r.Some? ==> next.value == r.value.next && frequency[..SYMBOLS] == r.value.table)
  {
    var ptr: nat, start, end := 2, ByteAt(data, 0), ByteAt(data, 1);
    while true
      invariant Parse(data, size, ptr, start, end, frequency[..SYMBOLS])
             == Parse(data, size, 2, ByteAt(data, 0), ByteAt(data, 1), old(frequency[..SYMBOLS]))
      decreases size + 1 - ptr
    {
      if size < ptr + Length(start, end) + 1 {
        return None;
      }
      ReadRange(data, ptr, start, end, frequency);
      ptr := ptr + Length(start, end);
      start := data[ptr];
      ptr := ptr + 1;
      if start == 0 {
        return Some(ptr);
      }
      end := ByteAt(data, ptr);
      ptr := ptr + 1;
    }
  }

  /** The loop that aligns to four bytes. */
  method Align(from: nat) returns (ptr: nat)
    ensures ptr == Aligned(from)
  {
    ptr := from;
    while ptr % 4 != 0
      invariant from <= ptr <= Aligned(from)
      decreases Aligned(from) - ptr
    {
      ptr := ptr + 1;
    }
  }

  /** The first half of read_huffman_tables. */
  method ReadRanges(data: seq<Byte>, size: nat, frequency: array<nat>) returns (next: Option<nat>)
    requires frequency.Length == NODES && size <= |data| && frequency[..SYMBOLS] == Zeros()
    modifies frequency
    ensures var r := Frequencies(data, size);
            && (next.Some? <==> r.Some?)
            && (r.Some? ==> next.value == r.value.next && frequency[..SYMBOLS] == r.value.table)
  {
    next := ReadAll(data, size, frequency);
    if next.None? {
      return;
    }
    frequency[256] := 1;
    var ptr := Align(next.value);
    next := if ptr > size then None else Some(ptr);
  }

  /** read_huffman_tables, up to the tables it hands to init_vlc. */
  method ReadHuffmanTables(data: seq<Byte>, size: nat)
      returns (next: Option<nat>, lenTab: array<nat>, bitsTab: array<nat>, ghost codes: seq<seq<nat>>)
    requires size <= |data|
    ensures next.Some? <==> Frequencies(data, size).Some?
    ensures next.Some? ==> next.value == Frequencies(data, size).value.next
    ensures next.Some? ==> CodeFor(Frequencies(data, size).value.table, lenTab[..], bitsTab[..], codes)
  {
    var frequency := new nat[NODES](_ => 0);
    assert frequency[..SYMBOLS] == Zeros();
    next := ReadRanges(data, size, frequency);
    if next.None? {
      lenTab, bitsTab, codes := new nat[0], new nat[0], [];
      return;
    }
    FrequenciesAreTable(data, size);
    var overlong;
    lenTab, bitsTab, overlong, codes := BuildHuffmanCode(frequency);
  }

  /**
    Lengths no prefix code beats, and numbers none of which begins another unless all 257 symbols occur;
    where they part, the lighter ones go on with 0.
   */
  ghost predicate CodeFor(f: seq<nat>, len: seq<nat>, bits: seq<nat>, codes: seq<seq<nat>>) {
    && Table(f) && |bits| == |codes| == SYMBOLS && len == Lengths(codes)
    && (forall k :: 0 <= k < SYMBOLS ==> |codes[k]| <= 22 && bits[k] == Value(codes[k]))
    && BeatsAllPrefixCodes(f, len)
    && (PrefixCode(f, codes) <==> LiveCount(f) <= 256)
    && (PrefixFree(f, len, bits) <==> LiveCount(f) <= 256)
    && (LiveCount(f) <= 256 ==> ZeroIsLighter(f, len, bits))
    && UnusedEmpty(f, len, bits)
  }

  // ---- an input that uses all symbols ----------------------------------------------------------

  /** One range of all 256 bytes, each with weight 1. */
  function AllBytes(): (runs: seq<Range>)
    ensures Following(runs) && |runs| == 1
  {
    [Range(0, seq(256, _ => 1))]
  }

  /** The input that describes it. */
  function AllSymbols(): seq<Byte> {
    Encode(AllBytes()) + [0]
  }

  lemma AllOnes()
    ensures OverlayAll(Zeros(), AllBytes())[256 := 1] == seq(SYMBOLS, _ => 1)
  {
    var w := seq(256, _ => 1);
    var f := Overlay(Zeros(), 0, w);
    forall k: nat | k < 256 ensures f[k] == 1 {
      OverlayAt(Zeros(), 0, w, k);
    }
    assert AllBytes()[1..] == [];
    assert OverlayAll(Zeros(), AllBytes()) == f;
  }

  lemma {:induction false} LiveOnes(n: nat)
    ensures LiveCount(seq(n, _ => 1)) == n
  {
    var f := seq(n, _ => 1);
    assert LiveFlags(f) == f;
    Ones(n);
  }

  /** It is accepted, and all 257 symbols are in use. */
  lemma AllSymbolsLive()
    ensures |AllSymbols()| == 260 && Frequencies(AllSymbols(), 260).Some?
    ensures LiveCount(Frequencies(AllSymbols(), 260).value.table) == 257
  {
    var runs := AllBytes();
    assert runs[1..] == [];
    assert |Encode(runs)| == 259;
    RoundTrip(AllSymbols(), 260, runs);
    AllOnes();
    LiveOnes(SYMBOLS);
  }

  /** The codewords read_huffman_tables builds from it are not a prefix code. */
  lemma AllSymbolsNoPrefixCode(len: seq<nat>, bits: seq<nat>, codes: seq<seq<nat>>)
    requires CodeFor(FrequenciesOfAll(), len, bits, codes)
    ensures !PrefixCode(FrequenciesOfAll(), codes) && !PrefixFree(FrequenciesOfAll(), len, bits)
  {
    AllSymbolsLive();
  }

  function FrequenciesOfAll(): seq<nat> {
    AllSymbolsLive();
    Frequencies(AllSymbols(), 260).value.table
  }

  /** read_huffman_tables accepts this input, and the code it builds is no prefix code. */
  method ReadAllSymbols()
      returns (next: Option<nat>, lenTab: array<nat>, bitsTab: array<nat>, ghost codes: seq<seq<nat>>)
    ensures next.Some? && lenTab[..] == Lengths(codes)
    ensures bitsTab.Length == |codes| == SYMBOLS
    ensures forall k :: 0 <= k < SYMBOLS ==> bitsTab[k] == Value(codes[k])
    ensures !PrefixCode(FrequenciesOfAll(), codes) && !PrefixFree(FrequenciesOfAll(), lenTab[..], bitsTab[..])
  {
    AllSymbolsLive();
    next, lenTab, bitsTab, codes := ReadHuffmanTables(AllSymbols(), 260);
    AllSymbolsNoPrefixCode(lenTab[..], bitsTab[..], codes);
    assert forall k :: 0 <= k < SYMBOLS ==> bitsTab[k] == bitsTab[..][k];
  }
}
