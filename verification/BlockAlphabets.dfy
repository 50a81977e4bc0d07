/**
  The eight prefix-code alphabets of P-frame blocks, and the choice of an alphabet by block size.
 */
module BlockAlphabets {
  import opened Sums

  /** (code, length) of the symbols 0 to 6; length 0 means the alphabet lacks the symbol. */
  type Alphabet = a: seq<(nat, nat)> | |a| == 7 && forall i :: 0 <= i < 7 ==> a[i].1 <= 5
    witness seq(7, _ => (0, 0))

  /** block_type_tab: table 0 for version 2 and up, table 1 before. */
  function BlockTypes(table: nat, index: nat): Alphabet
    requires table < 2 && index < 4
  {
    if table == 0 then
      match index
      case 0 => [(0, 1), (2, 2), (6, 3), (14, 4), (30, 5), (31, 5), (0, 0)]
      case 1 => [(0, 1), (0, 0), (2, 2), (6, 3), (14, 4), (15, 4), (0, 0)]
      case 2 => [(0, 1), (2, 2), (0, 0), (6, 3), (14, 4), (15, 4), (0, 0)]
      case _ => [(0, 1), (0, 0), (0, 0), (2, 2), (6, 3), (14, 4), (15, 4)]
    else
      match index
      case 0 => [(1, 2), (4, 3), (5, 3), (0, 2), (6, 3), (7, 3), (0, 0)]
      case 1 => [(1, 2), (0, 0), (2, 2), (0, 2), (6, 3), (7, 3), (0, 0)]
      case 2 => [(1, 2), (2, 2), (0, 0), (0, 2), (6, 3), (7, 3), (0, 0)]
      case _ => [(1, 2), (0, 0), (0, 0), (0, 2), (2, 2), (6, 3), (7, 3)]
  }

  /** size2index; the unsigned entry for a 1x1 block is -1 wrapped to 255. */
  function SizeToIndex(log2h: nat, log2w: nat): nat
    requires log2h < 4 && log2w < 4
  {
    if log2h == 0 then (if log2w == 0 then 255 else if log2w == 1 then 3 else 1)
    else if log2w == 0 then (if log2h == 1 then 3 else 2)
    else 0
  }

  /** Symbol s is what the five-bit window w starts with. */
  predicate Starts(a: Alphabet, s: nat, w: nat)
    requires s < 7
  {
    a[s].1 > 0 && w / Pow2(5 - a[s].1) == a[s].0
  }

  /** The symbol that get_vlc2 finds in the window, or 7. */
  function Symbol(a: Alphabet, w: nat): nat {
    if Starts(a, 0, w) then 0
    else if Starts(a, 1, w) then 1
    else if Starts(a, 2, w) then 2
    else if Starts(a, 3, w) then 3
    else if Starts(a, 4, w) then 4
    else if Starts(a, 5, w) then 5
    else if Starts(a, 6, w) then 6
    else 7
  }

  lemma PowerValues()
    ensures Pow2(0) == 1 && Pow2(1) == 2 && Pow2(2) == 4 && Pow2(3) == 8 && Pow2(4) == 16 && Pow2(5) == 32
  {
  }

  /** Exactly one symbol starts the window w. */
  predicate Unambiguous(a: Alphabet, w: nat) {
    Symbol(a, w) < 7 && forall s :: 0 <= s < 7 ==> (Starts(a, s, w) <==> s == Symbol(a, w))
  }

  lemma CompleteFromVersion2(index: nat, w: nat)
    requires index < 4 && w < 32
    ensures Unambiguous(BlockTypes(0, index), w)
  {
    PowerValues();
    match index
    case 0 =>
    case 1 =>
    case 2 =>
    case _ =>
  }

  lemma CompleteBeforeVersion2(index: nat, w: nat)
    requires index < 4 && w < 32
    ensures Unambiguous(BlockTypes(1, index), w)
  {
    PowerValues();
  }

  /** Every alphabet is complete: each five-bit window starts with exactly one symbol, 0 to 6. */
  lemma Complete(table: nat, index: nat, w: nat)
    requires table < 2 && index < 4 && w < 32
    ensures Unambiguous(BlockTypes(table, index), w)
  {
    if table == 0 {
      CompleteFromVersion2(index, w);
    } else {
      CompleteBeforeVersion2(index, w);
    }
  }

  /** Which symbols an alphabet lacks decides which blocks can be split and which can be raw. */
  lemma Splits(table: nat, log2w: nat, log2h: nat)
    requires table < 2 && log2w < 4 && log2h < 4 && log2w + log2h > 0
    ensures SizeToIndex(log2h, log2w) < 4
    ensures
      var a := BlockTypes(table, SizeToIndex(log2h, log2w));
      && (a[1].1 > 0 <==> log2h > 0 && log2w + log2h > 1)
      && (a[2].1 > 0 <==> log2w > 0 && log2w + log2h > 1)
      && (a[6].1 > 0 <==> log2w + log2h == 1)
  {
  }
}
