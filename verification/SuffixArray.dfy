/** The suffix array of a text, built by prefix doubling in three ways. */
module SuffixArrays {
  import opened SuffixOrder
  import opened SuffixGroups
  import opened SuffixRound
  import opened SuffixFirstN
  import opened SuffixParts
  import opened SuffixRanges

  /** What the appended characters look like in `rank`. */
  function Stored(chars: seq<int>): (r: seq<int>)
    ensures |r| == |chars| && forall i :: 0 <= i < |r| ==> r[i] == chars[i] + 1
  {
    seq(|chars|, i requires 0 <= i < |chars| => chars[i] + 1)
  }

  /** Storing characters one higher changes no order: the array built from the stored
      text is the suffix array of the characters. */
  lemma StoredOrder(chars: seq<int>, sa: seq<nat>)
    ensures IsSuffixArray(Stored(chars), sa) <==> IsSuffixArray(chars, sa)
  {
    var text := Stored(chars);
    forall i, j | 0 <= i <= |chars| && 0 <= j <= |chars|
      ensures LexLess(text[i..], text[j..]) <==> LexLess(chars[i..], chars[j..])
    {
      forall m: nat ensures PartAt(text[i..], text[j..], m) <==> PartAt(chars[i..], chars[j..], m) {
        StoredParts(chars, i, j, m);
      }
    }
  }

  lemma StoredParts(chars: seq<int>, i: nat, j: nat, m: nat)
    requires i <= |chars| && j <= |chars|
    ensures PartAt(Stored(chars)[i..], Stored(chars)[j..], m) <==> PartAt(chars[i..], chars[j..], m)
  {
    var a, b, a', b' := chars[i..], chars[j..], Stored(chars)[i..], Stored(chars)[j..];
    if m <= |a| && m <= |b| {
      if a[..m] == b[..m] {
        assert forall p :: 0 <= p < m ==> a'[p] == a[..m][p] + 1 && b'[p] == b[..m][p] + 1;
        assert a'[..m] == b'[..m];
      }
      if a'[..m] == b'[..m] {
        assert forall p :: 0 <= p < m ==> a[p] + 1 == a'[..m][p] && b[p] + 1 == b'[..m][p];
        assert a[..m] == b[..m];
      }
    }
  }

  class SuffixArray {
    var sa: seq<nat>
    var rank: seq<int>

    ghost predicate Valid()
      reads this
    {
      IsPerm(sa, |rank|)
    }

    constructor ()
      ensures Valid() && rank == []
    {
      sa, rank := [], [];
      new;
      assert Identity(0) == [];
    }

    /** Until the array is built, `rank` is the text. */
    method Append(ch: int)
      requires Valid()
      modifies this
      ensures Valid() && rank == old(rank) + [ch + 1]
    {
      PermFacts(sa, |rank|);
      assert Identity(|rank| + 1) == Identity(|rank|) + [|rank|];
      rank := rank + [ch + 1];
      sa := sa + [|sa|];
    }

    /** Sorts the suffixes; afterwards `rank` is the inverse of `sa`, but for a text of one
        symbol, whose rank stays that symbol. */
    method Build()
      requires Valid()
      modifies this
      ensures Valid() && IsSuffixArray(old(rank), sa)
      ensures if |sa| == 1 then rank == old(rank) else Inverse(sa, rank)
    {
      hide RankOk, Numbered, SortedTo, Cut;
      ghost var text := Text(rank, 1);
      PermFacts(sa, |rank|);
      if sa == [] {
        EmptyBuilt(text.sym, 1, sa);
        return;
      }
      sa := SortSymbols(sa, rank);
      var n, k := |sa|, 1;
      var rank2 := seq(|rank|, _ => 0);
      var distinct := 0;
      SymbolsRank(text.sym);
      assert Level(text, 1);
      while k < n && distinct != n
        invariant Ready(text, sa, rank, k) && n == |sa| && |rank2| == n
        invariant k == 1 ==> rank == text.sym && distinct == 0
        invariant k > 1 ==> n > 1 && Numbered(text, sa, rank, k, n, false)
        invariant distinct == n ==> forall i :: 0 < i < n ==> Cut(text, sa, k, i)
        decreases n - k
      {
        sa, rank2, distinct := DoublingRound(text, sa, rank, rank2, k);
        rank, rank2 := rank2, rank;
        k := k * 2;
      }
      if distinct != n {
        LongCuts(text, sa, k);
      }
      AllCut(text, sa, k);
      if k > 1 {
        NamesInvert(text, sa, rank, k, false);
      }
    }

    /** The first sort looks at `firstN` symbols at once. Whatever the text, what comes out is
        sorted window by window; it is the suffix array when `Good`. Then `rank` is its inverse,
        but a text without repeated symbols, sorted by one symbol, never gets ranks. */
    method BuildN(firstN: nat)
      requires Valid() && firstN >= 1
      modifies this
      ensures Valid() && Built(old(rank), firstN, sa)
      ensures Good(old(rank), firstN) ==> IsSuffixArray(old(rank), sa)
      ensures Good(old(rank), firstN) ==>
          if firstN == 1 && AllDistinct(old(rank)) then rank == old(rank) else Inverse(sa, rank)
    {
      ghost var text := Text(rank, firstN);
      PermFacts(sa, |rank|);
      if sa == [] {
        EmptyBuilt(text.sym, firstN, sa);
        return;
      }
      var rank2, addr, distinct, k;
      sa, rank, rank2, addr, distinct := StartParts(sa, rank, firstN);
      sa, rank, distinct, k := RunParts(text, sa, rank, rank2, firstN, addr, seq(|sa| + 1, _ => 0), distinct);
      if |sa| == 1 {
        assert AllDistinct(text.sym);
      }
      FinishN(text, sa, rank, k);
    }

    /** The same with ranks that are positions all along. */
    method BuildO(firstN: nat)
      requires Valid() && firstN >= 1
      modifies this
      ensures Valid() && Built(old(rank), firstN, sa)
      ensures Good(old(rank), firstN) ==> IsSuffixArray(old(rank), sa) && Inverse(sa, rank)
    {
      ghost var text := Text(rank, firstN);
      PermFacts(sa, |rank|);
      if sa == [] {
        EmptyBuilt(text.sym, firstN, sa);
        return;
      }
      var n, k := |sa|, firstN;
      var rank2 := seq(n, _ => 0);
      var eqRange;
      assert Level(text, firstN);
      if firstN == 1 {
        sa := SortSymbols(sa, rank);
        SymbolsRank(text.sym);
        rank2, eqRange := SymbolRanges(sa, rank, rank2);
      } else {
        sa := SortFirstN(sa, rank, firstN);
        rank2, eqRange := FirstNRanges(sa, rank, firstN, rank2);
      }
      NamesRank(text, sa, rank2, k, true);
      rank := rank2;
      while k < n && eqRange != []
        invariant Ready(text, sa, rank, k) && n == |sa| && LastK(n, k) == LastK(n, firstN)
        invariant Numbered(text, sa, rank, k, n, true) && Ranges(text, sa, k, eqRange, n)
        decreases n - k
      {
        sa, rank2, eqRange := RangesRound(text, sa, rank, k, eqRange);
        rank := rank2;
        k := k * 2;
      }
      if k < n {
        NoRangesAllCut(text, sa, k);
      }
      Finish(text, sa, k);
      if Good(text.sym, firstN) {
        BuiltIsSuffixArray(text.sym, firstN, sa);
        GoodCuts(text, sa, k);
        NamesInvert(text, sa, rank, k, true);
      }
    }
  }

  /** Single symbols, or positive ones: then the padding is harmless. */
  ghost predicate Good(sym: seq<int>, firstN: nat) {
    firstN == 1 || AllAbove(sym, 1)
  }

  lemma EmptyBuilt(sym: seq<int>, firstN: nat, sa: seq<nat>)
    requires sym == [] && sa == [] && firstN > 0 && IsPerm(sa, 0)
    ensures Built(sym, firstN, sa) && IsSuffixArray(sym, sa)
  {
  }

  /** The rounds end when nothing ties or when there is nothing more to look at. */
  lemma Finish(text: Text, sa: seq<nat>, k: nat)
    requires text.win > 0 && Level(text, k) && IsPerm(sa, |text.sym|) && SortedTo(text, sa, k, |sa|)
    requires LastK(|text.sym|, k) == LastK(|text.sym|, text.win)
    requires k < |text.sym| ==> forall i :: 0 < i < |sa| ==> Cut(text, sa, k, i)
    ensures Built(text.sym, text.win, sa)
  {
    PermFacts(sa, |text.sym|);
    if k < |text.sym| {
      CutToTheEnd(text, sa, |text.sym|, k);
    }
  }

  lemma GoodCuts(text: Text, sa: seq<nat>, k: nat)
    requires Good(text.sym, text.win) && Level(text, k) && IsPerm(sa, |text.sym|)
    requires k < |text.sym| ==> forall i :: 0 < i < |sa| ==> Cut(text, sa, k, i)
    ensures forall i :: 0 < i < |sa| ==> Cut(text, sa, k, i)
  {
    PermFacts(sa, |text.sym|);
    if k >= |text.sym| {
      forall i | 0 < i < |sa| ensures Cut(text, sa, k, i) {
        if text.win > 1 {
          WindowsAreSymbols(text.sym, text.win, sa[i - 1], sa[i], k);
        }
        AllDiffer(Text(text.sym, 1), sa[i - 1], sa[i], k);
      }
    }
  }

  /** The first sort of `build_n` and its groups. */
  method StartParts(sa0: seq<nat>, rank0: seq<int>, firstN: nat)
    returns (sa: seq<nat>, rank: seq<int>, rank2: seq<int>, addr: seq<nat>, distinct: nat)
    requires IsPerm(sa0, |rank0|) && firstN > 0 && rank0 != []
    ensures Ready(Text(rank0, firstN), sa, rank, firstN) && |sa| == |rank2| == |rank0| && |addr| == |sa| + 1
    ensures Parts(Text(rank0, firstN), sa, firstN, addr, distinct, |sa|)
    ensures firstN == 1 ==> rank == rank0 && (distinct == |sa| <==> AllDistinct(rank0))
    ensures firstN > 1 ==> Numbered(Text(rank0, firstN), sa, rank, firstN, |sa|, false)
  {
    hide Parts, RankOk, Numbered, SortedTo, AllDistinct;
    ghost var text := Text(rank0, firstN);
    var n := |rank0|;
    rank, rank2, addr := rank0, seq(n, _ => 0), seq(n + 1, _ => 0);
    assert Whole(firstN - firstN, firstN);
    if firstN == 1 {
      sa := SortSymbols(sa0, rank);
      SymbolsRank(rank);
      addr, distinct := SymbolParts(sa, rank, addr);
      DistinctSymbols(rank, sa);
    } else {
      sa := SortFirstN(sa0, rank, firstN);
      rank2, addr, distinct := FirstNParts(sa, rank, firstN, rank2, addr);
      NamesRank(text, sa, rank2, firstN, false);
      rank, rank2 := rank2, rank;
    }
    PartsSingles(text, sa, firstN, addr, distinct);
  }

  lemma FinishN(text: Text, sa: seq<nat>, rank: seq<int>, k: nat)
    requires Ready(text, sa, rank, k) && LastK(|text.sym|, k) == LastK(|text.sym|, text.win) && text.sym != []
    requires k < |sa| ==> forall i :: 0 < i < |sa| ==> Cut(text, sa, k, i)
    requires (rank == text.sym && text.win == 1 && AllDistinct(text.sym)) || Numbered(text, sa, rank, k, |sa|, false)
    ensures Built(text.sym, text.win, sa) && (Good(text.sym, text.win) ==> IsSuffixArray(text.sym, sa))
    ensures Good(text.sym, text.win) && !(rank == text.sym && text.win == 1 && AllDistinct(text.sym)) ==>
        Inverse(sa, rank)
  {
    hide RankOk, Numbered, SortedTo, AllDistinct;
    Finish(text, sa, k);
    if Good(text.sym, text.win) {
      BuiltIsSuffixArray(text.sym, text.win, sa);
      GoodCuts(text, sa, k);
      if Numbered(text, sa, rank, k, |sa|, false) {
        NamesInvert(text, sa, rank, k, false);
      }
    }
  }

  /** The rounds of `build_n`. */
  method RunParts(ghost text: Text, sa0: seq<nat>, rank0: seq<int>, rank1: seq<int>, k0: nat, addr0: seq<nat>,
                  addr1: seq<nat>, distinct0: nat)
    returns (sa: seq<nat>, rank: seq<int>, distinct: nat, k: nat)
    requires Ready(text, sa0, rank0, k0) && |sa0| == |rank1| > 0 && |addr1| == |sa0| + 1 && addr1[0] == 0
    requires Parts(text, sa0, k0, addr0, distinct0, |sa0|) && |addr0| == |sa0| + 1
    requires k0 == 1 || Numbered(text, sa0, rank0, k0, |sa0|, false)
    ensures Ready(text, sa, rank, k) && LastK(|sa|, k) == LastK(|sa|, k0)
    ensures k < |sa| ==> forall i :: 0 < i < |sa| ==> Cut(text, sa, k, i)
    ensures if distinct0 == |sa0| || |sa0| <= k0
        then k == k0 && sa == sa0 && rank == rank0 else Numbered(text, sa, rank, k, |sa|, false)
  {
    sa, rank, distinct, k := sa0, rank0, distinct0, k0;
    var n, rank2, addr, addr2 := |sa|, rank1, addr0, addr1;
    PermFacts(sa, |text.sym|);
    while k < n && distinct != n
      invariant Ready(text, sa, rank, k) && n == |sa| == |rank2| == |sa0| && |addr2| == n + 1 && addr2[0] == 0
      invariant Parts(text, sa, k, addr, distinct, n) && |addr| == n + 1 && LastK(n, k) == LastK(n, k0)
      invariant (k == k0 && sa == sa0 && rank == rank0 && distinct == distinct0)
        || (distinct0 != n > k0 && Numbered(text, sa, rank, k, n, false))
      decreases n - k
    {
      var distinct2;
      sa, rank2, addr2, distinct2 := PartsRound(text, sa, rank, rank2, k, addr, distinct, addr2);
      addr, addr2 := addr2, addr;
      rank, rank2 := rank2, rank;
      distinct := distinct2;
      k := k * 2;
    }
    PartsSingles(text, sa, k, addr, distinct);
  }

  /** One round of `build`: every run of equal ranks is sorted and renumbered. */
  method DoublingRound(ghost text: Text, sa0: seq<nat>, rank: seq<int>, rank0: seq<int>, k: nat)
    returns (sa: seq<nat>, rank2: seq<int>, distinct: nat)
    requires Ready(text, sa0, rank, k) && |rank0| == |text.sym| && |text.sym| > 0
    ensures Ready(text, sa, rank2, 2 * k) && Numbered(text, sa, rank2, 2 * k, |sa|, false)
    ensures distinct == |sa| ==> forall i :: 0 < i < |sa| ==> Cut(text, sa, 2 * k, i)
  {
    sa, rank2, distinct := sa0, rank0, 0;
    var distinct2, i := 0, 0;
    PermFacts(sa, |text.sym|);
    while i != |sa|
      invariant |sa| == |text.sym| && Between(text, sa, rank, rank2, k, i, distinct2, false)
      invariant distinct <= i && (distinct == i ==> forall a :: 0 < a < i ==> Cut(text, sa, k, a))
      decreases |sa| - i
    {
      PermFacts(sa, |text.sym|);
      var low := i;
      i := GroupEnd(sa, rank, low);
      RunIsGroup(text, sa, rank, k, low, i);
      ghost var before := sa;
      sa := SortGroup(text, sa, rank, k, low, i);
      StartCutting(text, before, sa, rank, rank2, k, low, i, distinct2, false);
      TieAlongKeeps(text, before, sa, k);
      rank2, distinct2 := SplitRanks(text, sa, rank, rank2, k, low, i, distinct2);
      distinct := distinct + 1;
    }
    RoundDone(text, sa, rank, rank2, k, distinct2, false);
    if distinct == |sa| {
      forall a | 0 < a < |sa| ensures Cut(text, sa, 2 * k, a) {
        CutStays(text, sa, k, a);
      }
    }
  }

  /** Renumbers one sorted group, counting the groups of `2k` symbols. */
  method SplitRanks(ghost text: Text, sa: seq<nat>, rank: seq<int>, rank0: seq<int>, k: nat, low: nat, upp: nat,
                    name: int)
    returns (rank2: seq<int>, distinct2: int)
    requires Cutting(text, sa, rank, rank0, k, low, upp, low, name, false)
    ensures Between(text, sa, rank, rank2, k, upp, distinct2, false)
  {
    hide Numbered, NextName, Ready, Tied, SortedTo;
    rank2, distinct2 := rank0, name;
    var j := low;
    while j != upp
      invariant Cutting(text, sa, rank, rank2, k, low, upp, j, distinct2, false)
      decreases upp - j
    {
      rank2, j := CutNext(text, sa, rank, rank2, k, low, upp, j, distinct2, false);
      distinct2 := distinct2 + 1;
    }
    DoneCutting(text, sa, rank, rank2, k, low, upp, distinct2, false);
  }
}
