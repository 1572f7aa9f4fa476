/** The first sort of the suffixes, by one symbol or by `FirstN` symbols of the text
    followed by zeros. */
module SuffixFirstN {
  import opened SuffixOrder
  import opened SuffixGroups

  // ---- by one symbol

  /** `std::sort` with `Comp0`. */
  method SortSymbols(sa: seq<nat>, rank: seq<int>) returns (r: seq<nat>)
    requires IsPerm(sa, |rank|)
    ensures IsPerm(r, |rank|) && |r| == |rank| && SortedTo(Text(rank, 1), r, 1, |rank|)
  {
    PermFacts(sa, |rank|);
    var n := |rank|;
    r := StdSort(sa, (x: nat, y: nat) => x < n && y < n && rank[x] < rank[y]);
    PermFacts(r, n);
    SymbolsRank(rank);
    forall a, b | 0 <= a < b < n ensures Cmp(Text(rank, 1), r[a], r[b], 1) <= 0 {
      assert Sign(rank[r[a]] - rank[r[b]]) == Cmp(Text(rank, 1), r[a], r[b], 1);
    }
  }

  ghost predicate AllDistinct(sym: seq<int>) {
    forall x, y :: 0 <= x < y < |sym| ==> sym[x] != sym[y]
  }

  /** One symbol separates everything exactly when no symbol repeats. */
  lemma DistinctSymbols(sym: seq<int>, sa: seq<nat>)
    requires IsPerm(sa, |sym|) && SortedTo(Text(sym, 1), sa, 1, |sym|)
    ensures AllDistinct(sym) <==> forall i :: 0 < i < |sa| ==> Cut(Text(sym, 1), sa, 1, i)
  {
    PermFacts(sa, |sym|);
    SymbolsRank(sym);
    if AllDistinct(sym) {
      forall i | 0 < i < |sa| ensures Cut(Text(sym, 1), sa, 1, i) {
        assert Sign(sym[sa[i - 1]] - sym[sa[i]]) == Cmp(Text(sym, 1), sa[i - 1], sa[i], 1);
      }
    }
    if forall i :: 0 < i < |sa| ==> Cut(Text(sym, 1), sa, 1, i) {
      forall x, y | 0 <= x < y < |sym| ensures sym[x] != sym[y] {
        PairDiffers(sym, sa, x, y);
      }
    }
  }

  lemma PairDiffers(sym: seq<int>, sa: seq<nat>, x: nat, y: nat)
    requires IsPerm(sa, |sym|) && SortedTo(Text(sym, 1), sa, 1, |sym|) && x < y < |sym|
    requires forall i :: 0 < i < |sa| ==> Cut(Text(sym, 1), sa, 1, i)
    ensures sym[x] != sym[y]
  {
    var text := Text(sym, 1);
    PermFacts(sa, |sym|);
    SymbolsRank(sym);
    assert x in sa && y in sa;
    var a :| 0 <= a < |sa| && sa[a] == x;
    var b :| 0 <= b < |sa| && sa[b] == y;
    assert Sign(sym[x] - sym[y]) == Cmp(text, x, y, 1) && Sign(sym[y] - sym[x]) == Cmp(text, y, x, 1);
    if a < b {
      CutSeparates(text, sa, 1, b, a, b);
    } else {
      CutSeparates(text, sa, 1, a, b, a);
    }
  }

  // ---- by the first symbols of the padded text

  function Padded(text: seq<int>, firstN: nat): (p: seq<int>)
    requires firstN > 0
    ensures |p| == |text| + firstN - 1 && p[..|text|] == text
    ensures forall i :: |text| <= i < |p| ==> p[i] == 0
  {
    text + seq(firstN - 1, _ => 0)
  }

  /** `CompFirstN::operator()`. */
  predicate CompFirstN(p: seq<int>, firstN: nat, x: nat, y: nat)
    requires x + firstN <= |p| && y + firstN <= |p|
    decreases firstN
  {
    firstN > 0 && if p[x] != p[y] then p[x] < p[y] else CompFirstN(p, firstN - 1, x + 1, y + 1)
  }

  /** `CompFirstN::equal`. */
  predicate EqualFirstN(p: seq<int>, firstN: nat, x: nat, y: nat)
    requires x + firstN <= |p| && y + firstN <= |p|
    decreases firstN
  {
    firstN == 0 || (p[x] == p[y] && EqualFirstN(p, firstN - 1, x + 1, y + 1))
  }

  ghost predicate AllAbove(text: seq<int>, lo: int) {
    forall i :: 0 <= i < |text| ==> text[i] >= lo
  }

  /** On any text, the comparator compares windows. */
  lemma {:induction false} ComparesWindows(sym: seq<int>, p: seq<int>, m: nat, x: nat, y: nat)
    requires |p| >= |sym| && p[..|sym|] == sym && forall i :: |sym| <= i < |p| ==> p[i] == 0
    requires x + m <= |p| && y + m <= |p|
    ensures CompFirstN(p, m, x, y) <==> WinCmp(sym, x, y, m) < 0
    ensures EqualFirstN(p, m, x, y) <==> WinCmp(sym, x, y, m) == 0
    decreases m
  {
    if m > 0 {
      ComparesWindows(sym, p, m - 1, x + 1, y + 1);
      assert x < |sym| ==> p[x] == p[..|sym|][x];
      assert y < |sym| ==> p[y] == p[..|sym|][y];
    }
  }

  /** `std::sort` with `CompFirstN`. */
  method SortFirstN(sa: seq<nat>, rank: seq<int>, firstN: nat) returns (r: seq<nat>)
    requires IsPerm(sa, |rank|) && firstN > 0
    ensures IsPerm(r, |rank|) && |r| == |rank| && SortedTo(Text(rank, firstN), r, firstN, |rank|)
  {
    ghost var text := Text(rank, firstN);
    PermFacts(sa, |rank|);
    var p := Padded(rank, firstN);
    var less := (x: nat, y: nat) => x + firstN <= |p| && y + firstN <= |p| && CompFirstN(p, firstN, x, y);
    forall x: nat, y: nat | x < |rank| && y < |rank| ensures less(x, y) <==> Cmp(text, x, y, firstN) < 0 {
      ComparesWindows(rank, p, firstN, x, y);
      OneWindow(text, x, y);
    }
    FirstNWeakOrder(text, firstN, less, sa);
    r := StdSort(sa, less);
    PermFacts(r, |rank|);
    forall a, b | 0 <= a < b < |rank| ensures Cmp(text, r[a], r[b], firstN) <= 0 {
      CmpSwap(text, r[a], r[b], firstN);
    }
  }

  lemma OneWindow(text: Text, x: nat, y: nat)
    requires text.win > 0 && x < |text.sym| && y < |text.sym|
    ensures Cmp(text, x, y, text.win) == WinCmp(text.sym, x, y, text.win) && Level(text, text.win)
  {
    assert Cmp(text, x + text.win, y + text.win, 0) == 0;
  }

  lemma FirstNWeakOrder(text: Text, k: nat, less: (nat, nat) -> bool, s: seq<nat>)
    requires forall x :: x in s ==> x < |text.sym|
    requires forall x: nat, y: nat :: x < |text.sym| && y < |text.sym| ==> (less(x, y) <==> Cmp(text, x, y, k) < 0)
    ensures WeakOrder(less, s)
  {
    forall x, y | x in s && y in s && less(x, y) ensures !less(y, x) {
      CmpSwap(text, x, y, k);
    }
    forall x, y, z | x in s && y in s && z in s && !less(y, x) && !less(z, y) ensures !less(z, x) {
      CmpSwap(text, x, y, k);
      CmpSwap(text, y, z, k);
      CmpSwap(text, x, z, k);
      CmpTrans(text, x, y, z, k);
    }
  }

  // ---- when the built array is the suffix array

  /** Over positive symbols the zeros of the padding stand for the end of the text. */
  lemma {:induction false} PaddingEndsText(sym: seq<int>, x: nat, y: nat, m: nat)
    requires AllAbove(sym, 1) && x <= |sym| && y <= |sym|
    ensures WinCmp(sym, x, y, m) == Cmp(Text(sym, 1), x, y, m)
    decreases m
  {
    if m > 0 {
      if x < |sym| && y < |sym| {
        PaddingEndsText(sym, x + 1, y + 1, m - 1);
        assert WinCmp(sym, x + 1, y + 1, 0) == 0;
      } else if x == y {
        WinSelf(sym, x, m);
      }
    }
  }

  lemma {:induction false} WholeOnes(k: nat)
    ensures Whole(k, 1)
  {
    if k > 0 {
      WholeOnes(k - 1);
    }
  }

  /** So comparing windows is comparing symbols. */
  lemma {:induction false} WindowsAreSymbols(sym: seq<int>, m: nat, x: nat, y: nat, k: nat)
    requires m > 0 && AllAbove(sym, 1) && x <= |sym| && y <= |sym| && Whole(k, m)
    ensures Cmp(Text(sym, m), x, y, k) == Cmp(Text(sym, 1), x, y, k)
    decreases k
  {
    if x == y {
      CmpSelf(Text(sym, m), x, k);
      CmpSelf(Text(sym, 1), x, k);
    } else if k > 0 && x < |sym| && y < |sym| {
      PaddingEndsText(sym, x, y, m);
      WholeOnes(m);
      if k > m {
        CmpSplit(Text(sym, 1), x, y, m, k - m);
      }
      if WinCmp(sym, x, y, m) == 0 {
        TieInside(sym, x, y, m);
        WindowsAreSymbols(sym, m, x + m, y + m, k - m);
      }
    }
  }

  lemma TieInside(sym: seq<int>, x: nat, y: nat, m: nat)
    requires x < |sym| && y < |sym| && x != y && Cmp(Text(sym, 1), x, y, m) == 0
    ensures x + m <= |sym| && y + m <= |sym|
  {
    CmpSwap(Text(sym, 1), x, y, m);
    if x < y {
      TieFits(Text(sym, 1), x, y, m);
    } else {
      TieFits(Text(sym, 1), y, x, m);
    }
  }

  /** What is built is the suffix array if windows are single symbols or symbols positive. */
  lemma BuiltIsSuffixArray(sym: seq<int>, m: nat, sa: seq<nat>)
    requires m > 0 && Built(sym, m, sa) && (m == 1 || AllAbove(sym, 1))
    ensures IsSuffixArray(sym, sa)
  {
    var k := LastK(|sym|, m);
    assert Whole(m, m);
    LastKFits(Text(sym, m), |sym|, m);
    PermFacts(sa, |sym|);
    forall a, b | 0 <= a < b < |sa| ensures Cmp(Text(sym, 1), sa[a], sa[b], k) < 0 {
      if m > 1 {
        WindowsAreSymbols(sym, m, sa[a], sa[b], k);
      }
      AllDiffer(Text(sym, 1), sa[a], sa[b], k);
    }
    SortedIsSuffixArray(sym, sa, k);
  }

  /** Whatever the least symbol `lo` of an alphabet: for all its texts and all lengths of the
      first sort, everything that can be built is the suffix array, exactly when `lo` is
      positive. Appended characters are stored one higher, so: when they are not negative. */
  lemma BuiltNeedsPositive(lo: int)
    ensures (forall sym, m: nat, sa :: m > 0 && AllAbove(sym, lo) && Built(sym, m, sa) ==> IsSuffixArray(sym, sa))
      <==> lo > 0
  {
    if lo > 0 {
      forall sym, m: nat, sa | m > 0 && AllAbove(sym, lo) && Built(sym, m, sa) ensures IsSuffixArray(sym, sa) {
        BuiltIsSuffixArray(sym, m, sa);
      }
    } else {
      TwoSymbols(lo);
      assert AllAbove([lo, lo], lo);
    }
  }

  /** Two equal symbols that are not positive, first sorted by two: the longer suffix may come
      first, and must if they are negative. No round follows, since two is not below two. */
  lemma TwoSymbols(c: int)
    requires c <= 0
    ensures Built([c, c], 2, [0, 1]) && !IsSuffixArray([c, c], [0, 1])
    ensures LastK(2, 2) == 2
    ensures c < 0 ==> forall sa :: Built([c, c], 2, sa) ==> sa == [0, 1]
  {
    var sym, text := [c, c], Text([c, c], 2);
    assert WinCmp(sym, 2, 3, 0) == 0 && WinCmp(sym, 1, 2, 1) == Sign(c);
    assert WinCmp(sym, 0, 1, 2) == Sign(c) && Cmp(text, 2, 3, 0) == 0;
    assert Cmp(text, 0, 1, 2) == Sign(c);
    assert Identity(2) == [0, 1];
    assert PartAt(sym[1..], sym[0..], 1);
    LexAsym(sym[1..], sym[0..]);
    forall sa | c < 0 && Built(sym, 2, sa) ensures sa == [0, 1] {
      PermFacts(sa, 2);
      CmpSwap(text, 0, 1, 2);
      assert Cmp(text, sa[0], sa[1], 2) <= 0;
    }
  }
}
