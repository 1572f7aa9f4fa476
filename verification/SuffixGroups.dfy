/** One doubling round, seen as positions of the suffix array: groups of suffixes that
    tie on `k` symbols are sorted and cut into groups that tie on `2k` symbols. */
module SuffixGroups {
  import opened Basics
  import opened SuffixOrder

  // ---- std::sort

  /** What `std::sort` asks of its comparator on the elements it is given. */
  ghost predicate WeakOrder(less: (nat, nat) -> bool, s: seq<nat>) {
    && (forall x, y :: x in s && y in s && less(x, y) ==> !less(y, x))
    && (forall x, y, z :: x in s && y in s && z in s && !less(y, x) && !less(z, y) ==> !less(z, x))
  }

  ghost predicate OrderedBy(less: (nat, nat) -> bool, s: seq<nat>) {
    forall i, j :: 0 <= i < j < |s| ==> !less(s[j], s[i])
  }

  /** Stands for `std::sort`: only its contract is used. */
  method StdSort(s: seq<nat>, less: (nat, nat) -> bool) returns (r: seq<nat>)
    requires WeakOrder(less, s)
    ensures multiset(r) == multiset(s) && |r| == |s| && OrderedBy(less, r)
  {
    r := [];
    var i := 0;
    while i < |s|
      invariant 0 <= i <= |s| && |r| == i
      invariant multiset(r) == multiset(s[..i])
      invariant OrderedBy(less, r)
    {
      var x := s[i];
      var p := |r|;
      while p > 0 && less(x, r[p - 1])
        invariant 0 <= p <= |r|
        invariant forall q :: p <= q < |r| ==> less(x, r[q])
      {
        p := p - 1;
      }
      InsertOrdered(s, less, r, i, p);
      InsertAdds(r, p, x);
      r := InsertAt(r, p, x);
      assert s[..i + 1] == s[..i] + [s[i]];
      i := i + 1;
    }
    assert s[..i] == s;
  }

  lemma InsertAdds(s: seq<nat>, i: nat, x: nat)
    requires i <= |s|
    ensures multiset(InsertAt(s, i, x)) == multiset(s) + multiset{x}
  {
    assert s == s[..i] + s[i..];
  }

  lemma InsertOrdered(s: seq<nat>, less: (nat, nat) -> bool, r: seq<nat>, i: nat, p: nat)
    requires WeakOrder(less, s) && i < |s| && multiset(r) == multiset(s[..i]) && OrderedBy(less, r)
    requires p <= |r| && (forall q :: p <= q < |r| ==> less(s[i], r[q])) && (p > 0 ==> !less(s[i], r[p - 1]))
    ensures OrderedBy(less, InsertAt(r, p, s[i]))
  {
    var x := s[i];
    var t := InsertAt(r, p, x);
    forall q | 0 <= q < |r| ensures r[q] in s {
      assert r[q] in multiset(r);
      assert r[q] in s[..i];
    }
    forall a, b | 0 <= a < b < |t| ensures !less(t[b], t[a]) {
      if b == p {
        assert t[a] == r[a];
        assert a < p - 1 ==> !less(r[p - 1], r[a]);
      } else if a == p {
        assert t[b] == r[b - 1];
      }
    }
  }

  // ---- groups

  /** The suffixes at positions `low` to `upp` tie on `k` symbols. */
  ghost predicate Tied(text: Text, sa: seq<nat>, k: nat, low: nat, upp: nat) {
    low <= upp <= |sa| && forall a, b :: low <= a < upp && low <= b < upp ==> Cmp(text, sa[a], sa[b], k) == 0
  }

  /** Position `i` starts a group. */
  ghost predicate Cut(text: Text, sa: seq<nat>, k: nat, i: nat) {
    i <= |sa| && (0 < i < |sa| ==> Cmp(text, sa[i - 1], sa[i], k) != 0)
  }

  /** Everything before a cut is smaller than everything after it. */
  lemma CutSeparates(text: Text, sa: seq<nat>, k: nat, i: nat, a: nat, b: nat)
    requires SortedTo(text, sa, k, |sa|) && Cut(text, sa, k, i) && a < i <= b < |sa|
    ensures Cmp(text, sa[a], sa[b], k) < 0
  {
    if a < i - 1 {
      CmpTrans(text, sa[a], sa[i - 1], sa[i], k);
    }
    if i < b {
      CmpTrans(text, sa[a], sa[i], sa[b], k);
    }
  }

  /** More symbols keep what fewer decided. */
  lemma CmpExtends(text: Text, i: nat, j: nat, k: nat)
    requires Level(text, k)
    ensures Cmp(text, i, j, k) != 0 ==> Cmp(text, i, j, 2 * k) == Cmp(text, i, j, k)
  {
    CmpSplit(text, i, j, k, k);
  }

  lemma CutStays(text: Text, sa: seq<nat>, k: nat, i: nat)
    requires Level(text, k) && Cut(text, sa, k, i)
    ensures Cut(text, sa, 2 * k, i)
  {
    if 0 < i < |sa| {
      CmpExtends(text, sa[i - 1], sa[i], k);
    }
  }

  /** Sorting one group by `2k` symbols extends the sorted part over it. */
  lemma ExtendSorted(text: Text, sa: seq<nat>, k: nat, low: nat, upp: nat)
    requires Level(text, k) && SortedTo(text, sa, k, |sa|) && Cut(text, sa, k, low) && low <= upp <= |sa|
    requires SortedTo(text, sa, 2 * k, low)
    requires forall a, b :: low <= a < b < upp ==> Cmp(text, sa[a], sa[b], 2 * k) <= 0
    ensures SortedTo(text, sa, 2 * k, upp)
  {
    forall a, b | 0 <= a < b < upp ensures Cmp(text, sa[a], sa[b], 2 * k) <= 0 {
      if a < low <= b {
        CutSeparates(text, sa, k, low, a, b);
        CmpExtends(text, sa[a], sa[b], k);
      }
    }
  }

  /** A stretch of groups of one needs no sorting. */
  lemma {:induction false} ExtendOverSingles(text: Text, sa: seq<nat>, k: nat, low: nat, upp: nat)
    requires Level(text, k) && SortedTo(text, sa, k, |sa|) && low <= upp <= |sa| && SortedTo(text, sa, 2 * k, low)
    requires forall a :: low <= a < upp ==> Cut(text, sa, k, a)
    ensures SortedTo(text, sa, 2 * k, upp)
    decreases upp
  {
    if low < upp {
      ExtendOverSingles(text, sa, k, low, upp - 1);
      ExtendSorted(text, sa, k, upp - 1, upp);
    }
  }

  // ---- rearranging inside groups

  /** Position by position, the two arrays tie on `k` symbols. */
  ghost predicate TieAlong(text: Text, s: seq<nat>, t: seq<nat>, k: nat) {
    |s| == |t| && forall a :: 0 <= a < |s| ==> Cmp(text, s[a], t[a], k) == 0
  }

  lemma CmpCongruent(text: Text, x: nat, x': nat, y: nat, y': nat, k: nat)
    requires Cmp(text, x, x', k) == 0 && Cmp(text, y, y', k) == 0
    ensures Cmp(text, x, y, k) == Cmp(text, x', y', k)
  {
    CmpSwap(text, x, x', k);
    CmpSwap(text, y, y', k);
    CmpSwap(text, x, y, k);
    CmpSwap(text, x', y', k);
    if Cmp(text, x, y, k) <= 0 {
      CmpChain(text, x', x, y, k);
      CmpChain(text, x', y, y', k);
    } else {
      CmpChain(text, y', y, x, k);
      CmpChain(text, y', x, x', k);
    }
  }

  lemma TieAlongKeeps(text: Text, s: seq<nat>, t: seq<nat>, k: nat)
    requires TieAlong(text, s, t, k) && SortedTo(text, s, k, |s|)
    ensures SortedTo(text, t, k, |t|)
    ensures forall i: nat :: Cut(text, t, k, i) <==> Cut(text, s, k, i)
    ensures forall l: nat, u: nat :: Tied(text, s, k, l, u) ==> Tied(text, t, k, l, u)
  {
    forall a, b | 0 <= a < |s| && 0 <= b < |s| ensures Cmp(text, t[a], t[b], k) == Cmp(text, s[a], s[b], k) {
      CmpCongruent(text, s[a], t[a], s[b], t[b], k);
    }
  }

  // ---- ranks along the array

  /** Along the array, the rank at `a` stays inside a group and goes up at a cut: to the
      position itself when ranks are group starts, by one when they count groups. */
  ghost predicate Name(text: Text, sa: seq<nat>, rank: seq<int>, k: nat, a: nat, byStart: bool)
    requires a < |sa| && sa[a] < |rank| && (a > 0 ==> sa[a - 1] < |rank|)
  {
    rank[sa[a]] ==
    if a == 0 then 0
    else if Cmp(text, sa[a - 1], sa[a], k) == 0 then rank[sa[a - 1]]
    else if byStart then a else rank[sa[a - 1]] + 1
  }

  ghost predicate Numbered(text: Text, sa: seq<nat>, rank: seq<int>, k: nat, m: nat, byStart: bool) {
    && m <= |sa| && (forall a :: 0 <= a < |sa| ==> sa[a] < |rank|)
    && forall a :: 0 <= a < m ==> Name(text, sa, rank, k, a, byStart)
  }

  lemma {:induction false} NameBound(text: Text, sa: seq<nat>, rank: seq<int>, k: nat, m: nat, byStart: bool, a: nat)
    requires Numbered(text, sa, rank, k, m, byStart) && a < m
    ensures 0 <= rank[sa[a]] <= a
    ensures (forall b :: 0 < b <= a ==> Cut(text, sa, k, b)) ==> rank[sa[a]] == a
    decreases a
  {
    assert Name(text, sa, rank, k, a, byStart);
    if a > 0 {
      NameBound(text, sa, rank, k, m, byStart, a - 1);
      assert (forall b :: 0 < b <= a ==> Cut(text, sa, k, b)) ==> Cut(text, sa, k, a);
    }
  }

  lemma {:induction false} NamesOrder(text: Text, sa: seq<nat>, rank: seq<int>, k: nat, byStart: bool, a: nat, b: nat)
    requires SortedTo(text, sa, k, |sa|) && Numbered(text, sa, rank, k, |sa|, byStart) && a <= b < |sa|
    ensures Sign(rank[sa[a]] - rank[sa[b]]) == Cmp(text, sa[a], sa[b], k)
    decreases b
  {
    if a == b {
      CmpSelf(text, sa[a], k);
    } else {
      NamesOrder(text, sa, rank, k, byStart, a, b - 1);
      assert Name(text, sa, rank, k, b, byStart);
      NameBound(text, sa, rank, k, |sa|, byStart, b - 1);
      CmpChain(text, sa[a], sa[b - 1], sa[b], k);
    }
  }

  /** Ranks given along a sorted array order and identify the suffixes. */
  lemma NamesRank(text: Text, sa: seq<nat>, rank: seq<int>, k: nat, byStart: bool)
    requires IsPerm(sa, |text.sym|) && |rank| == |text.sym|
    requires SortedTo(text, sa, k, |text.sym|) && Numbered(text, sa, rank, k, |text.sym|, byStart)
    ensures RankOk(text, rank, k)
  {
    PermFacts(sa, |text.sym|);
    forall i: nat, j: nat | i < |text.sym| && j < |text.sym| ensures Sign(rank[i] - rank[j]) == Cmp(text, i, j, k) {
      assert i in sa && j in sa;
      var a :| 0 <= a < |sa| && sa[a] == i;
      var b :| 0 <= b < |sa| && sa[b] == j;
      if a <= b {
        NamesOrder(text, sa, rank, k, byStart, a, b);
      } else {
        NamesOrder(text, sa, rank, k, byStart, b, a);
        CmpSwap(text, i, j, k);
      }
    }
  }

  /** When no suffixes tie on single symbols any more, the array is the suffix array. */
  lemma AllCut(text: Text, sa: seq<nat>, k: nat)
    requires text.win == 1 && IsPerm(sa, |text.sym|) && SortedTo(text, sa, k, |text.sym|)
    requires forall i :: 0 < i < |sa| ==> Cut(text, sa, k, i)
    ensures IsSuffixArray(text.sym, sa)
  {
    PermFacts(sa, |text.sym|);
    forall a, b | 0 <= a < b < |sa| ensures Cmp(text, sa[a], sa[b], k) != 0 {
      CutSeparates(text, sa, k, b, a, b);
    }
    SortedIsSuffixArray(text.sym, sa, k);
  }

  // ---- where the rounds end

  /** The number of symbols by which the last round sorts, when the rounds start from `k`. */
  ghost function LastK(n: nat, k: nat): (r: nat)
    requires k > 0
    decreases n - k
  {
    if k >= n then k else LastK(n, 2 * k)
  }

  lemma {:induction false} LastKFits(text: Text, n: nat, k: nat)
    requires Level(text, k)
    ensures Level(text, LastK(n, k)) && LastK(n, k) >= n && LastK(n, k) >= k
    decreases n - k
  {
    LevelDoubles(text, k);
    if k < n {
      LastKFits(text, n, 2 * k);
    }
  }

  /** Rounds left out because nothing ties would have changed nothing. */
  lemma {:induction false} CutToTheEnd(text: Text, sa: seq<nat>, n: nat, k: nat)
    requires Level(text, k) && SortedTo(text, sa, k, |sa|) && forall i :: 0 < i < |sa| ==> Cut(text, sa, k, i)
    ensures SortedTo(text, sa, LastK(n, k), |sa|)
    decreases n - k
  {
    if k < n {
      LevelDoubles(text, k);
      forall a, b | 0 <= a < b < |sa| ensures Cmp(text, sa[a], sa[b], 2 * k) <= 0 {
        CutSeparates(text, sa, k, b, a, b);
        CmpExtends(text, sa[a], sa[b], k);
      }
      forall i | 0 < i < |sa| ensures Cut(text, sa, 2 * k, i) {
        CutStays(text, sa, k, i);
      }
      CutToTheEnd(text, sa, n, 2 * k);
    }
  }

  /** What building with a first sort by `firstN` symbols gives, on any text: the suffixes in
      order of as many windows as the last round looks at. */
  ghost predicate Built(sym: seq<int>, firstN: nat, sa: seq<nat>)
    requires firstN > 0
  {
    IsPerm(sa, |sym|) && SortedTo(Text(sym, firstN), sa, LastK(|sym|, firstN), |sym|)
  }

  ghost predicate Inverse(sa: seq<nat>, rank: seq<int>) {
    forall a :: 0 <= a < |sa| ==> sa[a] < |rank| && rank[sa[a]] == a
  }

  lemma NamesInvert(text: Text, sa: seq<nat>, rank: seq<int>, k: nat, byStart: bool)
    requires Numbered(text, sa, rank, k, |sa|, byStart)
    requires forall i :: 0 < i < |sa| ==> Cut(text, sa, k, i)
    ensures Inverse(sa, rank)
  {
    forall a | 0 <= a < |sa| ensures rank[sa[a]] == a {
      NameBound(text, sa, rank, k, |sa|, byStart, a);
    }
  }

  /** Enough symbols cut everywhere. */
  lemma LongCuts(text: Text, sa: seq<nat>, k: nat)
    requires text.win == 1 && IsPerm(sa, |text.sym|) && |text.sym| <= k
    ensures forall i :: 0 < i < |sa| ==> Cut(text, sa, k, i)
  {
    PermFacts(sa, |text.sym|);
    forall i | 0 < i < |sa| ensures Cut(text, sa, k, i) {
      AllDiffer(text, sa[i - 1], sa[i], k);
    }
  }
}
