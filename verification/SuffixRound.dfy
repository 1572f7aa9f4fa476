/** The loops one doubling round is made of: find a group, sort it by twice as many
    symbols, write the new ranks. */
module SuffixRound {
  import opened SuffixOrder
  import opened SuffixGroups

  /** What holds of the array and the ranks when a round over `k` symbols starts. */
  ghost predicate Ready(text: Text, sa: seq<nat>, rank: seq<int>, k: nat) {
    && Level(text, k) && IsPerm(sa, |text.sym|) && |sa| == |text.sym| == |rank|
    && SortedTo(text, sa, k, |sa|) && RankOk(text, rank, k)
  }

  // ---- a group

  /** The end of the run of equal ranks that starts at `low`. */
  method GroupEnd(sa: seq<nat>, rank: seq<int>, low: nat) returns (i: nat)
    requires low < |sa| && forall a :: 0 <= a < |sa| ==> sa[a] < |rank|
    ensures low < i <= |sa|
    ensures forall a :: low <= a < i ==> rank[sa[a]] == rank[sa[low]]
    ensures i < |sa| ==> rank[sa[i]] != rank[sa[low]]
  {
    var curr := rank[sa[low]];
    i := low + 1;
    while i != |sa| && curr == rank[sa[i]]
      invariant low < i <= |sa|
      invariant forall a :: low <= a < i ==> rank[sa[a]] == curr
      decreases |sa| - i
    {
      i := i + 1;
    }
  }

  /** A run of equal ranks is a group of suffixes that tie. */
  lemma RunIsGroup(text: Text, sa: seq<nat>, rank: seq<int>, k: nat, low: nat, upp: nat)
    requires Ready(text, sa, rank, k) && low < upp <= |sa|
    requires forall a :: 0 <= a < |sa| ==> sa[a] < |rank|
    requires forall a :: low <= a < upp ==> rank[sa[a]] == rank[sa[low]]
    requires upp < |sa| ==> rank[sa[upp]] != rank[sa[low]]
    ensures Tied(text, sa, k, low, upp) && Cut(text, sa, k, upp)
  {
    forall a, b | low <= a < upp && low <= b < upp ensures Cmp(text, sa[a], sa[b], k) == 0 {
      assert Sign(rank[sa[a]] - rank[sa[b]]) == Cmp(text, sa[a], sa[b], k);
    }
    if upp < |sa| {
      assert Sign(rank[sa[upp - 1]] - rank[sa[upp]]) == Cmp(text, sa[upp - 1], sa[upp], k);
    }
  }

  // ---- sorting a group

  /** Inside a group the comparator is a strict weak order, as sorting needs. */
  lemma CompKWeakOrder(text: Text, rank: seq<int>, k: nat, s: seq<nat>)
    requires RankOk(text, rank, k) && Level(text, k)
    requires forall x :: x in s ==> x < |text.sym|
    requires forall x, y :: x in s && y in s ==> Cmp(text, x, y, k) == 0
    ensures WeakOrder((x: nat, y: nat) => CompK(rank, |rank|, k, x, y), s)
  {
    var n := |rank|;
    forall x, y | x in s && y in s && CompK(rank, n, k, x, y) ensures !CompK(rank, n, k, y, x) {
      CompKDoubles(text, rank, k, x, y);
      CompKDoubles(text, rank, k, y, x);
      CmpSwap(text, x, y, 2 * k);
    }
    forall x, y, z | x in s && y in s && z in s && !CompK(rank, n, k, y, x) && !CompK(rank, n, k, z, y)
      ensures !CompK(rank, n, k, z, x)
    {
      CompKDoubles(text, rank, k, y, x);
      CompKDoubles(text, rank, k, z, y);
      CompKDoubles(text, rank, k, z, x);
      CmpSwap(text, x, y, 2 * k);
      CmpSwap(text, y, z, 2 * k);
      CmpSwap(text, x, z, 2 * k);
      CmpTrans(text, x, y, z, 2 * k);
    }
  }

  /** Sorts positions `low` to `upp`, a group, by `2k` symbols. */
  method SortGroup(ghost text: Text, sa: seq<nat>, rank: seq<int>, k: nat, low: nat, upp: nat)
    returns (r: seq<nat>)
    requires Ready(text, sa, rank, k) && Tied(text, sa, k, low, upp)
    ensures Ready(text, r, rank, k) && r[..low] == sa[..low] && r[upp..] == sa[upp..]
    ensures TieAlong(text, sa, r, k)
    ensures forall a, b :: low <= a < b < upp ==> Cmp(text, r[a], r[b], 2 * k) <= 0
  {
    ghost var s := sa[low..upp];
    PermFacts(sa, |text.sym|);
    CompKWeakOrder(text, rank, k, s);
    var t := StdSort(sa[low..upp], (x: nat, y: nat) => CompK(rank, |rank|, k, x, y));
    r := sa[..low] + t + sa[upp..];
    Rearranged(text, sa, r, t, k, low, upp);
    TieAlongKeeps(text, sa, r, k);
    forall a, b | low <= a < b < upp ensures Cmp(text, r[a], r[b], 2 * k) <= 0 {
      SortedPair(text, rank, k, s, t, a - low, b - low);
    }
  }

  lemma Rearranged(text: Text, sa: seq<nat>, r: seq<nat>, t: seq<nat>, k: nat, low: nat, upp: nat)
    requires IsPerm(sa, |text.sym|) && Tied(text, sa, k, low, upp)
    requires multiset(t) == multiset(sa[low..upp]) && |t| == upp - low && r == sa[..low] + t + sa[upp..]
    ensures IsPerm(r, |text.sym|) && TieAlong(text, sa, r, k)
  {
    assert sa == sa[..low] + sa[low..upp] + sa[upp..];
    forall a | 0 <= a < |sa| ensures Cmp(text, sa[a], r[a], k) == 0 {
      if low <= a < upp {
        assert r[a] == t[a - low] && t[a - low] in multiset(t);
        assert t[a - low] in sa[low..upp];
        var b :| low <= b < upp && sa[b] == r[a];
      } else {
        CmpSelf(text, sa[a], k);
      }
    }
  }

  lemma SortedPair(text: Text, rank: seq<int>, k: nat, s: seq<nat>, t: seq<nat>, a: nat, b: nat)
    requires RankOk(text, rank, k) && Level(text, k) && a < b < |t|
    requires forall x :: x in s ==> x < |text.sym|
    requires forall x, y :: x in s && y in s ==> Cmp(text, x, y, k) == 0
    requires multiset(t) == multiset(s) && OrderedBy((x: nat, y: nat) => CompK(rank, |rank|, k, x, y), t)
    ensures Cmp(text, t[a], t[b], 2 * k) <= 0
  {
    assert t[a] in multiset(t) && t[b] in multiset(t);
    assert t[a] in s && t[b] in s;
    CompKDoubles(text, rank, k, t[b], t[a]);
    CmpSwap(text, t[a], t[b], 2 * k);
  }

  // ---- writing ranks

  /** Gives `name` to the run of suffixes from position `j` that `equal` ties to the first. */
  method Mark(sa: seq<nat>, rank2: seq<int>, j: nat, upp: nat, name: int, equal: (nat, nat) -> bool)
    returns (r: seq<int>, i: nat)
    requires j < upp <= |sa| && forall a :: 0 <= a < |sa| ==> sa[a] < |rank2|
    ensures j < i <= upp && |r| == |rank2|
    ensures forall p :: j <= p < i ==> r[sa[p]] == name
    ensures forall x :: 0 <= x < |r| && x !in sa[j..i] ==> r[x] == rank2[x]
    ensures forall p :: j < p < i ==> equal(sa[j], sa[p])
    ensures i < upp ==> !equal(sa[j], sa[i])
  {
    var curr := sa[j];
    r, i := rank2[sa[j] := name], j + 1;
    while i != upp && equal(curr, sa[i])
      invariant j < i <= upp && |r| == |rank2|
      invariant forall p :: j <= p < i ==> r[sa[p]] == name
      invariant forall x :: 0 <= x < |r| && x !in sa[j..i] ==> r[x] == rank2[x]
      invariant forall p :: j < p < i ==> equal(curr, sa[p])
      decreases upp - i
    {
      assert sa[j..i + 1] == sa[j..i] + [sa[i]];
      r, i := r[sa[i] := name], i + 1;
    }
  }

  /** The name the group that starts at position `j` gets. */
  ghost predicate NextName(sa: seq<nat>, rank: seq<int>, j: nat, name: int, byStart: bool) {
    && j <= |sa| && (forall a :: 0 <= a < |sa| ==> sa[a] < |rank|)
    && name == if j == 0 then 0 else if byStart then j else rank[sa[j - 1]] + 1
  }

  /** A run marked with the next name extends the numbered part over it. */
  lemma MarkNumbers(text: Text, sa: seq<nat>, rank: seq<int>, rank': seq<int>, k: nat, j: nat, i: nat, name: int,
                    byStart: bool)
    requires IsPerm(sa, |text.sym|) && j < i <= |sa| && SortedTo(text, sa, k, i) && |rank'| == |rank|
    requires Numbered(text, sa, rank, k, j, byStart) && NextName(sa, rank, j, name, byStart) && Cut(text, sa, k, j)
    requires forall p :: j < p < i ==> Cmp(text, sa[j], sa[p], k) == 0
    requires forall p :: j <= p < i ==> rank'[sa[p]] == name
    requires forall x :: 0 <= x < |rank| && x !in sa[j..i] ==> rank'[x] == rank[x]
    ensures Numbered(text, sa, rank', k, i, byStart)
    ensures i <= |sa| && NextName(sa, rank', i, if byStart then i else name + 1, byStart)
  {
    PermFacts(sa, |text.sym|);
    forall a | 0 <= a < i ensures Name(text, sa, rank', k, a, byStart) {
      if a < j {
        assert Name(text, sa, rank, k, a, byStart);
        assert sa[a] !in sa[j..i] && (a > 0 ==> sa[a - 1] !in sa[j..i]);
      } else if a == j {
        assert a > 0 ==> sa[a - 1] !in sa[j..i];
      } else {
        CmpSelf(text, sa[j], k);
        CmpChain(text, sa[j], sa[a - 1], sa[a], k);
      }
    }
  }

  /** Where the marked run stops, a group ends. */
  lemma RunCuts(text: Text, sa: seq<nat>, k: nat, j: nat, i: nat, m: nat)
    requires j < i < m <= |sa| && SortedTo(text, sa, k, m)
    requires forall p :: j < p < i ==> Cmp(text, sa[j], sa[p], k) == 0
    requires Cmp(text, sa[j], sa[i], k) != 0
    ensures Cut(text, sa, k, i)
  {
    CmpSelf(text, sa[j], k);
    CmpChain(text, sa[j], sa[i - 1], sa[i], k);
  }

  lemma RunTies(text: Text, sa: seq<nat>, k: nat, j: nat, i: nat)
    requires j < i <= |sa| && forall p :: j < p < i ==> Cmp(text, sa[j], sa[p], k) == 0
    ensures Tied(text, sa, k, j, i)
  {
    CmpSelf(text, sa[j], k);
    forall a, b | j <= a < i && j <= b < i ensures Cmp(text, sa[a], sa[b], k) == 0 {
      CmpSwap(text, sa[j], sa[a], k);
      CmpChain(text, sa[a], sa[j], sa[b], k);
    }
  }

  /** What holds while a group that ends at `upp`, sorted by `2k` symbols, is being cut
      at `j` into groups of `2k` symbols, the next one to be called `name`. */
  ghost predicate Cutting(text: Text, sa: seq<nat>, rank: seq<int>, rank2: seq<int>, k: nat, low: nat, upp: nat,
                          j: nat, name: int, byStart: bool)
  {
    && Ready(text, sa, rank, k) && |rank2| == |text.sym| && low <= j <= upp
    && Tied(text, sa, k, low, upp) && Cut(text, sa, k, upp) && SortedTo(text, sa, 2 * k, upp)
    && Cut(text, sa, 2 * k, j)
    && Numbered(text, sa, rank2, 2 * k, j, byStart) && NextName(sa, rank2, j, name, byStart)
  }

  /** Cuts off the next group of `2k` symbols. */
  method CutNext(ghost text: Text, sa: seq<nat>, rank: seq<int>, rank2: seq<int>, k: nat, ghost low: nat, upp: nat,
                 j: nat, name: int, ghost byStart: bool)
    returns (r: seq<int>, i: nat)
    requires Cutting(text, sa, rank, rank2, k, low, upp, j, name, byStart) && j < upp
    ensures j < i && Cutting(text, sa, rank, r, k, low, upp, i, if byStart then i else name + 1, byStart)
    ensures Tied(text, sa, 2 * k, j, i)
    ensures forall x :: 0 <= x < |r| && x !in sa[j..i] ==> r[x] == rank2[x]
  {
    hide RankOk, SortedTo, Cmp, Level, Numbered, CompK, EqualK;
    PermFacts(sa, |text.sym|);
    r, i := Mark(sa, rank2, j, upp, name, (x: nat, y: nat) => EqualK(rank, |rank|, k, x, y));
    forall p | j < p < upp ensures EqualK(rank, |rank|, k, sa[j], sa[p]) <==> Cmp(text, sa[j], sa[p], 2 * k) == 0 {
      CompKDoubles(text, rank, k, sa[j], sa[p]);
    }
    SortedPrefix(text, sa, 2 * k, upp, i);
    MarkNumbers(text, sa, rank2, r, 2 * k, j, i, name, byStart);
    RunTies(text, sa, 2 * k, j, i);
    if i < upp {
      RunCuts(text, sa, 2 * k, j, i, upp);
    } else {
      CutStays(text, sa, k, upp);
    }
  }

  lemma SortedPrefix(text: Text, sa: seq<nat>, k: nat, m: nat, i: nat)
    requires SortedTo(text, sa, k, m) && i <= m
    ensures SortedTo(text, sa, k, i)
  {
  }

  // ---- between groups

  /** What holds between two groups of a round, everything before `low` being done. */
  ghost predicate Between(text: Text, sa: seq<nat>, rank: seq<int>, rank2: seq<int>, k: nat, low: nat, name: int,
                          byStart: bool)
  {
    && Ready(text, sa, rank, k) && |rank2| == |text.sym| && low <= |sa|
    && Cut(text, sa, k, low) && SortedTo(text, sa, 2 * k, low)
    && Numbered(text, sa, rank2, 2 * k, low, byStart) && NextName(sa, rank2, low, name, byStart)
  }

  /** Once the next group is sorted, cutting it can start. */
  lemma StartCutting(text: Text, sa: seq<nat>, sa': seq<nat>, rank: seq<int>, rank2: seq<int>, k: nat, low: nat,
                     upp: nat, name: int, byStart: bool)
    requires Between(text, sa, rank, rank2, k, low, name, byStart)
    requires low < upp && Tied(text, sa, k, low, upp) && Cut(text, sa, k, upp)
    requires Ready(text, sa', rank, k) && TieAlong(text, sa, sa', k) && sa'[..low] == sa[..low]
    requires forall a, b :: low <= a < b < upp ==> Cmp(text, sa'[a], sa'[b], 2 * k) <= 0
    ensures Cutting(text, sa', rank, rank2, k, low, upp, low, name, byStart)
  {
    hide RankOk;
    TieAlongKeeps(text, sa, sa', k);
    PermFacts(sa', |text.sym|);
    SamePrefix(text, sa, sa', rank2, 2 * k, low, name, byStart);
    ExtendSorted(text, sa', k, low, upp);
    CutStays(text, sa', k, low);
  }

  lemma SamePrefix(text: Text, sa: seq<nat>, sa': seq<nat>, rank: seq<int>, k: nat, m: nat, name: int, byStart: bool)
    requires |sa'| == |sa| && m <= |sa| && sa'[..m] == sa[..m] && forall a :: 0 <= a < |sa'| ==> sa'[a] < |rank|
    requires Numbered(text, sa, rank, k, m, byStart) && SortedTo(text, sa, k, m) && NextName(sa, rank, m, name, byStart)
    ensures Numbered(text, sa', rank, k, m, byStart) && SortedTo(text, sa', k, m)
      && NextName(sa', rank, m, name, byStart)
  {
    assert forall a :: 0 <= a < m ==> sa'[a] == sa[a] by {
      assert forall a :: 0 <= a < m ==> sa'[..m][a] == sa[..m][a];
    }
    forall a | 0 <= a < m ensures Name(text, sa', rank, k, a, byStart) {
      assert Name(text, sa, rank, k, a, byStart);
    }
  }

  lemma DoneCutting(text: Text, sa: seq<nat>, rank: seq<int>, rank2: seq<int>, k: nat, low: nat, upp: nat, name: int,
                    byStart: bool)
    requires Cutting(text, sa, rank, rank2, k, low, upp, upp, name, byStart)
    ensures Between(text, sa, rank, rank2, k, upp, name, byStart)
  {
  }

  /** A finished round leaves everything ready for twice as many symbols. */
  lemma RoundDone(text: Text, sa: seq<nat>, rank: seq<int>, rank2: seq<int>, k: nat, name: int, byStart: bool)
    requires Between(text, sa, rank, rank2, k, |sa|, name, byStart)
    ensures Ready(text, sa, rank2, 2 * k) && Numbered(text, sa, rank2, 2 * k, |sa|, byStart)
  {
    LevelDoubles(text, k);
    NamesRank(text, sa, rank2, 2 * k, byStart);
  }
}
