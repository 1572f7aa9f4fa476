/** `build_o`: only the groups of more than one suffix are kept, and a rank is the
    position where the group starts. */
module SuffixRanges {
  import opened SuffixOrder
  import opened SuffixGroups
  import opened SuffixRound
  import opened SuffixParts

  datatype Range = Range(low: nat, upp: nat)

  /** Where the ranges before number `r` end. */
  function End(eq: seq<Range>, r: nat): nat
    requires r <= |eq|
  {
    if r == 0 then 0 else eq[r - 1].upp
  }

  /** `eq` lists the groups of two or more suffixes that tie on `k` symbols, among the
      first `m` positions; every other position is a group of its own. */
  ghost predicate Ranges(text: Text, sa: seq<nat>, k: nat, eq: seq<Range>, m: nat) {
    && m <= |sa| && (forall r :: 0 <= r < |eq| ==> RangeOk(text, sa, k, eq, r, m))
    && End(eq, |eq|) <= m && CutsIn(text, sa, k, End(eq, |eq|), m)
  }

  ghost predicate RangeOk(text: Text, sa: seq<nat>, k: nat, eq: seq<Range>, r: nat, m: nat)
    requires r < |eq|
  {
    && End(eq, r) <= eq[r].low && eq[r].low + 1 < eq[r].upp <= m
    && Tied(text, sa, k, eq[r].low, eq[r].upp)
    && CutsIn(text, sa, k, End(eq, r), eq[r].low + 1)
  }

  /** All positions from `a` to `b` start a group. */
  ghost predicate CutsIn(text: Text, sa: seq<nat>, k: nat, a: nat, b: nat) {
    forall i :: a <= i < b ==> Cut(text, sa, k, i)
  }

  /** The next group of the array is listed, if it has two suffixes or more. */
  lemma AddRange(text: Text, sa: seq<nat>, k: nat, eq: seq<Range>, m: nat, j: nat)
    requires Ranges(text, sa, k, eq, m) && m < j <= |sa| && Cut(text, sa, k, m) && Tied(text, sa, k, m, j)
    ensures Ranges(text, sa, k, if j - m > 1 then eq + [Range(m, j)] else eq, j)
  {
    var eq' := if j - m > 1 then eq + [Range(m, j)] else eq;
    forall r | 0 <= r < |eq'| ensures RangeOk(text, sa, k, eq', r, j) {
      if r < |eq| {
        assert RangeOk(text, sa, k, eq, r, m);
        assert End(eq', r) == End(eq, r);
      } else {
        assert End(eq', r) == End(eq, r);
      }
    }
  }

  lemma RangesPrefix(text: Text, s: seq<nat>, t: seq<nat>, k: nat, eq: seq<Range>, m: nat)
    requires Ranges(text, s, k, eq, m) && |s| == |t| && m <= |s| && s[..m] == t[..m]
    ensures Ranges(text, t, k, eq, m)
  {
    assert forall a :: 0 <= a < m ==> s[a] == t[a] by {
      assert forall a :: 0 <= a < m ==> s[..m][a] == t[..m][a];
    }
    assert forall i: nat :: i < m ==> (Cut(text, t, k, i) <==> Cut(text, s, k, i));
    forall r | 0 <= r < |eq| ensures RangeOk(text, t, k, eq, r, m) {
      assert RangeOk(text, s, k, eq, r, m);
    }
  }

  lemma RangesTieAlong(text: Text, s: seq<nat>, t: seq<nat>, k: nat, eq: seq<Range>)
    requires Ranges(text, s, k, eq, |s|) && TieAlong(text, s, t, k) && SortedTo(text, s, k, |s|)
    ensures Ranges(text, t, k, eq, |t|)
  {
    TieAlongKeeps(text, s, t, k);
    forall r | 0 <= r < |eq| ensures RangeOk(text, t, k, eq, r, |t|) {
      assert RangeOk(text, s, k, eq, r, |s|);
    }
  }

  lemma NoRangesAllCut(text: Text, sa: seq<nat>, k: nat)
    requires Ranges(text, sa, k, [], |sa|)
    ensures forall i :: 0 < i < |sa| ==> Cut(text, sa, k, i)
  {
  }

  // ---- the first ranges

  /** Ranges of one symbol: the runs of equal ranks. */
  method SymbolRanges(sa: seq<nat>, rank: seq<int>, rank0: seq<int>) returns (rank2: seq<int>, eq: seq<Range>)
    requires Ready(Text(rank, 1), sa, rank, 1) && |rank0| == |rank|
    ensures |rank2| == |rank| && Numbered(Text(rank, 1), sa, rank2, 1, |sa|, true)
      && Ranges(Text(rank, 1), sa, 1, eq, |sa|)
  {
    hide RankOk, SortedTo;
    PermFacts(sa, |rank|);
    rank2, eq := rank0, [];
    var i := 0;
    while i != |sa|
      invariant i <= |sa| && |rank2| == |rank| && Cut(Text(rank, 1), sa, 1, i)
      invariant Numbered(Text(rank, 1), sa, rank2, 1, i, true) && Ranges(Text(rank, 1), sa, 1, eq, i)
      decreases |sa| - i
    {
      var low := i;
      rank2, i := MarkSymbol(sa, rank, rank2, low);
      AddRange(Text(rank, 1), sa, 1, eq, low, i);
      if i - low > 1 {
        eq := eq + [Range(low, i)];
      }
    }
  }

  /** Marks the next run of equal ranks with its start. */
  method MarkSymbol(sa: seq<nat>, rank: seq<int>, rank0: seq<int>, low: nat) returns (rank2: seq<int>, i: nat)
    requires Ready(Text(rank, 1), sa, rank, 1) && |rank0| == |rank| && low < |sa| && Cut(Text(rank, 1), sa, 1, low)
    requires Numbered(Text(rank, 1), sa, rank0, 1, low, true)
    ensures low < i <= |sa| && |rank2| == |rank| && Numbered(Text(rank, 1), sa, rank2, 1, i, true)
    ensures Tied(Text(rank, 1), sa, 1, low, i) && Cut(Text(rank, 1), sa, 1, i)
  {
    hide Numbered;
    PermFacts(sa, |rank|);
    rank2, i := Mark(sa, rank0, low, |sa|, low, (x: nat, y: nat) => x < |rank| && y < |rank| && rank[x] == rank[y]);
    RunIsGroup(Text(rank, 1), sa, rank, 1, low, i);
    SortedPrefix(Text(rank, 1), sa, 1, |sa|, i);
    MarkNumbers(Text(rank, 1), sa, rank0, rank2, 1, low, i, low, true);
  }

  /** Ranges of `firstN` symbols. */
  method FirstNRanges(sa: seq<nat>, rank: seq<int>, firstN: nat, rank0: seq<int>)
    returns (rank2: seq<int>, eq: seq<Range>)
    requires firstN > 0 && |rank0| == |rank| == |sa|
    requires IsPerm(sa, |rank|) && SortedTo(Text(rank, firstN), sa, firstN, |rank|)
    ensures |rank2| == |rank| && Numbered(Text(rank, firstN), sa, rank2, firstN, |sa|, true)
      && Ranges(Text(rank, firstN), sa, firstN, eq, |sa|)
  {
    hide SortedTo;
    PermFacts(sa, |rank|);
    rank2, eq := rank0, [];
    var i := 0;
    while i != |sa|
      invariant i <= |sa| && |rank2| == |rank| && Cut(Text(rank, firstN), sa, firstN, i)
      invariant Numbered(Text(rank, firstN), sa, rank2, firstN, i, true)
        && Ranges(Text(rank, firstN), sa, firstN, eq, i)
      decreases |sa| - i
    {
      var low := i;
      rank2, i := MarkFirstN(sa, rank, firstN, rank2, low, low, true);
      AddRange(Text(rank, firstN), sa, firstN, eq, low, i);
      if i - low > 1 {
        eq := eq + [Range(low, i)];
      }
    }
  }

  // ---- a round

  /** From position `pos` on, the round has changed neither the array nor the ranks. */
  ghost predicate Untouched(sa0: seq<nat>, sa: seq<nat>, rank: seq<int>, rank2: seq<int>, pos: nat) {
    && |sa0| == |sa| == |rank| == |rank2| && pos <= |sa| && sa0[pos..] == sa[pos..]
    && forall p :: pos <= p < |sa| ==> sa[p] < |rank| && rank2[sa[p]] == rank[sa[p]]
  }

  /** Groups of one keep their place and their rank. */
  lemma SkipSingles(text: Text, sa0: seq<nat>, sa: seq<nat>, rank: seq<int>, rank2: seq<int>, k: nat, pos: nat,
                    low: nat)
    requires Numbered(text, sa0, rank, k, |sa0|, true) && Between(text, sa, rank, rank2, k, pos, pos, true)
    requires Untouched(sa0, sa, rank, rank2, pos) && pos <= low <= |sa|
    requires CutsIn(text, sa0, k, pos, low) && CutsIn(text, sa, k, pos, low) && Cut(text, sa, k, low)
    ensures Between(text, sa, rank, rank2, k, low, low, true) && CutsIn(text, sa, 2 * k, pos, low)
    ensures Untouched(sa0, sa, rank, rank2, low)
  {
    hide RankOk;
    ExtendOverSingles(text, sa, k, pos, low);
    forall a | pos <= a < |sa| ensures sa0[a] == sa[a] {
      assert sa0[pos..][a - pos] == sa[pos..][a - pos];
    }
    forall a | 0 <= a < low ensures Name(text, sa, rank2, 2 * k, a, true) {
      if a < pos {
        assert Name(text, sa, rank2, 2 * k, a, true);
      } else {
        assert Name(text, sa0, rank, k, a, true) && Cut(text, sa0, k, a) && Cut(text, sa, k, a);
        CutStays(text, sa, k, a);
      }
    }
    forall a | pos <= a < low ensures Cut(text, sa, 2 * k, a) {
      CutStays(text, sa, k, a);
    }
  }

  /** More groups of one: nothing to list. */
  lemma RangesSkip(text: Text, sa: seq<nat>, k: nat, eq: seq<Range>, m: nat, j: nat)
    requires Ranges(text, sa, k, eq, m) && m <= j <= |sa| && CutsIn(text, sa, k, m, j)
    ensures Ranges(text, sa, k, eq, j)
  {
    forall r | 0 <= r < |eq| ensures RangeOk(text, sa, k, eq, r, j) {
      assert RangeOk(text, sa, k, eq, r, m);
    }
  }

  /** What holds before range number `i` of a round. */
  ghost predicate RangeInv(text: Text, sa0: seq<nat>, sa: seq<nat>, rank: seq<int>, rank2: seq<int>, k: nat,
                           eq: seq<Range>, eq2: seq<Range>, pos: nat)
  {
    && Numbered(text, sa0, rank, k, |sa0|, true) && Ranges(text, sa0, k, eq, |sa0|) && Ranges(text, sa, k, eq, |sa|)
    && Between(text, sa, rank, rank2, k, pos, pos, true) && Untouched(sa0, sa, rank, rank2, pos)
    && Ranges(text, sa, 2 * k, eq2, pos)
  }

  /** Moves on to where range number `i` starts, or to the end. */
  lemma Advance(text: Text, sa0: seq<nat>, sa: seq<nat>, rank: seq<int>, rank2: seq<int>, k: nat,
                eq: seq<Range>, eq2: seq<Range>, i: nat, low: nat)
    requires i <= |eq| && RangeInv(text, sa0, sa, rank, rank2, k, eq, eq2, End(eq, i))
    requires low == if i < |eq| then eq[i].low else |sa|
    ensures RangeInv(text, sa0, sa, rank, rank2, k, eq, eq2, low)
    ensures i < |eq| ==> RangeOk(text, sa, k, eq, i, |sa|)
  {
    hide RankOk, Numbered, SortedTo, Tied, IsPerm;
    if i < |eq| {
      assert RangeOk(text, sa0, k, eq, i, |sa0|) && RangeOk(text, sa, k, eq, i, |sa|);
    }
    SkipSingles(text, sa0, sa, rank, rank2, k, End(eq, i), low);
    RangesSkip(text, sa, 2 * k, eq2, End(eq, i), low);
  }

  /** One round of `build_o`: only listed ranges are sorted and renumbered. */
  method RangesRound(ghost text: Text, sa0: seq<nat>, rank: seq<int>, k: nat, eq: seq<Range>)
    returns (sa: seq<nat>, rank2: seq<int>, eq2: seq<Range>)
    requires Ready(text, sa0, rank, k) && Numbered(text, sa0, rank, k, |sa0|, true) && Ranges(text, sa0, k, eq, |sa0|)
    ensures Ready(text, sa, rank2, 2 * k) && Numbered(text, sa, rank2, 2 * k, |sa|, true)
    ensures Ranges(text, sa, 2 * k, eq2, |sa|)
  {
    hide RankOk, Numbered, SortedTo, Tied, Ranges, Untouched, IsPerm;
    sa, rank2, eq2 := sa0, rank, [];
    StartRanges(text, sa, rank, k, eq);
    var i := 0;
    while i != |eq|
      invariant i <= |eq| && RangeInv(text, sa0, sa, rank, rank2, k, eq, eq2, End(eq, i))
      decreases |eq| - i
    {
      var low, upp := eq[i].low, eq[i].upp;
      Advance(text, sa0, sa, rank, rank2, k, eq, eq2, i, low);
      sa, rank2, eq2 := SortRange(text, sa0, sa, rank, rank2, k, eq, eq2, i);
      i := i + 1;
    }
    Advance(text, sa0, sa, rank, rank2, k, eq, eq2, i, |sa|);
    RoundDone(text, sa, rank, rank2, k, |sa|, true);
  }

  lemma StartRanges(text: Text, sa: seq<nat>, rank: seq<int>, k: nat, eq: seq<Range>)
    requires Ready(text, sa, rank, k) && Numbered(text, sa, rank, k, |sa|, true) && Ranges(text, sa, k, eq, |sa|)
    ensures RangeInv(text, sa, sa, rank, rank, k, eq, [], 0)
  {
    StartNumbers(text, sa, rank, rank, k, true);
  }

  /** Sorts and cuts range number `i`. */
  method SortRange(ghost text: Text, ghost sa0: seq<nat>, sa: seq<nat>, rank: seq<int>, rank2: seq<int>, k: nat,
                   eq: seq<Range>, eq2: seq<Range>, i: nat)
    returns (r: seq<nat>, rank2': seq<int>, eq2': seq<Range>)
    requires i < |eq| && RangeInv(text, sa0, sa, rank, rank2, k, eq, eq2, eq[i].low)
    requires RangeOk(text, sa, k, eq, i, |sa|)
    ensures RangeInv(text, sa0, r, rank, rank2', k, eq, eq2', eq[i].upp) && |r| == |sa|
  {
    hide RankOk, Numbered, SortedTo, Tied, Ranges, IsPerm;
    var low, upp := eq[i].low, eq[i].upp;
    r := SortGroup(text, sa, rank, k, low, upp);
    CutAfter(text, sa, k, eq, i);
    StartCutting(text, sa, r, rank, rank2, k, low, upp, low, true);
    RangesTieAlong(text, sa, r, k, eq);
    RangesPrefix(text, sa, r, 2 * k, eq2, low);
    rank2', eq2' := SplitRanges(text, r, rank, rank2, k, low, upp, eq2);
    TailUntouched(text, sa0, sa, r, rank, rank2, rank2', low, upp);
  }

  lemma CutAfter(text: Text, sa: seq<nat>, k: nat, eq: seq<Range>, i: nat)
    requires Ranges(text, sa, k, eq, |sa|) && i < |eq|
    ensures eq[i].upp <= |sa| && Cut(text, sa, k, eq[i].upp)
  {
    assert RangeOk(text, sa, k, eq, i, |sa|);
    if i + 1 < |eq| {
      assert RangeOk(text, sa, k, eq, i + 1, |sa|);
    }
  }

  lemma TailUntouched(text: Text, sa0: seq<nat>, sa: seq<nat>, r: seq<nat>, rank: seq<int>, rank2: seq<int>,
                      rank2': seq<int>, low: nat, upp: nat)
    requires Untouched(sa0, sa, rank, rank2, low) && low <= upp <= |sa| == |r| && r[upp..] == sa[upp..]
    requires IsPerm(r, |rank|) && |rank2'| == |rank2|
    requires forall x :: 0 <= x < |rank2| && x !in r[low..upp] ==> rank2'[x] == rank2[x]
    ensures Untouched(sa0, r, rank, rank2', upp)
  {
    PermFacts(r, |rank|);
    assert sa0[upp..] == sa0[low..][upp - low..] && sa[upp..] == sa[low..][upp - low..];
    forall p | upp <= p < |r| ensures r[p] < |rank| && rank2'[r[p]] == rank[r[p]] {
      assert r[upp..][p - upp] == sa[upp..][p - upp];
      assert r[p] !in r[low..upp];
    }
  }

  /** Cuts one sorted range, listing the new groups of two or more. */
  method SplitRanges(ghost text: Text, sa: seq<nat>, rank: seq<int>, rank0: seq<int>, k: nat, low: nat, upp: nat,
                     eq0: seq<Range>)
    returns (rank2: seq<int>, eq2: seq<Range>)
    requires Cutting(text, sa, rank, rank0, k, low, upp, low, low, true) && Ranges(text, sa, 2 * k, eq0, low)
    ensures Between(text, sa, rank, rank2, k, upp, upp, true) && Ranges(text, sa, 2 * k, eq2, upp)
    ensures low <= upp <= |sa| && |rank2| == |rank0|
    ensures forall x :: 0 <= x < |rank0| && x !in sa[low..upp] ==> rank2[x] == rank0[x]
  {
    hide RankOk, Numbered, SortedTo, Tied, Ranges, IsPerm;
    rank2, eq2 := rank0, eq0;
    var j := low;
    TiedBound(text, sa, k, low, upp);
    while j != upp
      invariant low <= j <= upp && Cutting(text, sa, rank, rank2, k, low, upp, j, j, true)
      invariant Ranges(text, sa, 2 * k, eq2, j)
      invariant forall x :: 0 <= x < |rank0| && x !in sa[low..j] ==> rank2[x] == rank0[x]
      decreases upp - j
    {
      var sublow := j;
      rank2, j := CutNext(text, sa, rank, rank2, k, low, upp, j, j, true);
      assert sa[low..j] == sa[low..sublow] + sa[sublow..j];
      AddRange(text, sa, 2 * k, eq2, sublow, j);
      if j - sublow > 1 {
        eq2 := eq2 + [Range(sublow, j)];
      }
    }
    DoneCutting(text, sa, rank, rank2, k, low, upp, upp, true);
  }
}
