/** `build_n`: the groups are kept as the list of their start positions. */
module SuffixParts {
  import opened SuffixOrder
  import opened SuffixGroups
  import opened SuffixRound
  import opened SuffixFirstN

  /** `addr[0..d]` are the boundaries of the groups of `k` symbols in the first `m` positions. */
  ghost predicate Parts(text: Text, sa: seq<nat>, k: nat, addr: seq<nat>, d: nat, m: nat) {
    && d < |addr| && addr[0] == 0 && addr[d] == m <= |sa|
    && forall g :: 0 <= g < d ==> Part(text, sa, k, addr, g, m)
  }

  ghost predicate Part(text: Text, sa: seq<nat>, k: nat, addr: seq<nat>, g: nat, m: nat)
    requires g + 1 < |addr|
  {
    && addr[g] < addr[g + 1] <= m
    && Cut(text, sa, k, addr[g]) && Tied(text, sa, k, addr[g], addr[g + 1])
  }

  lemma AddPart(text: Text, sa: seq<nat>, k: nat, addr: seq<nat>, d: nat, m: nat, i: nat)
    requires Parts(text, sa, k, addr, d, m) && d + 1 < |addr| && m < i <= |sa|
    requires Cut(text, sa, k, m) && Tied(text, sa, k, m, i)
    ensures Parts(text, sa, k, addr[d + 1 := i], d + 1, i)
  {
    var addr' := addr[d + 1 := i];
    forall g | 0 <= g < d + 1 ensures Part(text, sa, k, addr', g, i) {
      if g < d {
        assert Part(text, sa, k, addr, g, m);
      }
    }
  }

  /** There are at most as many groups as positions. */
  lemma {:induction false} PartsCount(text: Text, sa: seq<nat>, k: nat, addr: seq<nat>, d: nat, m: nat, g: nat)
    requires Parts(text, sa, k, addr, d, m) && g <= d
    ensures g <= addr[g] && addr[g] + (d - g) <= m
  {
    PartsBelow(text, sa, k, addr, d, m, g);
    PartsAbove(text, sa, k, addr, d, m, g);
  }

  lemma {:induction false} PartsBelow(text: Text, sa: seq<nat>, k: nat, addr: seq<nat>, d: nat, m: nat, g: nat)
    requires Parts(text, sa, k, addr, d, m) && g <= d
    ensures g <= addr[g]
    decreases g
  {
    if g > 0 {
      PartsBelow(text, sa, k, addr, d, m, g - 1);
      assert Part(text, sa, k, addr, g - 1, m);
    }
  }

  lemma {:induction false} PartsAbove(text: Text, sa: seq<nat>, k: nat, addr: seq<nat>, d: nat, m: nat, g: nat)
    requires Parts(text, sa, k, addr, d, m) && g <= d
    ensures addr[g] + (d - g) <= m
    decreases d - g
  {
    if g < d {
      assert Part(text, sa, k, addr, g, m);
      PartsAbove(text, sa, k, addr, d, m, g + 1);
    }
  }

  /** As many groups as positions: nothing ties. And the other way round. */
  lemma PartsSingles(text: Text, sa: seq<nat>, k: nat, addr: seq<nat>, d: nat)
    requires Parts(text, sa, k, addr, d, |sa|)
    ensures d == |sa| <==> forall i :: 0 < i < |sa| ==> Cut(text, sa, k, i)
  {
    if d == |sa| {
      forall i | 0 < i < |sa| ensures Cut(text, sa, k, i) {
        PartsCount(text, sa, k, addr, d, d, i);
        assert Part(text, sa, k, addr, i, d);
      }
    }
    if forall i :: 0 < i < |sa| ==> Cut(text, sa, k, i) {
      SinglesCount(text, sa, k, addr, d, d);
    }
  }

  lemma {:induction false} SinglesCount(text: Text, sa: seq<nat>, k: nat, addr: seq<nat>, d: nat, g: nat)
    requires Parts(text, sa, k, addr, d, |sa|) && g <= d
    requires forall i :: 0 < i < |sa| ==> Cut(text, sa, k, i)
    ensures addr[g] == g
    decreases g
  {
    if g > 0 {
      SinglesCount(text, sa, k, addr, d, g - 1);
      assert Part(text, sa, k, addr, g - 1, |sa|);
      assert g < |sa| ==> Cut(text, sa, k, g);
    }
  }

  /** Groups depend on the order only up to ties, and only on the part they cover. */
  lemma PartsTieAlong(text: Text, s: seq<nat>, t: seq<nat>, k: nat, addr: seq<nat>, d: nat, m: nat)
    requires Parts(text, s, k, addr, d, m) && TieAlong(text, s, t, k) && SortedTo(text, s, k, |s|)
    ensures Parts(text, t, k, addr, d, m)
  {
    TieAlongKeeps(text, s, t, k);
    forall g | 0 <= g < d ensures Part(text, t, k, addr, g, m) {
      assert Part(text, s, k, addr, g, m);
    }
  }

  lemma PartsPrefix(text: Text, s: seq<nat>, t: seq<nat>, k: nat, addr: seq<nat>, d: nat, m: nat)
    requires Parts(text, s, k, addr, d, m) && |s| == |t| && s[..m] == t[..m]
    ensures Parts(text, t, k, addr, d, m)
  {
    assert forall a :: 0 <= a < m ==> s[a] == t[a] by {
      assert forall a :: 0 <= a < m ==> s[..m][a] == t[..m][a];
    }
    forall g | 0 <= g < d ensures Part(text, t, k, addr, g, m) {
      assert Part(text, s, k, addr, g, m);
    }
  }

  // ---- the first groups

  /** Groups of one symbol: the runs of equal ranks. */
  method SymbolParts(sa: seq<nat>, rank: seq<int>, addr0: seq<nat>) returns (addr: seq<nat>, distinct: nat)
    requires Ready(Text(rank, 1), sa, rank, 1) && |addr0| == |sa| + 1 && addr0[0] == 0
    ensures |addr| == |sa| + 1 && Parts(Text(rank, 1), sa, 1, addr, distinct, |sa|)
  {
    hide RankOk, SortedTo;
    PermFacts(sa, |rank|);
    addr, distinct := addr0, 0;
    var i := 0;
    while i != |sa|
      invariant i <= |sa| == |addr| - 1 && Parts(Text(rank, 1), sa, 1, addr, distinct, i)
        && Cut(Text(rank, 1), sa, 1, i)
      decreases |sa| - i
    {
      PartsCount(Text(rank, 1), sa, 1, addr, distinct, i, 0);
      var low := i;
      i := GroupEnd(sa, rank, low);
      RunIsGroup(Text(rank, 1), sa, rank, 1, low, i);
      AddPart(Text(rank, 1), sa, 1, addr, distinct, low, i);
      distinct := distinct + 1;
      addr := addr[distinct := i];
    }
  }

  /** Groups of `firstN` symbols, numbered. */
  method FirstNParts(sa: seq<nat>, rank: seq<int>, firstN: nat, rank0: seq<int>, addr0: seq<nat>)
    returns (rank2: seq<int>, addr: seq<nat>, distinct: nat)
    requires firstN > 0 && |rank0| == |rank| == |sa|
    requires IsPerm(sa, |rank|) && SortedTo(Text(rank, firstN), sa, firstN, |rank|) && |addr0| == |sa| + 1
      && addr0[0] == 0
    ensures |rank2| == |rank| && |addr| == |sa| + 1
    ensures Parts(Text(rank, firstN), sa, firstN, addr, distinct, |sa|)
      && Numbered(Text(rank, firstN), sa, rank2, firstN, |sa|, false)
  {
    hide SortedTo;
    PermFacts(sa, |rank|);
    rank2, addr, distinct := rank0, addr0, 0;
    var i := 0;
    while i != |sa|
      invariant i <= |sa| == |addr| - 1 && |rank2| == |rank|
      invariant Parts(Text(rank, firstN), sa, firstN, addr, distinct, i) && Cut(Text(rank, firstN), sa, firstN, i)
      invariant Numbered(Text(rank, firstN), sa, rank2, firstN, i, false) && NextName(sa, rank2, i, distinct, false)
      decreases |sa| - i
    {
      PartsCount(Text(rank, firstN), sa, firstN, addr, distinct, i, 0);
      var low := i;
      rank2, i := MarkFirstN(sa, rank, firstN, rank2, low, distinct, false);
      AddPart(Text(rank, firstN), sa, firstN, addr, distinct, low, i);
      distinct := distinct + 1;
      addr := addr[distinct := i];
    }
  }

  /** Marks the next group of `firstN` symbols. */
  method MarkFirstN(sa: seq<nat>, rank: seq<int>, firstN: nat, rank0: seq<int>, low: nat, name: int,
                    ghost byStart: bool)
    returns (rank2: seq<int>, i: nat)
    requires firstN > 0 && |rank0| == |rank| == |sa| && low < |sa|
    requires IsPerm(sa, |rank|) && SortedTo(Text(rank, firstN), sa, firstN, |rank|)
      && Cut(Text(rank, firstN), sa, firstN, low)
    requires Numbered(Text(rank, firstN), sa, rank0, firstN, low, byStart) && NextName(sa, rank0, low, name, byStart)
    ensures low < i <= |sa| && |rank2| == |rank|
    ensures Numbered(Text(rank, firstN), sa, rank2, firstN, i, byStart)
    ensures NextName(sa, rank2, i, if byStart then i else name + 1, byStart)
    ensures Tied(Text(rank, firstN), sa, firstN, low, i) && Cut(Text(rank, firstN), sa, firstN, i)
  {
    hide SortedTo, Numbered;
    PermFacts(sa, |rank|);
    var p := Padded(rank, firstN);
    assert forall a :: 0 <= a < |sa| ==> sa[a] < |rank0|;
    rank2, i := Mark(sa, rank0, low, |sa|, name,
      (x: nat, y: nat) => x + firstN <= |p| && y + firstN <= |p| && EqualFirstN(p, firstN, x, y));
    forall a | low < a < |sa|
      ensures EqualFirstN(p, firstN, sa[low], sa[a]) <==> Cmp(Text(rank, firstN), sa[low], sa[a], firstN) == 0
    {
      ComparesWindows(rank, p, firstN, sa[low], sa[a]);
      OneWindow(Text(rank, firstN), sa[low], sa[a]);
    }
    SortedPrefix(Text(rank, firstN), sa, firstN, |sa|, i);
    MarkNumbers(Text(rank, firstN), sa, rank0, rank2, firstN, low, i, name, byStart);
    RunTies(Text(rank, firstN), sa, firstN, low, i);
    if i < |sa| {
      RunCuts(Text(rank, firstN), sa, firstN, low, i, |sa|);
    }
  }

  // ---- a round

  /** A group of one is only renumbered. */
  lemma SingleNumbers(text: Text, sa: seq<nat>, rank: seq<int>, rank2: seq<int>, k: nat, low: nat, name: int)
    requires Between(text, sa, rank, rank2, k, low, name, false) && low < |sa| && Cut(text, sa, k, low + 1)
    ensures sa[low] < |rank2| && Between(text, sa, rank, rank2[sa[low] := name], k, low + 1, name + 1, false)
  {
    hide RankOk;
    PermFacts(sa, |text.sym|);
    ExtendSorted(text, sa, k, low, low + 1);
    CutStays(text, sa, k, low);
    assert sa[low..low + 1] == [sa[low]];
    MarkNumbers(text, sa, rank2, rank2[sa[low] := name], 2 * k, low, low + 1, name, false);
  }

  /** One round of `build_n`, group by group. */
  method PartsRound(ghost text: Text, sa0: seq<nat>, rank: seq<int>, rank0: seq<int>, k: nat, addr: seq<nat>,
                    distinct: nat, addr0: seq<nat>)
    returns (sa: seq<nat>, rank2: seq<int>, addr2: seq<nat>, distinct2: nat)
    requires Ready(text, sa0, rank, k) && |rank0| == |text.sym| && |addr0| == |text.sym| + 1 && addr0[0] == 0
    requires Parts(text, sa0, k, addr, distinct, |sa0|)
    ensures Ready(text, sa, rank2, 2 * k) && Numbered(text, sa, rank2, 2 * k, |sa|, false)
    ensures |addr2| == |text.sym| + 1 && Parts(text, sa, 2 * k, addr2, distinct2, |sa|)
  {
    hide RankOk, Numbered, SortedTo;
    sa, rank2, addr2, distinct2 := sa0, rank0, addr0, 0;
    StartNumbers(text, sa, rank, rank2, k, false);
    var i := 0;
    while i != distinct
      invariant i <= distinct && Parts(text, sa, k, addr, distinct, |sa|)
      invariant Between(text, sa, rank, rank2, k, addr[i], distinct2, false)
      invariant |addr2| == |text.sym| + 1 && Parts(text, sa, 2 * k, addr2, distinct2, addr[i])
      decreases distinct - i
    {
      assert Part(text, sa, k, addr, i, |sa|);
      NextCut(text, sa, k, addr, distinct, i);
      var low, upp := addr[i], addr[i + 1];
      ghost var before := sa;
      if low + 1 != upp {
        sa := SortGroup(text, sa, rank, k, low, upp);
        StartCutting(text, before, sa, rank, rank2, k, low, upp, distinct2, false);
        PartsTieAlong(text, before, sa, k, addr, distinct, |sa|);
        PartsPrefix(text, before, sa, 2 * k, addr2, distinct2, low);
        rank2, addr2, distinct2 := SplitParts(text, sa, rank, rank2, k, low, upp, addr2, distinct2);
      } else {
        SingleNumbers(text, sa, rank, rank2, k, low, distinct2);
        rank2 := rank2[sa[low] := distinct2];
        PartsCount(text, sa, 2 * k, addr2, distinct2, low, 0);
        CutStays(text, sa, k, low);
        SingleTied(text, sa, 2 * k, low);
        AddPart(text, sa, 2 * k, addr2, distinct2, low, upp);
        distinct2 := distinct2 + 1;
        addr2 := addr2[distinct2 := upp];
      }
      i := i + 1;
    }
    RoundDone(text, sa, rank, rank2, k, distinct2, false);
  }

  lemma StartNumbers(text: Text, sa: seq<nat>, rank: seq<int>, rank2: seq<int>, k: nat, byStart: bool)
    requires Ready(text, sa, rank, k) && |rank2| == |text.sym|
    ensures Between(text, sa, rank, rank2, k, 0, 0, byStart)
  {
    PermFacts(sa, |text.sym|);
  }

  lemma NextCut(text: Text, sa: seq<nat>, k: nat, addr: seq<nat>, d: nat, g: nat)
    requires Parts(text, sa, k, addr, d, |sa|) && g < d
    ensures g + 1 < |addr| && Cut(text, sa, k, addr[g + 1])
  {
    if g + 1 < d {
      assert Part(text, sa, k, addr, g + 1, |sa|);
    }
  }

  lemma SingleTied(text: Text, sa: seq<nat>, k: nat, low: nat)
    requires low < |sa|
    ensures Tied(text, sa, k, low, low + 1)
  {
    CmpSelf(text, sa[low], k);
  }

  /** Cuts one sorted group, recording where each new group ends. */
  method SplitParts(ghost text: Text, sa: seq<nat>, rank: seq<int>, rank0: seq<int>, k: nat, low: nat, upp: nat,
                    addr0: seq<nat>, d: nat)
    returns (rank2: seq<int>, addr2: seq<nat>, distinct2: nat)
    requires Cutting(text, sa, rank, rank0, k, low, upp, low, d, false)
    requires |addr0| == |text.sym| + 1 && Parts(text, sa, 2 * k, addr0, d, low)
    ensures Between(text, sa, rank, rank2, k, upp, distinct2, false)
    ensures |addr2| == |text.sym| + 1 && Parts(text, sa, 2 * k, addr2, distinct2, upp)
  {
    hide RankOk, Numbered, NextName, Tied, SortedTo;
    rank2, addr2, distinct2 := rank0, addr0, d;
    var j := low;
    while j != upp
      invariant Cutting(text, sa, rank, rank2, k, low, upp, j, distinct2, false)
      invariant |addr2| == |text.sym| + 1 && Parts(text, sa, 2 * k, addr2, distinct2, j)
      decreases upp - j
    {
      PartsCount(text, sa, 2 * k, addr2, distinct2, j, 0);
      var sublow := j;
      TiedBound(text, sa, k, low, upp);
      rank2, j := CutNext(text, sa, rank, rank2, k, low, upp, j, distinct2, false);
      AddPart(text, sa, 2 * k, addr2, distinct2, sublow, j);
      distinct2 := distinct2 + 1;
      addr2 := addr2[distinct2 := j];
    }
    DoneCutting(text, sa, rank, rank2, k, low, upp, distinct2, false);
  }

  lemma TiedBound(text: Text, sa: seq<nat>, k: nat, low: nat, upp: nat)
    requires Tied(text, sa, k, low, upp)
    ensures low <= upp <= |sa|
  {
  }
}
