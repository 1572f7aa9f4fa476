/** Changing the number of freelists: joining the upper ones, or spreading the last one. */
module StrRelist {
  import opened Basics
  import opened HashSizing
  import opened HashChains
  import opened StrSlots
  import opened StrBins

  // ---- fewer lists

  /** The list a slot is in while lists `lo` to `hi` have been joined to the last one. */
  function Dest(len: nat, align: nat, count: nat, lo: nat, hi: nat): (b: nat)
    requires align > 0 && count > 0
    ensures b < count
  {
    var b := BinOf(len, align, count);
    if lo <= b < hi then count - 1 else b
  }

  ghost predicate BelongAt(c: seq<nat>, b: nat, pieces: seq<seq<Byte>>, link: seq<nat>, align: nat, count: nat, lo: nat,
                           hi: nat)
    requires align > 0 && count > 0 && |link| == |pieces|
  {
    forall s :: s in c ==> s < |link| && link[s] == DELMARK && Dest(|pieces[s]|, align, count, lo, hi) == b
  }

  ghost predicate Joining(fast: seq<nat>, bins: seq<seq<nat>>, pieces: seq<seq<Byte>>, link: seq<nat>, align: nat,
                          lo: nat, hi: nat) {
    && |fast| == |bins| && lo <= hi <= |bins| - 1 && |link| == |pieces| <= DELMARK && Long(pieces, align)
    && (forall b :: 0 <= b < |bins| ==> IsChain(fast[b], bins[b], Nexts(pieces)))
    && (forall b :: 0 <= b < |bins| ==> BelongAt(bins[b], b, pieces, link, align, |bins|, lo, hi))
    && (forall s: nat :: s < |link| && link[s] == DELMARK ==> s in bins[Dest(|pieces[s]|, align, |bins|, lo, hi)])
  }

  lemma JoinStart(fast: seq<nat>, bins: seq<seq<nat>>, pieces: seq<seq<Byte>>, link: seq<nat>, align: nat, lo: nat)
    requires BinsOk(fast, bins, pieces, link, align, {}) && lo < |bins|
    ensures Joining(fast, bins, pieces, link, align, lo, lo)
  {
    forall b | 0 <= b < |bins| ensures BelongAt(bins[b], b, pieces, link, align, |bins|, lo, lo) {
      assert Belong(bins[b], b, pieces, link, align, |bins|, {});
    }
  }

  lemma JoinDone(fast: seq<nat>, bins: seq<seq<nat>>, pieces: seq<seq<Byte>>, link: seq<nat>, align: nat, lo: nat,
                 fast': seq<nat>, bins': seq<seq<nat>>)
    requires |bins| > 0 && Joining(fast, bins, pieces, link, align, lo, |bins| - 1)
    requires fast' == fast[..lo] + [fast[|fast| - 1]] && bins' == bins[..lo] + [bins[|bins| - 1]]
    ensures BinsOk(fast', bins', pieces, link, align, {})
  {
    forall b | 0 <= b < |bins'|
      ensures IsChain(fast'[b], bins'[b], Nexts(pieces))
      ensures Belong(bins'[b], b, pieces, link, align, |bins'|, {})
    {
      var a := if b < lo then b else |bins| - 1;
      assert IsChain(fast[a], bins[a], Nexts(pieces))
        && BelongAt(bins[a], a, pieces, link, align, |bins|, lo, |bins| - 1);
    }
  }

  /** One list behind another: the last slot of the first takes the head of the second as its link. */
  lemma ChainJoin(h: nat, c: seq<nat>, g: nat, d: seq<nat>, link: seq<nat>, link': seq<nat>)
    requires IsChain(h, c, link) && IsChain(g, d, link) && c != [] && forall x :: x in c ==> x !in d
    requires link' == link[c[|c| - 1] := g]
    ensures IsChain(h, c + d, link')
  {
    var e := c + d;
    assert forall j :: 0 <= j < |c| ==> e[j] == c[j] && c[j] in c;
    assert forall j :: |c| <= j < |e| ==> e[j] == d[j - |c|] && d[j - |c|] in d;
    forall j | 0 <= j < |e| ensures e[j] < |link'| && link'[e[j]] == After(e, j) {
      if j < |c| {
        assert link[c[j]] == After(c, j);
      } else {
        assert link[d[j - |c|]] == After(d, j - |c|);
      }
    }
  }

  /** An empty list is passed over. */
  lemma JoinSkip(fast: seq<nat>, bins: seq<seq<nat>>, pieces: seq<seq<Byte>>, link: seq<nat>, align: nat, lo: nat,
                 i: nat)
    requires Joining(fast, bins, pieces, link, align, lo, i) && i < |bins| - 1 && bins[i] == []
    ensures Joining(fast, bins, pieces, link, align, lo, i + 1)
  {
    forall b | 0 <= b < |bins| ensures BelongAt(bins[b], b, pieces, link, align, |bins|, lo, i + 1) {
      assert BelongAt(bins[b], b, pieces, link, align, |bins|, lo, i);
      forall s | s in bins[b] ensures Dest(|pieces[s]|, align, |bins|, lo, i + 1) == b {
        assert s in bins[Dest(|pieces[s]|, align, |bins|, lo, i)];
      }
    }
    JoinCovers(bins, pieces, link, align, lo, i, bins, pieces);
  }

  /** A list is put in front of the last one. */
  lemma JoinList(fast: seq<nat>, bins: seq<seq<nat>>, pieces: seq<seq<Byte>>, link: seq<nat>, align: nat, lo: nat,
                 i: nat, last: nat, fast': seq<nat>, bins': seq<seq<nat>>, pieces': seq<seq<Byte>>)
    requires Joining(fast, bins, pieces, link, align, lo, i) && i < |bins| - 1
    requires bins[i] != [] && last == bins[i][|bins[i]| - 1] && last < |pieces|
    requires fast' == fast[i := TAIL][|bins| - 1 := fast[i]]
    requires bins' == bins[i := []][|bins| - 1 := bins[i] + bins[|bins| - 1]]
    requires pieces' == pieces[last := WithNext(pieces[last], fast[|bins| - 1])]
    ensures Joining(fast', bins', pieces', link, align, lo, i + 1)
  {
    hide Joining;
    JoinLinks(fast, bins, pieces, link, align, lo, i, last, fast', bins', pieces');
    JoinPlaces(fast, bins, pieces, link, align, lo, i, last, bins', pieces');
    JoinBuild(fast', bins', pieces', link, align, lo, i + 1);
  }

  lemma JoinBuild(fast: seq<nat>, bins: seq<seq<nat>>, pieces: seq<seq<Byte>>, link: seq<nat>, align: nat, lo: nat,
                  hi: nat)
    requires |fast| == |bins| && lo <= hi <= |bins| - 1 && |link| == |pieces| <= DELMARK && Long(pieces, align)
    requires forall b :: 0 <= b < |bins| ==> IsChain(fast[b], bins[b], Nexts(pieces))
    requires forall b :: 0 <= b < |bins| ==> BelongAt(bins[b], b, pieces, link, align, |bins|, lo, hi)
    requires forall s: nat :: s < |link| && link[s] == DELMARK ==> s in bins[Dest(|pieces[s]|, align, |bins|, lo, hi)]
    ensures Joining(fast, bins, pieces, link, align, lo, hi)
  {
  }

  lemma JoinLinks(fast: seq<nat>, bins: seq<seq<nat>>, pieces: seq<seq<Byte>>, link: seq<nat>, align: nat, lo: nat,
                  i: nat, last: nat, fast': seq<nat>, bins': seq<seq<nat>>, pieces': seq<seq<Byte>>)
    requires Joining(fast, bins, pieces, link, align, lo, i) && i < |bins| - 1
    requires bins[i] != [] && last == bins[i][|bins[i]| - 1] && last < |pieces|
    requires fast' == fast[i := TAIL][|bins| - 1 := fast[i]]
    requires bins' == bins[i := []][|bins| - 1 := bins[i] + bins[|bins| - 1]]
    requires pieces' == pieces[last := WithNext(pieces[last], fast[|bins| - 1])]
    ensures |fast'| == |bins'| == |bins| && lo <= i && |link| == |pieces'| <= DELMARK && Long(pieces', align)
    ensures forall b :: 0 <= b < |bins| ==> IsChain(fast'[b], bins'[b], Nexts(pieces'))
  {
    hide Dest, BinOf;
    var m, c := |bins| - 1, bins[i];
    assert IsChain(fast[i], c, Nexts(pieces)) && IsChain(fast[m], bins[m], Nexts(pieces));
    assert BelongAt(c, i, pieces, link, align, |bins|, lo, i)
      && BelongAt(bins[m], m, pieces, link, align, |bins|, lo, i);
    assert last in c;
    NextsWrite(pieces, align, last, fast[m]);
    ChainJoin(fast[i], c, fast[m], bins[m], Nexts(pieces), Nexts(pieces'));
    forall b | 0 <= b < |bins| && b != i && b != m ensures IsChain(fast'[b], bins'[b], Nexts(pieces')) {
      assert IsChain(fast[b], bins[b], Nexts(pieces)) && BelongAt(bins[b], b, pieces, link, align, |bins|, lo, i);
      ChainFrame(fast[b], bins[b], Nexts(pieces), last, fast[m]);
    }
  }

  lemma JoinPlaces(fast: seq<nat>, bins: seq<seq<nat>>, pieces: seq<seq<Byte>>, link: seq<nat>, align: nat, lo: nat,
                   i: nat, last: nat, bins': seq<seq<nat>>, pieces': seq<seq<Byte>>)
    requires Joining(fast, bins, pieces, link, align, lo, i) && i < |bins| - 1 && last < |pieces|
    requires |pieces'| == |pieces| && forall s: nat :: s < |pieces| ==> |pieces'[s]| == |pieces[s]|
    requires bins' == bins[i := []][|bins| - 1 := bins[i] + bins[|bins| - 1]]
    ensures forall b :: 0 <= b < |bins| ==> BelongAt(bins'[b], b, pieces', link, align, |bins|, lo, i + 1)
    ensures forall s: nat :: s < |link| && link[s] == DELMARK ==>
        s in bins'[Dest(|pieces'[s]|, align, |bins|, lo, i + 1)]
  {
    hide IsChain, BinOf;
    forall b | 0 <= b < |bins| ensures BelongAt(bins'[b], b, pieces', link, align, |bins|, lo, i + 1) {
      assert BelongAt(bins[b], b, pieces, link, align, |bins|, lo, i)
        && BelongAt(bins[i], i, pieces, link, align, |bins|, lo, i);
    }
    JoinCovers(bins, pieces, link, align, lo, i, bins', pieces');
  }

  lemma JoinCovers(bins: seq<seq<nat>>, pieces: seq<seq<Byte>>, link: seq<nat>, align: nat, lo: nat, i: nat,
                   bins': seq<seq<nat>>, pieces': seq<seq<Byte>>)
    requires align > 0 && lo <= i < |bins| - 1 && |bins'| == |bins| && |link| == |pieces| == |pieces'|
    requires forall s: nat :: s < |link| ==> |pieces'[s]| == |pieces[s]|
    requires forall s: nat :: s < |link| && link[s] == DELMARK ==> s in bins[Dest(|pieces[s]|, align, |bins|, lo, i)]
    requires forall b, s :: 0 <= b < |bins| && b != i && s in bins[b] ==> s in bins'[b]
    requires forall s :: s in bins[i] ==> s in bins'[|bins| - 1]
    ensures forall s: nat :: s < |link| && link[s] == DELMARK ==>
        s in bins'[Dest(|pieces'[s]|, align, |bins|, lo, i + 1)]
  {
    forall s: nat | s < |link| && link[s] == DELMARK ensures s in bins'[Dest(|pieces'[s]|, align, |bins|, lo, i + 1)] {
      assert s in bins[Dest(|pieces[s]|, align, |bins|, lo, i)];
    }
  }

  // ---- more lists

  /** The last list is being gone through: its first `kept` slots belong there, the rest may
      have to move to the list of their length. */
  ghost predicate Spreading(fast: seq<nat>, bins: seq<seq<nat>>, pieces: seq<seq<Byte>>, link: seq<nat>, align: nat,
                            kept: nat) {
    && |fast| == |bins| >= 1 && |link| == |pieces| <= DELMARK && Long(pieces, align)
    && var m := |bins| - 1;
    && kept <= |bins[m]|
    && (forall b :: 0 <= b <= m ==> IsChain(fast[b], bins[b], Nexts(pieces)))
    && (forall b :: 0 <= b < m ==> Belong(bins[b], b, pieces, link, align, |bins|, {}))
    && Belong(bins[m][..kept], m, pieces, link, align, |bins|, {})
    && (forall s :: s in bins[m] ==> s < |link| && link[s] == DELMARK)
    && (forall b, s :: 0 <= b < m && s in bins[b] ==> s !in bins[m])
    && (forall s: nat :: s < |link| && link[s] == DELMARK ==>
          s in bins[BinOf(|pieces[s]|, align, |bins|)] || s in bins[m][kept..])
  }

  lemma SpreadStart(fast0: seq<nat>, bins0: seq<seq<nat>>, pieces: seq<seq<Byte>>, link: seq<nat>, align: nat,
                    fast: seq<nat>, bins: seq<seq<nat>>, more: nat)
    requires BinsOk(fast0, bins0, pieces, link, align, {})
    requires fast == fast0[..|fast0| - 1] + seq(more, _ => TAIL) + [fast0[|fast0| - 1]]
    requires bins == bins0[..|bins0| - 1] + seq(more, _ => []) + [bins0[|bins0| - 1]]
    ensures Spreading(fast, bins, pieces, link, align, 0)
  {
    var m0, m := |bins0| - 1, |bins| - 1;
    forall b | 0 <= b <= m ensures IsChain(fast[b], bins[b], Nexts(pieces)) {
      var a := if b < m0 then b else m0;
      assert IsChain(fast0[a], bins0[a], Nexts(pieces));
    }
    forall b | 0 <= b < m
      ensures Belong(bins[b], b, pieces, link, align, |bins|, {})
      ensures forall s :: s in bins[b] ==> s !in bins[m]
    {
      assert b < m0 ==> Belong(bins0[b], b, pieces, link, align, |bins0|, {});
      assert Belong(bins0[m0], m0, pieces, link, align, |bins0|, {});
    }
    assert Belong(bins0[m0], m0, pieces, link, align, |bins0|, {});
    forall s: nat | s < |link| && link[s] == DELMARK
      ensures s in bins[BinOf(|pieces[s]|, align, |bins|)] || s in bins[m][0..]
    {
      assert s in bins0[BinOf(|pieces[s]|, align, |bins0|)];
      assert bins[m][0..] == bins0[m0];
    }
  }

  lemma SpreadKeep(fast: seq<nat>, bins: seq<seq<nat>>, pieces: seq<seq<Byte>>, link: seq<nat>, align: nat, kept: nat)
    requires Spreading(fast, bins, pieces, link, align, kept) && kept < |bins[|bins| - 1]|
    requires bins[|bins| - 1][kept] < |pieces| && BinOf(|pieces[bins[|bins| - 1][kept]]|, align, |bins|) == |bins| - 1
    ensures Spreading(fast, bins, pieces, link, align, kept + 1)
  {
    hide IsChain, BinOf;
    var m := |bins| - 1;
    var c := bins[m];
    assert c[..kept + 1] == c[..kept] + [c[kept]] && c[kept..] == [c[kept]] + c[kept + 1..];
    assert c[kept] in c;
  }

  lemma SpreadDone(fast: seq<nat>, bins: seq<seq<nat>>, pieces: seq<seq<Byte>>, link: seq<nat>, align: nat, kept: nat)
    requires Spreading(fast, bins, pieces, link, align, kept) && kept == |bins[|bins| - 1]|
    ensures BinsOk(fast, bins, pieces, link, align, {})
  {
    hide IsChain, BinOf;
    var m := |bins| - 1;
    assert bins[m][..kept] == bins[m] && bins[m][kept..] == [];
  }

  /** A slot leaves the last list, at place `kept`, for the list of its length. */
  lemma SpreadMove(fast: seq<nat>, bins: seq<seq<nat>>, pieces: seq<seq<Byte>>, link: seq<nat>, align: nat, kept: nat,
                   curr: nat, b: nat, next: nat, fast': seq<nat>, bins': seq<seq<nat>>, pieces': seq<seq<Byte>>)
    requires Spreading(fast, bins, pieces, link, align, kept) && kept < |bins[|bins| - 1]|
      && curr == bins[|bins| - 1][kept] < |pieces|
    requires b == BinOf(|pieces[curr]|, align, |bins|) < |bins| - 1 && next == NextIn(pieces[curr])
    requires kept > 0 ==> bins[|bins| - 1][kept - 1] < |pieces|
    requires bins' == bins[b := [curr] + bins[b]][|bins| - 1 := Without(bins[|bins| - 1], kept)]
    requires fast' == (if kept == 0 then fast[b := curr][|bins| - 1 := next] else fast[b := curr])
    requires pieces' == SpreadWrites(pieces, bins[|bins| - 1], kept, curr, fast[b], next)
    ensures Spreading(fast', bins', pieces', link, align, kept)
  {
    hide Spreading;
    SpreadLinks(fast, bins, pieces, link, align, kept, curr, b, next, fast', bins', pieces');
    SpreadPlaces(fast, bins, pieces, link, align, kept, curr, b, bins', pieces');
    SpreadBuild(fast', bins', pieces', link, align, kept);
  }

  /** The two links written: the slot's own, and that of the slot before it. */
  ghost function SpreadWrites(pieces: seq<seq<Byte>>, c: seq<nat>, kept: nat, curr: nat, head: nat,
                              next: nat): (r: seq<seq<Byte>>)
    requires curr < |pieces| && |pieces[curr]| >= 4 && kept < |c| && c[kept] == curr
    requires kept > 0 ==> c[kept - 1] < |pieces| && |pieces[c[kept - 1]]| >= 4
    ensures |r| == |pieces| && forall s :: 0 <= s < |r| ==> |r[s]| == |pieces[s]|
  {
    var p := pieces[curr := WithNext(pieces[curr], head)];
    if kept == 0 then p else p[c[kept - 1] := WithNext(p[c[kept - 1]], next)]
  }

  lemma SpreadBuild(fast: seq<nat>, bins: seq<seq<nat>>, pieces: seq<seq<Byte>>, link: seq<nat>, align: nat, kept: nat)
    requires |fast| == |bins| >= 1 && |link| == |pieces| <= DELMARK && Long(pieces, align) && kept <= |bins[|bins| - 1]|
    requires forall b :: 0 <= b < |bins| ==> IsChain(fast[b], bins[b], Nexts(pieces))
    requires forall b :: 0 <= b < |bins| - 1 ==> Belong(bins[b], b, pieces, link, align, |bins|, {})
    requires Belong(bins[|bins| - 1][..kept], |bins| - 1, pieces, link, align, |bins|, {})
    requires forall s :: s in bins[|bins| - 1] ==> s < |link| && link[s] == DELMARK
    requires forall b, s :: 0 <= b < |bins| - 1 && s in bins[b] ==> s !in bins[|bins| - 1]
    requires forall s: nat :: s < |link| && link[s] == DELMARK ==>
      s in bins[BinOf(|pieces[s]|, align, |bins|)] || s in bins[|bins| - 1][kept..]
    ensures Spreading(fast, bins, pieces, link, align, kept)
  {
  }

  lemma SpreadLinks(fast: seq<nat>, bins: seq<seq<nat>>, pieces: seq<seq<Byte>>, link: seq<nat>, align: nat, kept: nat,
                    curr: nat, b: nat, next: nat, fast': seq<nat>, bins': seq<seq<nat>>, pieces': seq<seq<Byte>>)
    requires Spreading(fast, bins, pieces, link, align, kept) && kept < |bins[|bins| - 1]|
      && curr == bins[|bins| - 1][kept] < |pieces|
    requires b < |bins| - 1 && next == NextIn(pieces[curr]) && (kept > 0 ==> bins[|bins| - 1][kept - 1] < |pieces|)
    requires bins' == bins[b := [curr] + bins[b]][|bins| - 1 := Without(bins[|bins| - 1], kept)]
    requires fast' == (if kept == 0 then fast[b := curr][|bins| - 1 := next] else fast[b := curr])
    requires pieces' == SpreadWrites(pieces, bins[|bins| - 1], kept, curr, fast[b], next)
    ensures |fast'| == |bins'| == |bins| && |link| == |pieces'| <= DELMARK && Long(pieces', align)
    ensures forall d :: 0 <= d < |bins| ==> IsChain(fast'[d], bins'[d], Nexts(pieces'))
  {
    hide BinOf, Belong;
    var m, c, n := |bins| - 1, bins[|bins| - 1], Nexts(pieces);
    assert IsChain(fast[m], c, n) && IsChain(fast[b], bins[b], n) && curr in c;
    ChainRemove(fast[m], c, n, kept);
    WithoutMembers(c, kept);
    LinkFits(fast[m], c, pieces, align, kept);
    assert n[curr] == next;
    SpreadNexts(pieces, align, c, kept, curr, fast[b], next, fast[m]);
    var n1 := if kept == 0 then n else n[c[kept - 1] := next];
    assert Nexts(pieces') == n1[curr := fast[b]];
    forall d | 0 <= d < |bins| ensures IsChain(fast'[d], bins'[d], Nexts(pieces')) {
      assert IsChain(fast[d], bins[d], n);
      if d == m {
        ChainFrame(fast'[m], Without(c, kept), n1, curr, fast[b]);
      } else {
        assert curr !in bins[d] && (kept > 0 ==> c[kept - 1] in c && c[kept - 1] !in bins[d]);
        if kept > 0 {
          ChainFrame(fast[d], bins[d], n, c[kept - 1], next);
        }
        if d == b {
          ChainPush(fast[b], bins[b], n1, curr);
        } else {
          ChainFrame(fast[d], bins[d], n1, curr, fast[b]);
        }
      }
    }
  }

  lemma SpreadNexts(pieces: seq<seq<Byte>>, align: nat, c: seq<nat>, kept: nat, curr: nat, head: nat, next: nat,
                    first: nat)
    requires Long(pieces, align) && |pieces| <= DELMARK && IsChain(first, c, Nexts(pieces)) && kept < |c|
      && c[kept] == curr
    requires head < 0x1_0000_0000 && next < 0x1_0000_0000
    ensures curr < |pieces| && (kept > 0 ==> c[kept - 1] < |pieces| && c[kept - 1] != curr)
    ensures Long(SpreadWrites(pieces, c, kept, curr, head, next), align)
    ensures Nexts(SpreadWrites(pieces, c, kept, curr, head, next))
         == (if kept == 0 then Nexts(pieces) else Nexts(pieces)[c[kept - 1] := next])[curr := head]
  {
    NextsWrite(pieces, align, curr, head);
    if kept > 0 {
      NextsWrite(pieces[curr := WithNext(pieces[curr], head)], align, c[kept - 1], next);
    }
  }

  lemma SpreadPlaces(fast: seq<nat>, bins: seq<seq<nat>>, pieces: seq<seq<Byte>>, link: seq<nat>, align: nat, kept: nat,
                     curr: nat, b: nat, bins': seq<seq<nat>>, pieces': seq<seq<Byte>>)
    requires Spreading(fast, bins, pieces, link, align, kept) && kept < |bins[|bins| - 1]|
      && curr == bins[|bins| - 1][kept] < |pieces|
    requires b == BinOf(|pieces[curr]|, align, |bins|) < |bins| - 1
    requires |pieces'| == |pieces| && forall s :: 0 <= s < |pieces| ==> |pieces'[s]| == |pieces[s]|
    requires bins' == bins[b := [curr] + bins[b]][|bins| - 1 := Without(bins[|bins| - 1], kept)]
    ensures kept <= |bins'[|bins| - 1]|
    ensures forall d :: 0 <= d < |bins| - 1 ==> Belong(bins'[d], d, pieces', link, align, |bins|, {})
    ensures Belong(bins'[|bins| - 1][..kept], |bins| - 1, pieces', link, align, |bins|, {})
    ensures forall s :: s in bins'[|bins| - 1] ==> s < |link| && link[s] == DELMARK
    ensures forall d, s :: 0 <= d < |bins| - 1 && s in bins'[d] ==> s !in bins'[|bins| - 1]
    ensures forall s: nat :: s < |link| && link[s] == DELMARK ==>
      s in bins'[BinOf(|pieces'[s]|, align, |bins|)] || s in bins'[|bins| - 1][kept..]
  {
    hide BinOf;
    var m, c := |bins| - 1, bins[|bins| - 1];
    assert IsChain(fast[m], c, Nexts(pieces)) && curr in c;
    WithoutMembers(c, kept);
    var c' := Without(c, kept);
    assert c'[..kept] == c[..kept] && c'[kept..] == c[kept + 1..] && c[kept..] == [curr] + c[kept + 1..];
    forall d | 0 <= d < m ensures Belong(bins'[d], d, pieces', link, align, |bins|, {}) {
      assert Belong(bins[d], d, pieces, link, align, |bins|, {});
    }
    forall s: nat | s < |link| && link[s] == DELMARK
      ensures s in bins'[BinOf(|pieces'[s]|, align, |bins|)] || s in bins'[m][kept..]
    {
      assert s in bins[BinOf(|pieces[s]|, align, |bins|)] || s in c[kept..];
      if s != curr && BinOf(|pieces[s]|, align, |bins|) == m && s in c {
        assert s in c';
      }
    }
  }
}
