/** The freelists of the string map: one for every slot length up to a limit, the last one
    for all longer slots. */
module StrBins {
  import opened Basics
  import opened HashSizing
  import opened HashChains
  import opened StrSlots
  import P = PoolBlocks

  /** The list a slot of `len` bytes belongs to, of `count` lists in all. */
  function BinOf(len: nat, align: nat, count: nat): (b: nat)
    requires align > 0 && count > 0
    ensures b < count
  {
    if len < align then 0 else if len / align - 1 < count then len / align - 1 else count - 1
  }

  /** A whole number of alignment units, at least one. */
  predicate Whole(n: nat, align: nat) {
    align > 0 && n >= align && n % align == 0
  }

  lemma WholeSame(n: nat, m: nat, align: nat)
    requires Whole(n, align) && Whole(m, align) && n / align == m / align
    ensures n == m
  {
  }

  lemma RealWhole(n: nat, align: nat)
    requires align > 0
    ensures Whole(RealLen(n, align), align)
  {
    var q := (n + align) / align;
    P.MulMod(q, align);
  }

  ghost predicate Long(pieces: seq<seq<Byte>>, align: nat) {
    align >= 4 && forall i :: 0 <= i < |pieces| ==> Whole(|pieces[i]|, align) && |pieces[i]| >= align
  }

  /** The slots of one list: free, of the right length, and not in `out`. */
  ghost predicate Belong(c: seq<nat>, b: nat, pieces: seq<seq<Byte>>, link: seq<nat>, align: nat, count: nat,
                         out: set<nat>)
    requires align > 0 && count > 0 && |link| == |pieces|
  {
    forall s :: s in c ==> s < |link| && link[s] == DELMARK && BinOf(|pieces[s]|, align, count) == b && s !in out
  }

  /** The lists hold exactly the free slots, each in the list of its length, but for those in `out`. */
  ghost predicate BinsOk(fast: seq<nat>, bins: seq<seq<nat>>, pieces: seq<seq<Byte>>, link: seq<nat>, align: nat,
                         out: set<nat>) {
    && |fast| == |bins| >= 1 && |link| == |pieces| <= DELMARK && Long(pieces, align)
    && (forall b :: 0 <= b < |bins| ==> IsChain(fast[b], bins[b], Nexts(pieces)))
    && (forall b :: 0 <= b < |bins| ==> Belong(bins[b], b, pieces, link, align, |bins|, out))
    && (forall s: nat :: s < |link| && link[s] == DELMARK && s !in out ==> s in bins[BinOf(|pieces[s]|, align, |bins|)])
  }

  lemma BinsShape(fast: seq<nat>, bins: seq<seq<nat>>, pieces: seq<seq<Byte>>, link: seq<nat>, align: nat,
                  out: set<nat>)
    requires BinsOk(fast, bins, pieces, link, align, out)
    ensures |fast| == |bins| && Long(pieces, align) && |link| == |pieces| <= DELMARK
    ensures forall i :: 0 <= i < |pieces| ==> |pieces[i]| >= 4
  {
  }

  /** Writing a link changes the link of that slot only. */
  lemma NextsWrite(pieces: seq<seq<Byte>>, align: nat, s: nat, next: nat)
    requires Long(pieces, align) && s < |pieces| && next < 0x1_0000_0000
    ensures Long(pieces[s := WithNext(pieces[s], next)], align)
    ensures Nexts(pieces[s := WithNext(pieces[s], next)]) == Nexts(pieces)[s := next]
  {
    NextWritten(pieces[s], next);
  }

  lemma HeadFits(fast: seq<nat>, bins: seq<seq<nat>>, pieces: seq<seq<Byte>>, link: seq<nat>, align: nat, out: set<nat>,
                 b: nat)
    requires BinsOk(fast, bins, pieces, link, align, out) && b < |bins|
    ensures fast[b] < 0x1_0000_0000
    ensures fast[b] == TAIL <==> bins[b] == []
    ensures bins[b] != [] ==> fast[b] == bins[b][0] < |pieces|
  {
    assert IsChain(fast[b], bins[b], Nexts(pieces));
  }

  lemma InBin(fast: seq<nat>, bins: seq<seq<nat>>, pieces: seq<seq<Byte>>, link: seq<nat>, align: nat, out: set<nat>,
              b: nat, s: nat)
    requires BinsOk(fast, bins, pieces, link, align, out) && b < |bins| && s in bins[b]
    ensures s < |link| && link[s] == DELMARK && BinOf(|pieces[s]|, align, |bins|) == b && Whole(|pieces[s]|, align)
      && s !in out
  {
    assert Belong(bins[b], b, pieces, link, align, |bins|, out);
  }

  lemma BinLink(fast: seq<nat>, bins: seq<seq<nat>>, pieces: seq<seq<Byte>>, link: seq<nat>, align: nat, out: set<nat>,
                b: nat, j: nat)
    requires BinsOk(fast, bins, pieces, link, align, out) && b < |bins| && j < |bins[b]|
    ensures bins[b][j] < |pieces| && |pieces[bins[b][j]]| >= 4 && NextIn(pieces[bins[b][j]]) == After(bins[b], j)
  {
    assert IsChain(fast[b], bins[b], Nexts(pieces));
    LinkFits(fast[b], bins[b], pieces, align, j);
  }

  /** Below the last list, the list tells the length. */
  lemma BinLength(n: nat, len: nat, align: nat, b: nat, count: nat)
    requires Whole(n, align) && Whole(len, align) && count > 0 && b < count - 1 && BinOf(n, align, count) == b
      && len / align == b + 1
    ensures n == len
  {
    WholeUnits(n, align);
    WholeSame(n, len, align);
  }

  lemma WholeUnits(n: nat, align: nat)
    requires Whole(n, align)
    ensures n / align >= 1
  {
    var q := n / align;
    assert n == q * align;
    P.AtLeast(q, align);
    P.AtLeast(-q, align);
    assert (-q) * align + n == 0;
  }

  /** `put_to_freelist`. */
  lemma PutFree(fast: seq<nat>, bins: seq<seq<nat>>, pieces: seq<seq<Byte>>, link: seq<nat>, align: nat, out: set<nat>,
                s: nat, b: nat, pieces': seq<seq<Byte>>)
    requires BinsOk(fast, bins, pieces, link, align, out) && s in out && s < |link| && link[s] == DELMARK
    requires b == BinOf(|pieces[s]|, align, |bins|) && pieces' == pieces[s := WithNext(pieces[s], fast[b])]
    ensures BinsOk(fast[b := s], bins[b := [s] + bins[b]], pieces', link, align, out - {s})
  {
    HeadFits(fast, bins, pieces, link, align, out, b);
    NextsWrite(pieces, align, s, fast[b]);
    var fast', bins' := fast[b := s], bins[b := [s] + bins[b]];
    forall c | 0 <= c < |bins|
      ensures IsChain(fast'[c], bins'[c], Nexts(pieces'))
      ensures Belong(bins'[c], c, pieces', link, align, |bins|, out - {s})
    {
      assert IsChain(fast[c], bins[c], Nexts(pieces)) && Belong(bins[c], c, pieces, link, align, |bins|, out);
      if c == b {
        ChainPush(fast[b], bins[b], Nexts(pieces), s);
      } else {
        ChainFrame(fast[c], bins[c], Nexts(pieces), s, fast[b]);
      }
    }
  }

  /** Takes the slot at place `j` out of list `b`; its predecessor, or the head, takes over its link. */
  lemma TakeFree(fast: seq<nat>, bins: seq<seq<nat>>, pieces: seq<seq<Byte>>, link: seq<nat>, align: nat, out: set<nat>,
                 b: nat, j: nat, fast': seq<nat>, pieces': seq<seq<Byte>>)
    requires BinsOk(fast, bins, pieces, link, align, out) && b < |bins| && j < |bins[b]|
    requires bins[b][j] < |pieces| && (j > 0 ==> bins[b][j - 1] < |pieces|)
    requires fast' == if j == 0 then fast[b := NextIn(pieces[bins[b][0]])] else fast
    requires pieces' == if j == 0 then pieces
                        else pieces[bins[b][j - 1] := WithNext(pieces[bins[b][j - 1]], NextIn(pieces[bins[b][j]]))]
    ensures BinsOk(fast', bins[b := Without(bins[b], j)], pieces', link, align, out + {bins[b][j]})
    ensures link[bins[b][j]] == DELMARK && bins[b][j] !in out
  {
    var c, s := bins[b], bins[b][j];
    assert IsChain(fast[b], c, Nexts(pieces)) && Belong(c, b, pieces, link, align, |bins|, out) && s in c;
    ChainRemove(fast[b], c, Nexts(pieces), j);
    WithoutMembers(c, j);
    LinkFits(fast[b], c, pieces, align, j);
    if j > 0 {
      NextsWrite(pieces, align, c[j - 1], NextIn(pieces[s]));
    }
    var bins' := bins[b := Without(c, j)];
    forall d | 0 <= d < |bins|
      ensures IsChain(fast'[d], bins'[d], Nexts(pieces'))
      ensures Belong(bins'[d], d, pieces', link, align, |bins|, out + {s})
    {
      assert IsChain(fast[d], bins[d], Nexts(pieces)) && Belong(bins[d], d, pieces, link, align, |bins|, out);
      if d != b && j > 0 {
        assert c[j - 1] in c;
        ChainFrame(fast[d], bins[d], Nexts(pieces), c[j - 1], NextIn(pieces[s]));
      }
    }
  }

  lemma LinkFits(head: nat, c: seq<nat>, pieces: seq<seq<Byte>>, align: nat, j: nat)
    requires Long(pieces, align) && |pieces| <= DELMARK && IsChain(head, c, Nexts(pieces)) && j < |c|
    ensures c[j] < |pieces| && NextIn(pieces[c[j]]) == After(c, j) < 0x1_0000_0000
  {
    assert Nexts(pieces)[c[j]] == After(c, j);
  }

  /** A slot in `out` may be overwritten, and then even be marked live. */
  lemma FillSlot(fast: seq<nat>, bins: seq<seq<nat>>, pieces: seq<seq<Byte>>, link: seq<nat>, align: nat, out: set<nat>,
                 s: nat, p: seq<Byte>, l: nat)
    requires BinsOk(fast, bins, pieces, link, align, out) && s < |pieces| && (link[s] == DELMARK ==> s in out)
    requires |p| == |pieces[s]|
    ensures BinsOk(fast, bins, pieces[s := p], link[s := l], align, if l == DELMARK then out + {s} else out - {s})
  {
    var pieces', link', out' := pieces[s := p], link[s := l], if l == DELMARK then out + {s} else out - {s};
    assert Nexts(pieces') == Nexts(pieces)[s := NextIn(p)];
    forall b | 0 <= b < |bins|
      ensures IsChain(fast[b], bins[b], Nexts(pieces'))
      ensures Belong(bins[b], b, pieces', link', align, |bins|, out')
    {
      assert IsChain(fast[b], bins[b], Nexts(pieces)) && Belong(bins[b], b, pieces, link, align, |bins|, out);
      ChainFrame(fast[b], bins[b], Nexts(pieces), s, NextIn(p));
    }
  }

  /** Links of live slots may change freely. */
  lemma RelinkLive(fast: seq<nat>, bins: seq<seq<nat>>, pieces: seq<seq<Byte>>, link: seq<nat>, align: nat,
                   link': seq<nat>)
    requires BinsOk(fast, bins, pieces, link, align, {}) && |link'| == |link|
    requires forall s :: 0 <= s < |link| ==> (link[s] == DELMARK <==> link'[s] == DELMARK)
    ensures BinsOk(fast, bins, pieces, link', align, {})
  {
    forall b | 0 <= b < |bins| ensures Belong(bins[b], b, pieces, link', align, |bins|, {}) {
      assert Belong(bins[b], b, pieces, link, align, |bins|, {});
    }
  }

  /** A new live slot at the end. */
  lemma AppendLive(fast: seq<nat>, bins: seq<seq<nat>>, pieces: seq<seq<Byte>>, link: seq<nat>, align: nat,
                   p: seq<Byte>, l: nat)
    requires BinsOk(fast, bins, pieces, link, align, {}) && Whole(|p|, align) && l != DELMARK && |link| < DELMARK
    ensures BinsOk(fast, bins, pieces + [p], link + [l], align, {})
  {
    var pieces', link' := pieces + [p], link + [l];
    assert Nexts(pieces') == Nexts(pieces) + [NextIn(p)];
    forall b | 0 <= b < |bins|
      ensures IsChain(fast[b], bins[b], Nexts(pieces'))
      ensures Belong(bins[b], b, pieces', link', align, |bins|, {})
    {
      assert IsChain(fast[b], bins[b], Nexts(pieces)) && Belong(bins[b], b, pieces, link, align, |bins|, {});
    }
  }

  /** Fresh, empty lists. */
  lemma NoBins(count: nat, pieces: seq<seq<Byte>>, link: seq<nat>, align: nat, fast: seq<nat>, bins: seq<seq<nat>>,
               out: set<nat>)
    requires |fast| == |bins| == count >= 1 && |link| == |pieces| <= DELMARK && Long(pieces, align)
    requires forall b :: 0 <= b < count ==> fast[b] == TAIL && bins[b] == []
    requires forall s: nat :: s < |link| && link[s] == DELMARK ==> s in out
    ensures BinsOk(fast, bins, pieces, link, align, out)
  {
  }
}
