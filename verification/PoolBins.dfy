/** The small free blocks of the pool: one list for every length, linked through the
    first word of the blocks. */
module PoolBins {
  import opened PoolSkip
  import opened PoolBlocks

  // ---- lengths and bins

  function Bin(len: nat, align: nat): int
    requires align > 0
  {
    len / align - 1
  }

  function BinLen(i: int, align: nat): int { (i + 1) * align }

  /** A bin holds exactly the blocks of one length. */
  lemma BinExact(len: nat, align: nat, count: nat)
    requires len > 0 && Aligned(len, align)
    ensures Bin(len, align) >= 0 && BinLen(Bin(len, align), align) == len
    ensures len <= count * align <==> Bin(len, align) < count
  {
    var q := len / align;
    assert len == q * align;
    AtLeast(count - q, align);
    AtLeast(q - count, align);
    assert (count - q) * align == count * align - q * align && (q - count) * align == q * align - count * align;
  }

  lemma BinOne(i: int, j: int, align: nat)
    requires align > 0 && BinLen(i, align) == BinLen(j, align)
    ensures i == j
  {
    MulMod(i + 1, align);
    MulMod(j + 1, align);
  }

  // ---- lists

  ghost predicate Once(s: seq<nat>) {
    forall i, j :: 0 <= i < j < |s| ==> s[i] != s[j]
  }

  ghost predicate LinkOk(mem: seq<int>, s: seq<nat>, i: nat)
    requires i < |s|
  {
    s[i] < |mem| && mem[s[i]] == LinkTo(s, i + 1)
  }

  /** From `first` on, the first words of the blocks run through `s`. */
  ghost predicate Chain(mem: seq<int>, first: int, s: seq<nat>) {
    first == LinkTo(s, 0) && forall i :: 0 <= i < |s| ==> LinkOk(mem, s, i)
  }

  lemma ChainSame(mem: seq<int>, mem': seq<int>, first: int, s: seq<nat>)
    requires Chain(mem, first, s) && |mem'| == |mem| && forall p :: p in s ==> p < |mem| && mem'[p] == mem[p]
    ensures Chain(mem', first, s)
  {
    forall i | 0 <= i < |s| ensures LinkOk(mem', s, i) {
      assert LinkOk(mem, s, i) && s[i] in s;
    }
  }

  lemma ChainPush(mem: seq<int>, first: int, s: seq<nat>, pos: nat)
    requires Chain(mem, first, s) && Once(s) && pos !in s && pos < |mem|
    ensures Chain(mem[pos := first], pos, [pos] + s) && Once([pos] + s)
  {
    var t, mem' := [pos] + s, mem[pos := first];
    forall i | 0 <= i < |t| ensures LinkOk(mem', t, i) {
      if i > 0 {
        assert LinkOk(mem, s, i - 1) && t[i] == s[i - 1] && s[i - 1] in s;
      }
    }
  }

  lemma ChainPop(mem: seq<int>, first: int, s: seq<nat>)
    requires Chain(mem, first, s) && Once(s) && s != []
    ensures first == s[0] < |mem| && Chain(mem, mem[first], s[1..]) && Once(s[1..])
    ensures forall q :: q in s[1..] <==> q in s && q != s[0]
  {
    assert s == [s[0]] + s[1..];
    assert LinkOk(mem, s, 0);
    forall i | 0 <= i < |s[1..]| ensures LinkOk(mem, s[1..], i) {
      assert LinkOk(mem, s, i + 1);
    }
  }

  ghost predicate BinOk(mem: seq<int>, head: int, cnt: nat, s: seq<nat>, blocks: map<nat, nat>, len: int) {
    Chain(mem, head, s) && Once(s) && cnt == |s| && forall p :: p in s ==> p in blocks && blocks[p] == len
  }

  /** Every bin lists blocks of its length, and counts them. */
  ghost predicate BinsOk(mem: seq<int>, heads: seq<int>, cnts: seq<nat>, small: seq<seq<nat>>, blocks: map<nat, nat>,
                         align: nat) {
    && |heads| == |cnts| == |small|
    && forall i :: 0 <= i < |small| ==> BinOk(mem, heads[i], cnts[i], small[i], blocks, BinLen(i, align))
  }

  /** The words and lengths of one list are as they were. */
  ghost predicate SameBin(s: seq<nat>, mem: seq<int>, mem': seq<int>, blocks: map<nat, nat>, blocks': map<nat, nat>) {
    && |mem'| == |mem|
    && forall p :: p in s ==> p < |mem| && mem'[p] == mem[p] && p in blocks && p in blocks' && blocks'[p] == blocks[p]
  }

  lemma BinsSame(mem: seq<int>, mem': seq<int>, heads: seq<int>, cnts: seq<nat>, small: seq<seq<nat>>,
                 blocks: map<nat, nat>, blocks': map<nat, nat>, align: nat)
    requires BinsOk(mem, heads, cnts, small, blocks, align) && |mem'| == |mem|
    requires forall i :: 0 <= i < |small| ==> SameBin(small[i], mem, mem', blocks, blocks')
    ensures BinsOk(mem', heads, cnts, small, blocks', align)
  {
    forall i | 0 <= i < |small| ensures BinOk(mem', heads[i], cnts[i], small[i], blocks', BinLen(i, align)) {
      assert BinOk(mem, heads[i], cnts[i], small[i], blocks, BinLen(i, align));
      ChainSame(mem, mem', heads[i], small[i]);
    }
  }

  lemma BinsPush(mem: seq<int>, heads: seq<int>, cnts: seq<nat>, small: seq<seq<nat>>, blocks: map<nat, nat>,
                 align: nat, i: nat, pos: nat)
    requires BinsOk(mem, heads, cnts, small, blocks, align) && i < |small| && pos in blocks && pos < |mem|
    requires blocks[pos] == BinLen(i, align) && forall j :: 0 <= j < |small| ==> pos !in small[j]
    ensures BinsOk(mem[pos := heads[i]], heads[i := pos], cnts[i := cnts[i] + 1], small[i := [pos] + small[i]], blocks,
        align)
  {
    var mem', heads', cnts', small' := mem[pos := heads[i]], heads[i := pos], cnts[i := cnts[i] + 1],
        small[i := [pos] + small[i]];
    forall j | 0 <= j < |small| ensures BinOk(mem', heads'[j], cnts'[j], small'[j], blocks, BinLen(j, align)) {
      assert BinOk(mem, heads[j], cnts[j], small[j], blocks, BinLen(j, align));
      if j == i {
        ChainPush(mem, heads[i], small[i], pos);
      } else {
        forall p | p in small[j] ensures p < |mem| && mem'[p] == mem[p] {
          InChain(mem, heads[j], small[j], p);
        }
        ChainSame(mem, mem', heads[j], small[j]);
      }
    }
  }

  lemma InChain(mem: seq<int>, first: int, s: seq<nat>, p: nat)
    requires Chain(mem, first, s) && p in s
    ensures p < |mem|
  {
    var i :| 0 <= i < |s| && s[i] == p;
    assert LinkOk(mem, s, i);
  }

  lemma BinsPop(mem: seq<int>, heads: seq<int>, cnts: seq<nat>, small: seq<seq<nat>>, blocks: map<nat, nat>, align: nat,
                i: nat)
    requires BinsOk(mem, heads, cnts, small, blocks, align) && i < |small| && heads[i] != TAIL
    ensures small[i] != [] && heads[i] == small[i][0] < |mem| && cnts[i] > 0
    ensures BinsOk(mem, heads[i := mem[heads[i]]], cnts[i := cnts[i] - 1], small[i := small[i][1..]], blocks, align)
    ensures forall q :: q in small[i][1..] <==> q in small[i] && q != small[i][0]
    ensures small[i][0] in blocks && blocks[small[i][0]] == BinLen(i, align)
  {
    assert BinOk(mem, heads[i], cnts[i], small[i], blocks, BinLen(i, align));
    ChainPop(mem, heads[i], small[i]);
    var heads', cnts', small' := heads[i := mem[heads[i]]], cnts[i := cnts[i] - 1], small[i := small[i][1..]];
    assert small[i][0] in small[i];
    forall j | 0 <= j < |small| ensures BinOk(mem, heads'[j], cnts'[j], small'[j], blocks, BinLen(j, align)) {
      assert BinOk(mem, heads[j], cnts[j], small[j], blocks, BinLen(j, align));
    }
  }

  /** An empty bin, seen from its head. */
  lemma BinEmpty(mem: seq<int>, heads: seq<int>, cnts: seq<nat>, small: seq<seq<nat>>, blocks: map<nat, nat>,
                 align: nat, i: nat)
    requires BinsOk(mem, heads, cnts, small, blocks, align) && i < |small| && |mem| <= TAIL
    ensures heads[i] == TAIL <==> small[i] == []
  {
    assert BinOk(mem, heads[i], cnts[i], small[i], blocks, BinLen(i, align));
    assert small[i] != [] ==> LinkOk(mem, small[i], 0);
  }
}
