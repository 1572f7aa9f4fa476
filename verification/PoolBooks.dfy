/** The counters of the pool against the blocks they stand for. */
module PoolBooks {
  import opened PoolSkip
  import opened PoolLinks
  import opened PoolTake
  import opened PoolBlocks
  import opened PoolState

  /** Words in free blocks. */
  ghost function FreeWords(sh: Shape): nat {
    Sum(sh.blocks - sh.live.Keys)
  }

  ghost function HugeBlocks(sh: Shape): map<nat, nat> {
    map p | p in sh.base && p in sh.blocks :: sh.blocks[p]
  }

  /** Words in free blocks of the huge list. */
  ghost function HugeWords(sh: Shape): nat {
    Sum(HugeBlocks(sh))
  }

  lemma FreedWords(sh: Shape, pos: nat, sh': Shape)
    requires pos in sh.blocks && pos in sh.live && sh'.blocks == sh.blocks && sh'.live == sh.live - {pos}
    ensures FreeWords(sh') == FreeWords(sh) + sh.blocks[pos]
  {
    assert sh'.blocks - sh'.live.Keys == (sh.blocks - sh.live.Keys)[pos := sh.blocks[pos]];
    SumIn(sh.blocks - sh.live.Keys, pos, sh.blocks[pos]);
  }

  lemma TakenWords(sh: Shape, pos: nat, sh': Shape)
    requires pos in sh.blocks && pos !in sh.live && sh'.blocks == sh.blocks
      && sh'.live == sh.live[pos := sh.blocks[pos]]
    ensures FreeWords(sh) == FreeWords(sh') + sh.blocks[pos]
  {
    FreedWords(sh', pos, sh);
    assert sh.live == sh'.live - {pos};
  }

  lemma RecutWords(sh: Shape, sh': Shape)
    requires SameFree(sh, sh') && forall p :: p in sh.base ==> p in sh.blocks && p !in sh.live
    ensures FreeWords(sh') == FreeWords(sh) && HugeWords(sh') == HugeWords(sh)
  {
    assert sh'.blocks - sh'.live.Keys == sh.blocks - sh.live.Keys;
    assert HugeBlocks(sh') == HugeBlocks(sh);
  }

  lemma SameHuge(sh: Shape, sh': Shape)
    requires sh'.blocks == sh.blocks && sh'.base == sh.base
    ensures HugeWords(sh') == HugeWords(sh)
  {
  }

  lemma PutWords(sh: Shape, c: nat, pos: nat, sh': Shape)
    requires pos in sh.blocks && pos !in sh.base && c <= |sh.base|
    requires sh'.blocks == sh.blocks && sh'.base == PutAt(sh.base, c, pos)
    ensures HugeWords(sh') == HugeWords(sh) + sh.blocks[pos]
  {
    PutMembers(sh.base, c, pos);
    assert HugeBlocks(sh') == HugeBlocks(sh)[pos := sh.blocks[pos]];
    SumIn(HugeBlocks(sh), pos, sh.blocks[pos]);
  }

  lemma TookWords(sh: Shape, c: nat, sh': Shape)
    requires c < |sh.base| && sh.base[c] in sh.blocks && Spread(sh.base)
    requires sh'.blocks == sh.blocks && sh'.base == TakeAt(sh.base, c)
    ensures HugeWords(sh) == HugeWords(sh') + sh.blocks[sh.base[c]]
  {
    TakeMembers(sh.base, c);
    SumOut(HugeBlocks(sh), sh.base[c]);
    assert HugeBlocks(sh) - {sh.base[c]} == HugeBlocks(sh');
  }

  /** Live and free words together are the used words. */
  lemma Conservation(st: Store, sh: Shape, align: nat)
    requires Inv(st, sh, align)
    ensures Sum(sh.live) + FreeWords(sh) == st.n
  {
    TiledSum(sh.blocks, st.n, align);
    SumParts(sh.blocks, sh.live.Keys);
    assert sh.blocks - (sh.blocks.Keys - sh.live.Keys) == sh.live;
  }

  // ---- requests in bytes

  /** `align_up`, in link words of `wordBytes` bytes. */
  function Words(bytes: nat, wordBytes: nat, align: nat): (w: nat)
    requires wordBytes > 0 && align > 0
  {
    AtLeast(align, wordBytes);
    (bytes + align * wordBytes - 1) / (align * wordBytes) * align
  }

  /** The request is covered, by no more units than needed. */
  lemma WordsFit(bytes: nat, wordBytes: nat, align: nat)
    requires wordBytes > 0 && align > 0 && bytes > 0
    ensures var w := Words(bytes, wordBytes, align);
            w > 0 && Aligned(w, align) && bytes <= w * wordBytes < bytes + align * wordBytes
  {
    var unit := align * wordBytes;
    AtLeast(align, wordBytes);
    var q, r := (bytes + unit - 1) / unit, (bytes + unit - 1) % unit;
    assert bytes + unit - 1 == q * unit + r;
    assert q >= 1;
    MulMod(q, align);
    AtLeast(q, align);
    assert q * align * wordBytes == q * unit by { Regroup(q, align, wordBytes); }
  }

  lemma Regroup(a: nat, b: nat, c: nat)
    ensures a * b * c == a * (b * c)
  {
  }
}
