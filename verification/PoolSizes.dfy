/** The size a free huge block says it has: its length in bytes, in as many bits as a link. */
module PoolSizes {
  import opened PoolSkip
  import opened PoolLinks
  import opened PoolTake
  import opened PoolBlocks
  import opened PoolState

  /** Blocks aligned to four bytes have links of four bytes; all others have links of eight and
      are aligned to some number of them. */
  predicate LinkShape(align: nat, wordBytes: nat) {
    (wordBytes == 4 && align == 1) || (wordBytes == 8 && align > 0)
  }

  /** Positions stay below the all-ones word, which ends a list: four-byte links count
      alignment units, others bytes. */
  function LinkLimit(wordBytes: nat): (limit: nat)
    requires wordBytes > 0
    ensures limit <= TAIL
  {
    if wordBytes == 4 then 0xFFFF_FFFF else TAIL / wordBytes
  }

  /** How many values a link has. */
  function LinkRange(wordBytes: nat): nat {
    if wordBytes == 4 then 0x1_0000_0000 else 0x1_0000_0000_0000_0000
  }

  /** The stored size of a block of `len` words: bytes, modulo the range of a link, in words again. */
  function StoredSize(len: nat, wordBytes: nat): nat
    requires wordBytes > 0
  {
    len * wordBytes % LinkRange(wordBytes) / wordBytes
  }

  /** The first length, in words, whose bytes no longer fit a link. */
  function SizeRange(wordBytes: nat): nat {
    if wordBytes == 4 then 0x4000_0000 else 0x2000_0000_0000_0000
  }

  /** The stored size is the length exactly for lengths below `SizeRange`, and too small for
      all others. */
  lemma StoredExact(len: nat, align: nat, wordBytes: nat)
    requires LinkShape(align, wordBytes)
    ensures StoredSize(len, wordBytes) == len <==> len < SizeRange(wordBytes)
    ensures StoredSize(len, wordBytes) <= len && StoredSize(len, wordBytes) < SizeRange(wordBytes)
  {
    if wordBytes == 4 {
      assert len * 4 % 0x1_0000_0000 == len % 0x4000_0000 * 4;
    } else {
      assert len * 8 % 0x1_0000_0000_0000_0000 == len % 0x2000_0000_0000_0000 * 8;
    }
  }

  /** A free block of 4 GiB behind four-byte links says that it is empty. */
  lemma FourGigabytes()
    ensures StoredSize(0x4000_0000, 4) == 0
  {
  }

  /** Every free huge block says its stored size. */
  ghost predicate Sizes(sh: Shape, wordBytes: nat)
    requires wordBytes > 0
  {
    forall p :: p in sh.base ==> p in sh.blocks && p in sh.sz && sh.sz[p] == StoredSize(sh.blocks[p], wordBytes)
  }

  /** No stored size is wrapped, and the huge list is sorted. */
  ghost predicate Unwrapped(sh: Shape, wordBytes: nat) {
    && Sorted(sh.base, sh.sz)
    && forall p :: p in sh.base ==> p in sh.blocks && sh.blocks[p] < SizeRange(wordBytes)
  }

  /** Steps that leave the huge list alone. */
  lemma SizesSame(sh: Shape, sh': Shape, wordBytes: nat)
    requires wordBytes > 0 && Sizes(sh, wordBytes) && sh'.base == sh.base && sh'.sz == sh.sz
    requires forall p :: p in sh.base && p in sh.blocks ==> p in sh'.blocks && sh'.blocks[p] == sh.blocks[p]
    ensures Sizes(sh', wordBytes) && (Unwrapped(sh', wordBytes) <==> Unwrapped(sh, wordBytes))
  {
  }

  /** A block freed at its place in a sorted list keeps it sorted, unless its size wraps. */
  lemma SizesPut(sh: Shape, pos: nat, c: nat, level: nat, sh': Shape, align: nat, wordBytes: nat)
    requires LinkShape(align, wordBytes) && Sizes(sh, wordBytes) && c <= |sh.base| && pos in sh.blocks
      && pos !in sh.base
    requires Sorted(sh.base, sh.sz) ==> c == Below(sh.base, sh.sz, sh.blocks[pos])
    requires sh' == sh.(live := sh.live - {pos}, base := PutAt(sh.base, c, pos), lvl := sh.lvl[pos := level],
                        sz := sh.sz[pos := StoredSize(sh.blocks[pos], wordBytes)])
    ensures Sizes(sh', wordBytes)
    ensures Unwrapped(sh, wordBytes) ==> (Unwrapped(sh', wordBytes) <==> sh.blocks[pos] < SizeRange(wordBytes))
  {
    hide Sorted, Below, StoredSize;
    PutMembers(sh.base, c, pos);
    StoredExact(sh.blocks[pos], align, wordBytes);
    if Unwrapped(sh, wordBytes) && sh.blocks[pos] < SizeRange(wordBytes) {
      SortedSame(sh.base, sh.sz, sh'.sz, sh.blocks[pos]);
      PutSorted(sh.base, sh'.sz, pos);
    }
  }

  lemma SortedSame(base: seq<nat>, sz: map<nat, nat>, sz': map<nat, nat>, len: nat)
    requires Sorted(base, sz) && forall p :: p in base && p in sz ==> p in sz' && sz'[p] == sz[p]
    ensures Sorted(base, sz') && Below(base, sz', len) == Below(base, sz, len)
  {
    BelowSplits(base, sz, len);
    BelowUnique(base, sz', len, Below(base, sz, len));
  }

  lemma SizesTake(sh: Shape, c: nat, sh': Shape, wordBytes: nat)
    requires wordBytes > 0 && Sizes(sh, wordBytes) && c < |sh.base| && Spread(sh.base)
    requires sh'.blocks == sh.blocks && sh'.sz == sh.sz && sh'.base == TakeAt(sh.base, c)
    ensures Sizes(sh', wordBytes) && (Unwrapped(sh, wordBytes) ==> Unwrapped(sh', wordBytes))
  {
    hide Sorted, StoredSize;
    TakeMembers(sh.base, c);
    if Unwrapped(sh, wordBytes) {
      TakeSorted(sh.base, sh.sz, c);
    }
  }
}
