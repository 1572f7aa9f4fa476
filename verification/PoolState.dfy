/** What every operation of the pool keeps. */
module PoolState {
  import opened PoolSkip
  import opened PoolLinks
  import opened PoolTake
  import opened PoolBlocks
  import opened PoolBins

  /** The stored state: the words of the pool, how many are used, the list heads. */
  datatype Store = Store(mem: seq<int>, n: nat, next: seq<int>, height: nat, heads: seq<int>, cnts: seq<nat>)

  /** What the stored state stands for: all blocks, those that are in no list, the free ones by
      list, and the sizes that the nodes of the huge list say they have. */
  datatype Shape = Shape(blocks: map<nat, nat>, live: map<nat, nat>, small: seq<seq<nat>>, base: seq<nat>,
                         lvl: map<nat, nat>, sz: map<nat, nat>)

  ghost predicate Listed(sh: Shape, align: nat, p: nat)
    requires p in sh.blocks
  {
    if sh.blocks[p] <= |sh.small| * align
    then align > 0 && 0 <= Bin(sh.blocks[p], align) < |sh.small| && p in sh.small[Bin(sh.blocks[p], align)]
    else p in sh.base
  }

  /** Each block is live or in the one list of its length, never both. */
  ghost predicate Placed(sh: Shape, align: nat) {
    && (forall p :: p in sh.live ==> p in sh.blocks && sh.live[p] == sh.blocks[p])
    && (forall p :: p in sh.base ==> p in sh.blocks && sh.blocks[p] > |sh.small| * align)
    && (forall p {:trigger Listed(sh, align, p)} :: p in sh.blocks ==> (p in sh.live <==> !Listed(sh, align, p)))
  }

  ghost predicate Inv(st: Store, sh: Shape, align: nat) {
    && align > 0 && st.n <= |st.mem| <= TAIL && |sh.small| * align >= NODE_WORDS
    && Tiled(sh.blocks, st.n, align)
    && BinsOk(st.mem, st.heads, st.cnts, sh.small, sh.blocks, align)
    && SkipOk(st.mem, st.next, st.height, sh.base, sh.lvl, sh.sz)
    && Placed(sh, align)
  }

  /** No word of a live block differs. */
  ghost predicate SameData(live: map<nat, nat>, mem: seq<int>, mem': seq<int>) {
    && |mem'| == |mem|
    && forall p, x :: p in live && p <= x < p + live[p] && x < |mem| ==> mem'[x] == mem[x]
  }

  // ---- reading the invariant

  lemma LiveBlock(st: Store, sh: Shape, align: nat, p: nat)
    requires Inv(st, sh, align) && p in sh.live
    ensures p in sh.blocks && sh.blocks[p] == sh.live[p] > 0 && p + sh.live[p] <= st.n
    ensures Aligned(p, align) && Aligned(sh.live[p], align)
    ensures p !in sh.base && forall i :: 0 <= i < |sh.small| ==> p !in sh.small[i]
  {
    hide SkipOk, Aligned;
    BlockBound(sh.blocks, st.n, align, p);
    assert !Listed(sh, align, p);
    forall i | 0 <= i < |sh.small| ensures p !in sh.small[i] {
      if p in sh.small[i] {
        SmallListed(st, sh, align, i, p);
      }
    }
  }

  lemma SmallListed(st: Store, sh: Shape, align: nat, i: nat, p: nat)
    requires Inv(st, sh, align) && i < |sh.small| && p in sh.small[i]
    ensures p in sh.blocks && sh.blocks[p] == BinLen(i, align) && Listed(sh, align, p)
    ensures i == Bin(sh.blocks[p], align) && sh.blocks[p] <= |sh.small| * align
    ensures p < st.n
  {
    hide SkipOk, Aligned;
    assert BinOk(st.mem, st.heads[i], st.cnts[i], sh.small[i], sh.blocks, BinLen(i, align));
    BlockBound(sh.blocks, st.n, align, p);
    BinExact(sh.blocks[p], align, |sh.small|);
    BinOne(i, Bin(sh.blocks[p], align), align);
  }

  /** A block in a list is not live. */
  lemma FreeNotLive(st: Store, sh: Shape, align: nat, p: nat)
    requires Inv(st, sh, align)
    ensures p in sh.base ==> p in sh.blocks && p !in sh.live
    ensures (exists i :: 0 <= i < |sh.small| && p in sh.small[i]) ==> p in sh.blocks && p !in sh.live
  {
    hide SkipOk, Aligned;
    if p in sh.base {
      assert Listed(sh, align, p);
    }
    if i :| 0 <= i < |sh.small| && p in sh.small[i] {
      SmallListed(st, sh, align, i, p);
    }
  }

  lemma BlocksApart(st: Store, sh: Shape, align: nat, p: nat, q: nat)
    requires Inv(st, sh, align) && p in sh.blocks && q in sh.blocks && p != q
    ensures p + sh.blocks[p] <= q || q + sh.blocks[q] <= p
  {
  }

  // ---- one lemma for each kind of step

  /** A live block goes to the list of its length. */
  lemma PushKeeps(st: Store, sh: Shape, align: nat, pos: nat, i: nat, st': Store, sh': Shape)
    requires Inv(st, sh, align) && pos in sh.live && i < |sh.small| && sh.live[pos] == BinLen(i, align)
    requires i == Bin(sh.live[pos], align) && sh.live[pos] <= |sh.small| * align
      && |st.heads| == |st.cnts| == |sh.small|
    requires pos < |st.mem|
    requires st' == st.(mem := st.mem[pos := st.heads[i]], heads := st.heads[i := pos],
        cnts := st.cnts[i := st.cnts[i] + 1])
    requires sh' == sh.(live := sh.live - {pos}, small := sh.small[i := [pos] + sh.small[i]])
    ensures Inv(st', sh', align) && SameData(sh'.live, st.mem, st'.mem)
  {
    hide Aligned, Tiled, Disjoint, SkipOk, BinsOk, BinLen;
    LiveBlock(st, sh, align, pos);
    BinsPush(st.mem, st.heads, st.cnts, sh.small, sh.blocks, align, i, pos);
    SkipLive(st, sh, align, pos, st.heads[i]);
    LiveWrite(st, sh, align, pos, pos, st.heads[i]);
    forall p | p in sh'.blocks ensures p in sh'.live <==> !Listed(sh', align, p) {
      assert p in sh.live <==> !Listed(sh, align, p);
    }
  }

  /** Writing into a live block leaves the huge list alone. */
  lemma SkipLive(st: Store, sh: Shape, align: nat, pos: nat, v: int)
    requires Inv(st, sh, align) && pos in sh.live && pos < |st.mem|
    ensures SkipOk(st.mem[pos := v], st.next, st.height, sh.base, sh.lvl, sh.sz)
  {
    hide Aligned, Listed, BinsOk, Filter, Linked, Spread;
    forall p | p in sh.base ensures !(p <= pos < p + NODE_WORDS) {
      FreeNotLive(st, sh, align, p);
      LiveBlock(st, sh, align, pos);
      BlocksApart(st, sh, align, p, pos);
    }
    SkipSame(st.mem, st.mem[pos := v], st.next, st.height, sh.base, sh.lvl, sh.sz, sh.sz);
  }

  /** The huge list depends on the words of its nodes and their sizes only. */
  lemma SkipSame(mem: seq<int>, mem': seq<int>, next: seq<int>, height: nat, base: seq<nat>, lvl: map<nat, nat>,
                 sz: map<nat, nat>, sz': map<nat, nat>)
    requires SkipOk(mem, next, height, base, lvl, sz) && |mem'| == |mem|
    requires forall p :: p in base && p in sz ==> p in sz' && sz'[p] == sz[p]
    requires forall p, x :: p in base && p <= x < p + NODE_WORDS && x < |mem| ==> mem'[x] == mem[x]
    ensures SkipOk(mem', next, height, base, lvl, sz')
  {
    hide Filter;
    forall p | p in base ensures NodeOk(mem', height, lvl, sz', p) {
      assert NodeOk(mem, height, lvl, sz, p);
    }
    forall k | 0 <= k < LEVELS ensures Linked(mem', next[k], Filter(base, lvl, k), k) {
      FilterMembers(base, lvl, k);
      LinkedSame(mem, mem', next[k], base, Filter(base, lvl, k), k);
    }
  }

  lemma LinkedSame(mem: seq<int>, mem': seq<int>, first: int, base: seq<nat>, s: seq<nat>, k: nat)
    requires Linked(mem, first, s, k) && |mem'| == |mem| && k < LEVELS
    requires forall p :: p in s ==> p in base
    requires forall p, x :: p in base && p <= x < p + NODE_WORDS && x < |mem| ==> mem'[x] == mem[x]
    ensures Linked(mem', first, s, k)
  {
    forall i | 0 <= i < |s| ensures Cell(s[i], k) < |mem'| && mem'[Cell(s[i], k)] == LinkTo(s, i + 1) {
      assert s[i] in s && s[i] in base;
      assert s[i] <= Cell(s[i], k) < s[i] + NODE_WORDS;
    }
  }

  /** Writing into one live block changes no other. */
  lemma LiveWrite(st: Store, sh: Shape, align: nat, pos: nat, x: nat, v: int)
    requires Inv(st, sh, align) && pos in sh.live && pos <= x < pos + sh.live[pos] && x < |st.mem|
    ensures SameData(sh.live - {pos}, st.mem, st.mem[x := v])
  {
    hide SkipOk, Aligned, BinsOk, Listed;
    forall p, y | p in sh.live - {pos} && p <= y < p + sh.live[p] && y < |st.mem|
      ensures st.mem[x := v][y] == st.mem[y] {
      LiveBlock(st, sh, align, p);
      LiveBlock(st, sh, align, pos);
      BlocksApart(st, sh, align, p, pos);
    }
  }

  /** The first block of a list becomes live. */
  lemma PopKeeps(st: Store, sh: Shape, align: nat, i: nat, pos: nat, st': Store, sh': Shape)
    requires Inv(st, sh, align) && i < |sh.small| && |st.heads| == |st.cnts| == |sh.small| && st.heads[i] != TAIL
    requires 0 <= st.heads[i] < |st.mem| && st.cnts[i] > 0 && sh.small[i] != [] && pos == sh.small[i][0] == st.heads[i]
    requires pos in sh.blocks
    requires st' == st.(heads := st.heads[i := st.mem[st.heads[i]]], cnts := st.cnts[i := st.cnts[i] - 1])
    requires sh' == sh.(live := sh.live[pos := sh.blocks[pos]], small := sh.small[i := sh.small[i][1..]])
    ensures Inv(st', sh', align) && pos !in sh.live && sh.blocks[pos] == BinLen(i, align)
  {
    hide Aligned, Tiled, Disjoint, SkipOk, BinsOk, BinLen;
    BinsPop(st.mem, st.heads, st.cnts, sh.small, sh.blocks, align, i);
    SmallListed(st, sh, align, i, pos);
    assert pos in sh.live <==> !Listed(sh, align, pos);
    forall p | p in sh'.blocks ensures p in sh'.live <==> !Listed(sh', align, p) {
      assert p in sh.live <==> !Listed(sh, align, p);
    }
  }

  /** A live block goes into the huge list. */
  lemma PutKeeps(st: Store, sh: Shape, align: nat, pos: nat, c: nat, level: nat, size: nat, st': Store, sh': Shape)
    requires Inv(st, sh, align) && pos in sh.live && sh.live[pos] > |sh.small| * align
    requires c <= |sh.base| && st' == st.(mem := st'.mem, next := st'.next, height := st'.height)
    requires SameOutside(st.mem, st'.mem, sh.base + [pos])
    requires sh' == sh.(live := sh.live - {pos}, base := PutAt(sh.base, c, pos), lvl := sh.lvl[pos := level],
                        sz := sh.sz[pos := size])
    requires SkipOk(st'.mem, st'.next, st'.height, sh'.base, sh'.lvl, sh'.sz)
    ensures Inv(st', sh', align) && SameData(sh'.live, st.mem, st'.mem)
  {
    hide Aligned, Tiled, Disjoint, SkipOk, BinsOk, BinLen;
    LiveBlock(st, sh, align, pos);
    PutMembers(sh.base, c, pos);
    forall p | p in sh'.blocks ensures p in sh'.live <==> !Listed(sh', align, p) {
      assert p in sh.live <==> !Listed(sh, align, p);
    }
    PutBins(st, sh, align, pos, st'.mem);
    forall p, x | p in sh'.live && p <= x < p + sh'.live[p] && x < |st.mem| ensures st'.mem[x] == st.mem[x] {
      LiveOutside(st, sh, align, pos, p, x);
    }
  }

  lemma LiveOutside(st: Store, sh: Shape, align: nat, pos: nat, p: nat, x: nat)
    requires Inv(st, sh, align) && pos in sh.live && sh.live[pos] > |sh.small| * align
    requires p in sh.live && p != pos && p <= x < p + sh.live[p]
    ensures Outside(x, sh.base + [pos])
  {
    hide Aligned, SkipOk, BinsOk, Listed;
    LiveBlock(st, sh, align, pos);
    LiveBlock(st, sh, align, p);
    BlocksApart(st, sh, align, p, pos);
    forall q | q in sh.base ensures !(q <= x < q + NODE_WORDS) {
      FreeNotLive(st, sh, align, q);
      BlocksApart(st, sh, align, p, q);
    }
  }

  lemma PutBins(st: Store, sh: Shape, align: nat, pos: nat, mem': seq<int>)
    requires Inv(st, sh, align) && pos in sh.live && sh.live[pos] > |sh.small| * align
    requires SameOutside(st.mem, mem', sh.base + [pos])
    ensures BinsOk(mem', st.heads, st.cnts, sh.small, sh.blocks, align)
  {
    hide Aligned, SkipOk, Listed, BinLen, BinsOk;
    forall i | 0 <= i < |sh.small| ensures SameBin(sh.small[i], st.mem, mem', sh.blocks, sh.blocks) {
      forall p | p in sh.small[i] ensures p in sh.blocks && p < |st.mem| && mem'[p] == st.mem[p] {
        SmallListed(st, sh, align, i, p);
        SmallOutside(st, sh, align, pos, i, p);
      }
    }
    BinsSame(st.mem, mem', st.heads, st.cnts, sh.small, sh.blocks, sh.blocks, align);
  }

  lemma SmallOutside(st: Store, sh: Shape, align: nat, pos: nat, i: nat, p: nat)
    requires Inv(st, sh, align) && pos in sh.live && sh.live[pos] > |sh.small| * align
    requires i < |sh.small| && p in sh.small[i]
    ensures Outside(p, sh.base + [pos])
  {
    hide Aligned, SkipOk, BinsOk, Listed, BinLen;
    SmallListed(st, sh, align, i, p);
    LiveBlock(st, sh, align, pos);
    BlocksApart(st, sh, align, p, pos);
    BlockBound(sh.blocks, st.n, align, p);
    forall q | q in sh.base ensures !(q <= p < q + NODE_WORDS) {
      BlocksApart(st, sh, align, p, q);
    }
  }

  /** A node of the huge list becomes live. */
  lemma TakeKeeps(st: Store, sh: Shape, align: nat, c: nat, st': Store, sh': Shape)
    requires Inv(st, sh, align) && c < |sh.base| && sh.base[c] in sh.blocks
    requires st' == st.(mem := st'.mem, next := st'.next, height := st'.height)
    requires SameOutside(st.mem, st'.mem, sh.base)
    requires sh' == sh.(live := sh.live[sh.base[c] := sh.blocks[sh.base[c]]], base := TakeAt(sh.base, c))
    requires SkipOk(st'.mem, st'.next, st'.height, sh'.base, sh'.lvl, sh'.sz)
    ensures Inv(st', sh', align) && SameData(sh.live, st.mem, st'.mem) && sh.base[c] !in sh.live
  {
    hide Aligned, Tiled, Disjoint, SkipOk, BinsOk, BinLen;
    var res := sh.base[c];
    FreeNotLive(st, sh, align, res);
    BaseSpread(st, sh, align);
    TakeMembers(sh.base, c);
    forall p | p in sh'.blocks ensures p in sh'.live <==> !Listed(sh', align, p) {
      assert p in sh.live <==> !Listed(sh, align, p);
    }
    TakeBins(st, sh, align, st'.mem);
    forall p, x | p in sh.live && p <= x < p + sh.live[p] && x < |st.mem| ensures st'.mem[x] == st.mem[x] {
      LiveClear(st, sh, align, p, x);
    }
  }

  lemma BaseSpread(st: Store, sh: Shape, align: nat)
    requires Inv(st, sh, align)
    ensures Spread(sh.base)
  {
  }

  lemma LiveClear(st: Store, sh: Shape, align: nat, p: nat, x: nat)
    requires Inv(st, sh, align) && p in sh.live && p <= x < p + sh.live[p]
    ensures Outside(x, sh.base)
  {
    hide Aligned, SkipOk, BinsOk, Listed;
    LiveBlock(st, sh, align, p);
    forall q | q in sh.base ensures !(q <= x < q + NODE_WORDS) {
      FreeNotLive(st, sh, align, q);
      BlocksApart(st, sh, align, p, q);
    }
  }

  lemma TakeBins(st: Store, sh: Shape, align: nat, mem': seq<int>)
    requires Inv(st, sh, align) && SameOutside(st.mem, mem', sh.base)
    ensures BinsOk(mem', st.heads, st.cnts, sh.small, sh.blocks, align)
  {
    hide Aligned, SkipOk, Listed, BinLen, BinsOk;
    forall i | 0 <= i < |sh.small| ensures SameBin(sh.small[i], st.mem, mem', sh.blocks, sh.blocks) {
      forall p | p in sh.small[i] ensures p in sh.blocks && p < |st.mem| && mem'[p] == st.mem[p] {
        SmallListed(st, sh, align, i, p);
        SmallClear(st, sh, align, i, p);
      }
    }
    BinsSame(st.mem, mem', st.heads, st.cnts, sh.small, sh.blocks, sh.blocks, align);
  }

  lemma SmallClear(st: Store, sh: Shape, align: nat, i: nat, p: nat)
    requires Inv(st, sh, align) && i < |sh.small| && p in sh.small[i]
    ensures Outside(p, sh.base)
  {
    hide Aligned, SkipOk, BinsOk, Listed, BinLen;
    SmallListed(st, sh, align, i, p);
    BlockBound(sh.blocks, st.n, align, p);
    forall q | q in sh.base ensures !(q <= p < q + NODE_WORDS) {
      BlocksApart(st, sh, align, p, q);
    }
  }

  /** The free blocks stay; the live ones are cut differently. */
  ghost predicate SameFree(sh: Shape, sh': Shape) {
    && sh'.small == sh.small && sh'.base == sh.base && sh'.lvl == sh.lvl && sh'.sz == sh.sz
    && (forall p :: p in sh.blocks && p !in sh.live ==>
          p in sh'.blocks && sh'.blocks[p] == sh.blocks[p] && p !in sh'.live)
    && (forall p :: p in sh'.blocks && p !in sh'.live ==> p in sh.blocks && p !in sh.live)
    && (forall p :: p in sh'.live ==> p in sh'.blocks && sh'.live[p] == sh'.blocks[p])
  }

  lemma RecutKeeps(st: Store, sh: Shape, align: nat, st': Store, sh': Shape)
    requires Inv(st, sh, align) && SameFree(sh, sh') && st' == st.(n := st'.n) && st'.n <= |st.mem|
    requires Tiled(sh'.blocks, st'.n, align)
    ensures Inv(st', sh', align)
  {
    hide Aligned, Tiled, Disjoint, SkipOk, BinsOk, BinLen, Bin;
    forall p | p in sh.base ensures p in sh.blocks && p !in sh.live {
      FreeNotLive(st, sh, align, p);
    }
    forall i | 0 <= i < |sh.small| ensures SameBin(sh.small[i], st.mem, st.mem, sh.blocks, sh'.blocks) {
      forall p | p in sh.small[i] ensures p in sh.blocks && p !in sh.live && p < |st.mem| {
        SmallListed(st, sh, align, i, p);
        FreeNotLive(st, sh, align, p);
      }
    }
    BinsSame(st.mem, st.mem, st.heads, st.cnts, sh.small, sh.blocks, sh'.blocks, align);
    forall p | p in sh'.blocks ensures p in sh'.live <==> !Listed(sh', align, p) {
      FreeNotLive(st, sh, align, p);
      assert p in sh.blocks ==> (p in sh.live <==> !Listed(sh, align, p));
    }
  }

  lemma ExtendKeeps(st: Store, sh: Shape, align: nat, len: nat, st': Store, sh': Shape)
    requires Inv(st, sh, align) && len > 0 && Aligned(len, align) && st.n + len <= |st.mem|
    requires st' == st.(n := st.n + len)
    requires sh' == sh.(blocks := sh.blocks[st.n := len], live := sh.live[st.n := len])
    ensures Inv(st', sh', align) && st.n !in sh.live
  {
    hide SkipOk, BinsOk, Listed;
    Extend(sh.blocks, st.n, align, len);
    RecutKeeps(st, sh, align, st', sh');
  }

  lemma ShrinkKeeps(st: Store, sh: Shape, align: nat, pos: nat, st': Store, sh': Shape)
    requires Inv(st, sh, align) && pos in sh.live && pos + sh.live[pos] == st.n
    requires st' == st.(n := pos) && sh' == sh.(blocks := sh.blocks - {pos}, live := sh.live - {pos})
    ensures Inv(st', sh', align)
  {
    hide SkipOk, BinsOk, Listed;
    Shrink(sh.blocks, st.n, align, pos);
    RecutKeeps(st, sh, align, st', sh');
  }

  lemma ResizeKeeps(st: Store, sh: Shape, align: nat, pos: nat, len: nat, st': Store, sh': Shape)
    requires Inv(st, sh, align) && pos in sh.live && pos + sh.live[pos] == st.n && len > 0 && Aligned(len, align)
    requires pos + len <= |st.mem|
    requires st' == st.(n := pos + len) && sh' == sh.(blocks := sh.blocks[pos := len], live := sh.live[pos := len])
    ensures Inv(st', sh', align)
  {
    hide SkipOk, BinsOk, Listed;
    Resize(sh.blocks, st.n, align, pos, len);
    RecutKeeps(st, sh, align, st', sh');
  }

  lemma SplitKeeps(st: Store, sh: Shape, align: nat, pos: nat, len: nat, sh': Shape)
    requires Inv(st, sh, align) && pos in sh.live && 0 < len < sh.live[pos] && Aligned(len, align)
    requires sh' == sh.(blocks := sh.blocks[pos := len][pos + len := sh.live[pos] - len],
                        live := sh.live[pos := len][pos + len := sh.live[pos] - len])
    ensures Inv(st, sh', align) && pos + len !in sh.live
  {
    hide SkipOk, BinsOk, Listed;
    Split(sh.blocks, st.n, align, pos, len);
    RecutKeeps(st, sh, align, st, sh');
  }

  /** The words of a live block are the client's. */
  lemma WriteKeeps(st: Store, sh: Shape, align: nat, pos: nat, x: nat, v: int)
    requires Inv(st, sh, align) && pos in sh.live && pos <= x < pos + sh.live[pos] && x < |st.mem|
    ensures Inv(st.(mem := st.mem[x := v]), sh, align) && SameData(sh.live - {pos}, st.mem, st.mem[x := v])
  {
    hide Aligned, Tiled, SkipOk, BinsOk, BinLen, Listed;
    var mem' := st.mem[x := v];
    LiveWrite(st, sh, align, pos, x, v);
    LiveBlock(st, sh, align, pos);
    forall p | p in sh.base ensures p in sh.blocks && !(p <= x < p + NODE_WORDS) {
      FreeNotLive(st, sh, align, p);
      BlocksApart(st, sh, align, p, pos);
    }
    SkipSame(st.mem, mem', st.next, st.height, sh.base, sh.lvl, sh.sz, sh.sz);
    forall i | 0 <= i < |sh.small| ensures SameBin(sh.small[i], st.mem, mem', sh.blocks, sh.blocks) {
      forall p | p in sh.small[i] ensures p in sh.blocks && p < |st.mem| && mem'[p] == st.mem[p] {
        SmallListed(st, sh, align, i, p);
        FreeNotLive(st, sh, align, p);
        BlockBound(sh.blocks, st.n, align, p);
        BlocksApart(st, sh, align, p, pos);
      }
    }
    BinsSame(st.mem, mem', st.heads, st.cnts, sh.small, sh.blocks, sh.blocks, align);
  }
}
