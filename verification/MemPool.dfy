/** A pool of memory that hands out blocks by offset: exact lists for small lengths, a
    size-ordered skip list for huge ones, and the unused top. */
module MemPool {
  import opened PoolSkip
  import opened PoolSearch
  import opened PoolLinks
  import opened PoolTake
  import opened PoolBlocks
  import opened PoolBins
  import opened PoolState
  import opened PoolBooks
  import opened PoolSizes

  /** `size_t(-1)`: no block. */
  const FAIL := -1

  /** The free block a request of `len` words is served from: the last freed of that very
      length for a small request, the smallest that fits for a huge one. */
  ghost predicate BestFit(sh: Shape, align: nat, len: nat, p: int)
    requires align > 0
  {
    if len <= |sh.small| * align then
      0 <= Bin(len, align) < |sh.small| && sh.small[Bin(len, align)] != [] && p == sh.small[Bin(len, align)][0]
    else
      && p in sh.base && p in sh.blocks && sh.blocks[p] >= len
      && forall q :: q in sh.base && q in sh.blocks && sh.blocks[q] >= len ==> sh.blocks[q] >= sh.blocks[p]
  }

  /** A free block that says it serves a request of `len` words. */
  ghost predicate Offers(sh: Shape, align: nat, len: nat, p: int)
    requires align > 0
  {
    if len <= |sh.small| * align then BestFit(sh, align, len, p) else p in sh.base && p in sh.sz && sh.sz[p] >= len
  }

  class Pool {
    const align: nat
    const wordBytes: nat
    var mem: seq<int>
    var n: nat
    var fragment: nat
    var hugeSum: nat
    var hugeCnt: nat
    var height: nat
    var next: seq<int>
    var heads: seq<int>
    var cnts: seq<nat>
    ghost var shape: Shape

    /** Words cut off huge blocks so far: neither counter is ever reduced by them. */
    ghost var drift: nat

    /** Pieces that are in no list and that nobody holds: what a wrapped size did not count. */
    ghost var lost: set<nat>

    ghost function State(): Store
      reads this
    {
      Store(mem, n, next, height, heads, cnts)
    }

    ghost predicate Books(taken: nat)
      reads this
    {
      && fragment == FreeWords(shape) + drift
      && hugeSum == HugeWords(shape) + drift
      && hugeCnt == |shape.base| + taken
    }

    ghost predicate ValidBut(taken: nat)
      reads this
    {
      && LinkShape(align, wordBytes) && |mem| <= LinkLimit(wordBytes)
      && Inv(State(), shape, align) && Books(taken)
      && Sizes(shape, wordBytes) && lost <= shape.live.Keys
      && (|mem| <= SizeRange(wordBytes) ==> Exact())
    }

    /** No size is wrapped and nothing is lost. A pool too small for a size to wrap is always so. */
    ghost predicate Exact()
      reads this
    {
      lost == {} && Unwrapped(shape, wordBytes)
    }

    /** The blocks of the clients. */
    ghost function Held(): map<nat, nat>
      reads this
    {
      shape.live - lost
    }

    ghost predicate Valid()
      reads this
    {
      ValidBut(0)
    }

    /** An empty pool of `cap` words with lists for blocks of up to `maxBlock` bytes. */
    constructor (align: nat, wordBytes: nat, cap: nat, maxBlock: nat)
      requires LinkShape(align, wordBytes) && cap <= LinkLimit(wordBytes) && maxBlock >= NODE_WORDS * wordBytes
      ensures Valid() && Exact() && this.align == align && this.wordBytes == wordBytes
      ensures n == 0 && |mem| == cap && shape.blocks == map[] && shape.live == map[] && drift == 0
      ensures |shape.small| * align == Words(maxBlock, wordBytes, align)
      ensures shape.base == [] && forall i :: 0 <= i < |shape.small| ==> shape.small[i] == []
    {
      this.align, this.wordBytes := align, wordBytes;
      var count := Words(maxBlock, wordBytes, align) / align;
      mem, n := seq(cap, _ => 0), 0;
      fragment, hugeSum, hugeCnt, height := 0, 0, 0, 0;
      next := seq(LEVELS, _ => TAIL);
      heads, cnts := seq(count, _ => TAIL), seq(count, _ => 0);
      shape := Shape(map[], map[], seq(count, _ => []), [], map[], map[]);
      drift, lost := 0, {};
      new;
      WordsFit(maxBlock, wordBytes, align);
      BinExact(Words(maxBlock, wordBytes, align), align, count);
      EmptyInv(State(), shape, align, wordBytes, maxBlock);
    }

    /** `sfree`, in words. */
    method FreeBlock(pos: nat, len: nat, ghost taken: nat)
      requires ValidBut(taken) && pos in Held() && Held()[pos] == len
      modifies this
      ensures ValidBut(taken) && drift == old(drift) && lost == old(lost)
      ensures shape.live == old(shape.live) - {pos} && |shape.small| == |old(shape.small)|
      ensures SameData(shape.live, old(mem), mem)
      ensures n == if pos + len == old(n) then pos else old(n)
      ensures shape.blocks == if pos + len == old(n) then old(shape.blocks) - {pos} else old(shape.blocks)
      ensures forall p :: p in shape.base <==>
                p in old(shape.base) || (p == pos && pos + len != old(n) && len > |shape.small| * align)
      ensures old(Exact()) ==>
                (Exact() <==> pos + len == old(n) || len <= |shape.small| * align || len < SizeRange(wordBytes))
    {
      hide Inv, Books, Aligned, Sizes, Unwrapped;
      LiveBlock(State(), shape, align, pos);
      InvFacts(State(), shape, align);
      if pos + len == n {
        FreeTop(pos, taken);
      } else if len <= |heads| * align {
        FreeSmall(pos, len, taken);
      } else {
        FreeHuge(pos, len, taken);
      }
    }

    method FreeTop(pos: nat, ghost taken: nat)
      requires ValidBut(taken) && pos in shape.live && pos !in lost && pos + shape.live[pos] == n
      modifies this
      ensures ValidBut(taken) && drift == old(drift) && lost == old(lost) && n == pos && mem == old(mem)
      ensures shape == old(shape).(blocks := old(shape.blocks) - {pos}, live := old(shape.live) - {pos})
      ensures Exact() <==> old(Exact())
    {
      hide Inv, FreeWords, HugeWords, Sizes, Unwrapped;
      ghost var st, sh := State(), shape;
      shape := sh.(blocks := sh.blocks - {pos}, live := sh.live - {pos});
      n := pos;
      ShrinkKeeps(st, sh, align, pos, State(), shape);
      ShrinkBooks(st, sh, align, pos, shape);
      BaseFree(st, sh, align);
      SizesSame(sh, shape, wordBytes);
    }

    method FreeSmall(pos: nat, len: nat, ghost taken: nat)
      requires ValidBut(taken) && pos in shape.live && pos !in lost && shape.live[pos] == len <= |heads| * align
      modifies this
      ensures ValidBut(taken) && drift == old(drift) && lost == old(lost) && n == old(n)
      ensures shape.live == old(shape.live) - {pos} && |shape.small| == |old(shape.small)|
      ensures shape.blocks == old(shape.blocks) && shape.base == old(shape.base)
      ensures SameData(shape.live, old(mem), mem)
      ensures Exact() <==> old(Exact())
    {
      hide Inv, FreeWords, HugeWords, Aligned, SameData, Sizes, Unwrapped;
      ghost var st, sh := State(), shape;
      LiveBlock(st, sh, align, pos);
      InvFacts(st, sh, align);
      BinExact(len, align, |heads|);
      var i := Bin(len, align);
      shape := sh.(live := sh.live - {pos}, small := sh.small[i := [pos] + sh.small[i]]);
      mem := mem[pos := heads[i]];
      heads, cnts := heads[i := pos], cnts[i := cnts[i] + 1];
      PushKeeps(st, sh, align, pos, i, State(), shape);
      SameHuge(sh, shape);
      FreedWords(sh, pos, shape);
      SizesSame(sh, shape, wordBytes);
      fragment := fragment + len;
    }

    method FreeHuge(pos: nat, len: nat, ghost taken: nat)
      requires ValidBut(taken) && pos in shape.live && pos !in lost && shape.live[pos] == len > |heads| * align
      requires pos + len < n
      modifies this
      ensures ValidBut(taken) && drift == old(drift) && lost == old(lost) && n == old(n)
      ensures shape.live == old(shape.live) - {pos} && |shape.small| == |old(shape.small)|
      ensures shape.blocks == old(shape.blocks)
      ensures forall p :: p in shape.base <==> p in old(shape.base) || p == pos
      ensures SameData(shape.live, old(mem), mem)
      ensures old(Exact()) ==> (Exact() <==> len < SizeRange(wordBytes))
    {
      hide Inv, FreeWords, HugeWords, Aligned, SameData, Sizes, Unwrapped;
      ghost var st, sh := State(), shape;
      InvFacts(st, sh, align);
      ghost var sh';
      mem, next, height, sh' := EnterList(mem, next, height, pos, len, wordBytes, st, sh, align);
      shape := sh';
      SameLength(shape.live, st.mem, mem);
      hugeSum, hugeCnt := hugeSum + len, hugeCnt + 1;
      fragment := fragment + len;
    }

    /** `alloc`, in words: a block of exactly `request` words, a free one that says it is large
        enough if one is found, else new ones on top. The best free one is found for a small
        request, and for a huge one as long as no size is wrapped. */
    method AllocBlock(request: nat) returns (pos: int)
      requires Valid() && request > 0 && Aligned(request, align)
      modifies this
      ensures Valid() && |shape.small| == |old(shape.small)| && (old(Exact()) ==> Exact())
      ensures pos == FAIL ==> old(n) + request > |old(mem)|
      ensures pos == FAIL ==>
          shape == old(shape) && lost == old(lost) && mem == old(mem) && n == old(n) && drift == old(drift)
      ensures pos != FAIL ==> 0 <= pos && pos !in old(shape.live) && Held() == old(Held())[pos := request]
      ensures pos != FAIL && pos in old(shape.blocks) ==> Offers(old(shape), align, request, pos)
      ensures pos != FAIL && pos !in old(shape.blocks) ==> pos == old(n) && n == pos + request && lost == old(lost)
      ensures pos != FAIL && pos !in old(shape.blocks) ==>
                shape == old(shape).(blocks := old(shape.blocks)[pos := request],
                    live := old(shape.live)[pos := request])
      ensures request <= |old(shape.small)| * align || old(Exact()) ==>
                && (pos == FAIL <==>
                      old(n) + request > |old(mem)| && !exists p :: BestFit(old(shape), align, request, p))
                && (pos in old(shape.blocks) ==> BestFit(old(shape), align, request, pos))
                && (pos !in old(shape.blocks) ==> !exists p :: BestFit(old(shape), align, request, p))
      ensures SameData(old(shape.live), old(mem), mem)
      ensures pos != FAIL ==>
          drift == old(drift) + if pos in old(shape.blocks) then old(shape.blocks)[pos] - request else 0
    {
      hide Inv, Books, Aligned, BestFit, Sizes, Unwrapped;
      InvFacts(State(), shape, align);
      BinExact(request, align, |heads|);
      pos := FAIL;
      if request <= |heads| * align {
        SmallFit(State(), shape, align, request);
        if heads[Bin(request, align)] != TAIL {
          pos := TakeSmall(request);
          return;
        }
      } else {
        pos := TakeHuge(request);
        if pos != FAIL {
          return;
        }
      }
      if n + request <= |mem| {
        pos := n;
        GrowTop(request);
      }
    }

    method GrowTop(request: nat)
      requires Valid() && request > 0 && Aligned(request, align) && n + request <= |mem|
      modifies this
      ensures Valid() && mem == old(mem) && drift == old(drift) && lost == old(lost)
      ensures n == old(n) + request && old(n) !in old(shape.blocks) && old(n) !in old(shape.live)
      ensures shape == old(shape).(blocks := old(shape.blocks)[old(n) := request],
          live := old(shape.live)[old(n) := request])
      ensures Exact() <==> old(Exact())
    {
      hide Inv, FreeWords, HugeWords, Aligned, Sizes, Unwrapped;
      ghost var st, sh := State(), shape;
      shape := sh.(blocks := sh.blocks[n := request], live := sh.live[n := request]);
      n := n + request;
      ExtendKeeps(st, sh, align, request, State(), shape);
      ExtendBooks(st, sh, align, request, shape);
      BaseFree(st, sh, align);
      SizesSame(sh, shape, wordBytes);
    }

    method TakeSmall(request: nat) returns (pos: nat)
      requires Valid() && request > 0 && Aligned(request, align) && request <= |heads| * align
      requires 0 <= Bin(request, align) < |heads| && heads[Bin(request, align)] != TAIL
      modifies this
      ensures Valid() && |shape.small| == |old(shape.small)| && mem == old(mem) && n == old(n) && drift == old(drift)
      ensures BestFit(old(shape), align, request, pos) && pos !in old(shape.live) && pos in old(shape.blocks)
      ensures old(shape.blocks)[pos] == request && shape.live == old(shape.live)[pos := request]
      ensures lost == old(lost) && (Exact() <==> old(Exact()))
    {
      hide Inv, FreeWords, HugeWords, Aligned, Sizes, Unwrapped;
      ghost var st, sh := State(), shape;
      InvFacts(st, sh, align);
      BinExact(request, align, |heads|);
      var i := Bin(request, align);
      BinsPop(mem, heads, cnts, sh.small, sh.blocks, align, i);
      pos := heads[i];
      SmallListed(st, sh, align, i, pos);
      shape := sh.(live := sh.live[pos := sh.blocks[pos]], small := sh.small[i := sh.small[i][1..]]);
      heads, cnts := heads[i := mem[pos]], cnts[i := cnts[i] - 1];
      PopKeeps(st, sh, align, i, pos, State(), shape);
      TakenWords(sh, pos, shape);
      SameHuge(sh, shape);
      SizesSame(sh, shape, wordBytes);
      fragment := fragment - request;
    }

    /** The huge block where the search stops; what it says it has too much is freed again, and
        what it does not say is lost. */
    method TakeHuge(request: nat) returns (pos: int)
      requires Valid() && request > |heads| * align && Aligned(request, align)
      modifies this
      ensures Valid() && |shape.small| == |old(shape.small)| && (old(Exact()) ==> Exact())
      ensures old(Exact()) ==> (pos == FAIL <==> !exists p :: BestFit(old(shape), align, request, p))
      ensures old(Exact()) && pos != FAIL ==> BestFit(old(shape), align, request, pos)
      ensures pos == FAIL ==>
          shape == old(shape) && lost == old(lost) && mem == old(mem) && n == old(n) && drift == old(drift)
      ensures pos != FAIL ==> 0 <= pos && pos !in old(shape.live) && Held() == old(Held())[pos := request]
      ensures pos != FAIL ==> Offers(old(shape), align, request, pos) && pos in old(shape.blocks)
      ensures pos != FAIL ==> drift == old(drift) + old(shape.blocks)[pos] - request
      ensures SameData(old(shape.live), old(mem), mem)
    {
      hide Inv, Books, Aligned, SkipOk, Below, Found, BestFit, Sizes, Unwrapped;
      ghost var st, sh := State(), shape;
      InvFacts(st, sh, align);
      var update, n2, c := Search(mem, next, height, request, sh.base, sh.lvl, sh.sz);
      if Exact() {
        HugeFit(st, sh, align, wordBytes, request, c);
      }
      if n2 != NULL {
        NodeSays(st, sh, align, wordBytes, n2);
      }
      if n2 == NULL || mem[n2] < request {
        return FAIL;
      }
      pos := n2;
      var remain := mem[n2] - request;
      AddAligned(mem[n2], request, align);
      Unlink(update, n2, c);
      ghost var m1 := mem;
      assert shape.live - {pos as nat} == sh.live;
      CutOff(n2, request, remain);
      DataTwice(sh.live, sh.live, st.mem, m1, mem);
    }

    /** An unlinked block is cut to the request; what it says it has too much is freed again. */
    method CutOff(pos: nat, request: nat, remain: nat)
      requires ValidBut(1) && pos in Held() && 0 < request <= drift && request + remain <= Held()[pos]
      requires Aligned(request, align) && Aligned(remain, align)
      requires |mem| <= SizeRange(wordBytes) ==> request + remain == Held()[pos]
      modifies this
      ensures Valid() && |shape.small| == |old(shape.small)| && drift == old(drift) - request
      ensures Held() == old(Held())[pos := request]
      ensures SameData(old(shape.live) - {pos}, old(mem), mem)
      ensures request + remain == old(Held())[pos] && request + remain < SizeRange(wordBytes) && old(Exact()) ==>
          Exact()
    {
      hide Inv, Books, Aligned, Sizes, Unwrapped, SameData;
      ghost var live, m, held := shape.live, mem, Held();
      Carve(pos, request, remain);
      if remain > 0 {
        PutBack(shape.live, lost, held, pos, request, pos + request, remain);
        FreeBlock(pos + request, remain, 1);
        LessData(shape.live, live - {pos}, m, mem);
      } else {
        NoChange(live - {pos}, mem);
      }
      assert Held() == old(Held())[pos := request];
      Settle(request);
    }

    method Unlink(update: seq<int>, res: nat, ghost c: nat)
      requires Valid() && |update| == LEVELS && c < |shape.base| && res == shape.base[c]
      requires forall k :: 0 <= k < height ==> Found(update[k], shape.base, shape.lvl, c, k)
      modifies this
      ensures ValidBut(1) && |shape.small| == |old(shape.small)| && n == old(n) && heads == old(heads)
        && |mem| == |old(mem)|
      ensures res in old(shape.blocks) && shape.blocks == old(shape.blocks)
        && drift == old(drift) + old(shape.blocks)[res]
      ensures res !in old(shape.live) && shape.live == old(shape.live)[res := old(shape.blocks)[res]]
        && lost == old(lost)
      ensures SameData(old(shape.live), old(mem), mem)
      ensures old(Exact()) ==> Exact()
    {
      hide Inv, FreeWords, HugeWords, Aligned, SameData, SkipOk, Below, SameOutside, Found, Sizes, Unwrapped;
      ghost var st, sh := State(), shape;
      InvFacts(st, sh, align);
      mem, next, height := TakeNode(mem, next, height, update, res, sh.base, sh.lvl, sh.sz, c);
      shape := sh.(live := sh.live[res := sh.blocks[res]], base := TakeAt(sh.base, c));
      TakeKeeps(st, sh, align, c, State(), shape);
      TakenWords(sh, res, shape);
      TookWords(sh, c, shape);
      SizesTake(sh, c, shape, wordBytes);
      SameLength(sh.live, st.mem, mem);
      drift := drift + sh.blocks[res];
    }

    /** An unlinked block falls apart: the request, what else it said it has, and the rest. */
    ghost method Carve(pos: nat, request: nat, remain: nat)
      requires ValidBut(1) && pos in Held() && 0 < request && request + remain <= Held()[pos]
      requires Aligned(request, align) && Aligned(remain, align)
      requires |mem| <= SizeRange(wordBytes) ==> request + remain == Held()[pos]
      modifies this`shape, this`lost
      ensures ValidBut(1) && |shape.small| == |old(shape.small)|
      ensures remain > 0 ==> pos + request !in old(shape.live)
      ensures Held() == if remain > 0
          then old(Held())[pos := request][pos + request := remain] else old(Held())[pos := request]
      ensures forall p :: p in old(shape.live) && p != pos ==> p in shape.live && shape.live[p] == old(shape.live)[p]
      ensures request + remain == old(Held())[pos] && old(Exact()) ==> Exact()
    {
      hide Inv, Books, Aligned, Sizes, Unwrapped;
      var all := shape.live[pos];
      if request < all {
        SplitOff(pos, request, 1);
        if remain == 0 {
          Lose(pos + request, 1);
        } else if request + remain < all {
          SplitOff(pos + request, remain, 1);
          Lose(pos + request + remain, 1);
        }
      }
    }

    /** Nobody holds a block any more. */
    ghost method Lose(pos: nat, taken: nat)
      requires ValidBut(taken) && pos in shape.live && |mem| > SizeRange(wordBytes)
      modifies this`lost
      ensures ValidBut(taken) && lost == old(lost) + {pos}
    {
      hide Inv, FreeWords, HugeWords, Sizes, Unwrapped;
      lost := lost + {pos};
    }

    /** The rest of a block becomes a block of its own. */
    ghost method SplitOff(pos: nat, request: nat, taken: nat)
      requires ValidBut(taken) && pos in shape.live && 0 < request < shape.live[pos] && Aligned(request, align)
      modifies this`shape
      ensures ValidBut(taken) && |shape.small| == |old(shape.small)|
      ensures pos + request !in old(shape.live)
      ensures shape.live == old(shape.live)[pos := request][pos + request := old(shape.live)[pos] - request]
      ensures Exact() <==> old(Exact())
    {
      hide Inv, FreeWords, HugeWords, Aligned, Sizes, Unwrapped;
      var sh := shape;
      shape := sh.(blocks := sh.blocks[pos := request][pos + request := sh.live[pos] - request],
                   live := sh.live[pos := request][pos + request := sh.live[pos] - request]);
      SplitKeeps(State(), sh, align, pos, request, shape);
      SplitBooks(State(), sh, align, pos, request, shape);
      SplitSizes(State(), sh, align, wordBytes, pos, request, shape);
    }

    /** The counters go down by the request only. */
    method Settle(request: nat)
      requires ValidBut(1) && drift >= request
      modifies this
      ensures Valid() && shape == old(shape) && lost == old(lost) && mem == old(mem) && n == old(n)
        && drift == old(drift) - request
    {
      hide Inv, FreeWords, HugeWords, Sizes, Unwrapped;
      fragment := fragment - request;
      hugeSum := hugeSum - request;
      hugeCnt := hugeCnt - 1;
      drift := drift - request;
    }

    /** What the client sees: the words of every live block. */
    ghost function Model(): map<nat, seq<int>>
      reads this
      requires Valid()
    {
      Contents(State(), shape, align) - lost
    }

    /** Live blocks lie apart, aligned, below the top; held, lost and free words make up the
        used ones; both counters exceed the free words they count by what was cut off. */
    lemma Facts()
      requires Valid()
      ensures forall p, q :: p in shape.live && q in shape.live && p < q ==> p + shape.live[p] <= q
      ensures forall p :: p in shape.live ==> Aligned(p, align) && p + shape.live[p] <= n <= |mem|
      ensures fragment + Sum(Held()) + Sum(shape.live - Held().Keys) == n + drift
      ensures (shape.live - Held().Keys).Keys == lost && (Exact() ==> lost == {})
      ensures |mem| <= SizeRange(wordBytes) || wordBytes == 8 ==> Exact()
      ensures hugeSum == HugeWords(shape) + drift && hugeCnt == |shape.base|
    {
      hide Aligned, SkipOk, BinsOk;
      forall p | p in shape.live ensures Aligned(p, align) && p + shape.live[p] <= n {
        LiveBlock(State(), shape, align, p);
      }
      Conservation(State(), shape, align);
      SumParts(shape.live, lost);
      assert shape.live - (shape.live.Keys - lost) == shape.live - Held().Keys;
    }

    /** A block for `bytes` bytes, apart from all live ones, or `FAIL`. */
    method Alloc(bytes: nat) returns (pos: int)
      requires Valid() && bytes > 0
      modifies this
      ensures Valid()
      ensures pos == FAIL ==> Model() == old(Model())
      ensures pos != FAIL ==> 0 <= pos && pos !in old(Model()) && Model().Keys == old(Model()).Keys + {pos as nat}
      ensures pos != FAIL ==> Model() - {pos as nat} == old(Model()) && |Model()[pos]| == Words(bytes, wordBytes, align)
    {
      hide Inv, Books, Aligned, BestFit, Offers, Words, Contents, SameData, Sizes, Unwrapped;
      ghost var st, sh, held := State(), shape, Held();
      WordsFit(bytes, wordBytes, align);
      pos := AllocBlock(Words(bytes, wordBytes, align));
      if pos != FAIL {
        HeldKept(st, sh, State(), shape, align, held, Held(), pos);
        assert Model() - {pos as nat} == old(Model());
      }
    }

    /** Gives a block back. */
    method Free(pos: nat, bytes: nat)
      requires Valid() && bytes > 0 && pos in Model() && |Model()[pos]| == Words(bytes, wordBytes, align)
      modifies this
      ensures Valid() && Model() == old(Model()) - {pos}
    {
      hide Inv, Books, Words, Contents, Sizes, Unwrapped;
      Drop(pos, Words(bytes, wordBytes, align));
    }

    method Drop(pos: nat, len: nat)
      requires Valid() && pos in Model() && |Model()[pos]| == len
      modifies this
      ensures Valid() && Model() == old(Model()) - {pos}
    {
      hide Inv, Books, Aligned, Contents, SameData, Sizes, Unwrapped;
      ghost var st, sh := State(), shape;
      FreeBlock(pos, len, 0);
      ContentsSame(st, sh, State(), shape, align, shape.live);
      assert Model() == old(Model()) - {pos};
    }

    /** The client writes a word of its block. */
    method Write(pos: nat, i: nat, v: int)
      requires Valid() && pos in Model() && i < |Model()[pos]|
      modifies this
      ensures Valid() && Model() == old(Model())[pos := old(Model())[pos][i := v]]
      ensures shape == old(shape) && lost == old(lost) && n == old(n) && drift == old(drift) && |mem| == |old(mem)|
    {
      hide Inv, FreeWords, HugeWords, Aligned, SameData, Sizes, Unwrapped, Contents;
      ghost var st := State();
      LiveBlock(st, shape, align, pos);
      InvFacts(st, shape, align);
      mem := mem[pos + i := v];
      WriteKeeps(st, shape, align, pos, pos + i, v);
      ContentsWrite(st, shape, State(), align, pos, i, v);
      MinusPut(Contents(st, shape, align), lost, pos, i, v);
    }

    /** `memcpy` from one live block to another. */
    method Copy(dst: nat, src: nat, len: nat)
      requires Valid() && dst in Model() && src in Model() && dst != src
      requires len <= |Model()[src]| && len <= |Model()[dst]|
      modifies this
      ensures Valid() && Model() == old(Model())[dst := old(Model())[src][..len] + old(Model())[dst][len..]]
      ensures shape == old(shape) && lost == old(lost) && n == old(n) && drift == old(drift) && |mem| == |old(mem)|
    {
      hide Inv, Books, Contents, Sizes, Unwrapped;
      ghost var m := Model();
      var i := 0;
      assert m[src][..0] + m[dst][0..] == m[dst];
      while i < len
        invariant Valid() && i <= len && shape == old(shape) && lost == old(lost) && n == old(n) && drift == old(drift)
          && |mem| == |old(mem)|
        invariant Model() == m[dst := m[src][..i] + m[dst][i..]]
      {
        CopyStep(m, dst, src, i, Model());
        assert Model()[src][i] == mem[src + i];
        Write(dst, i, mem[src + i]);
        i := i + 1;
      }
    }

    /** Resizes a block, moving it if it must; the words both sizes have stay. */
    method Alloc3(pos: nat, oldBytes: nat, newBytes: nat) returns (r: int)
      requires Valid() && oldBytes > 0 && newBytes > 0
      requires pos in Model() && |Model()[pos]| == Words(oldBytes, wordBytes, align)
      modifies this
      ensures Valid()
      ensures r == FAIL ==>
          Model() == old(Model()) && Words(newBytes, wordBytes, align) > Words(oldBytes, wordBytes, align)
      ensures r != FAIL ==> 0 <= r && (r == pos || r !in old(Model())) && r in Model()
      ensures r != FAIL ==> Model() - {r as nat} == old(Model()) - {pos}
      ensures r != FAIL ==> Resized(old(Model())[pos], Model()[r], Words(newBytes, wordBytes, align))
    {
      hide Inv, Books, Aligned, Words, Resized, Sizes, Unwrapped;
      var oldLen, newLen := Words(oldBytes, wordBytes, align), Words(newBytes, wordBytes, align);
      WordsFit(oldBytes, wordBytes, align);
      WordsFit(newBytes, wordBytes, align);
      if pos + oldLen == n && pos + newLen <= |mem| {
        ResizeTop(pos, newLen);
        r := pos;
      } else if newLen < oldLen {
        CutTail(pos, newLen, oldLen);
        r := pos;
      } else if newLen == oldLen {
        SameSize(Model()[pos], newLen);
        r := pos;
      } else {
        r := Move(pos, oldLen, newLen);
      }
    }

    method ResizeTop(pos: nat, len: nat)
      requires Valid() && pos in Model() && len > 0 && Aligned(len, align)
      requires pos + |Model()[pos]| == n && pos + len <= |mem|
      modifies this
      ensures Valid() && pos in Model() && Model() - {pos} == old(Model()) - {pos}
      ensures Resized(old(Model())[pos], Model()[pos], len)
    {
      hide Inv, FreeWords, HugeWords, Aligned, Contents, Resized, Sizes, Unwrapped;
      ghost var st, sh := State(), shape;
      shape := sh.(blocks := sh.blocks[pos := len], live := sh.live[pos := len]);
      n := pos + len;
      ResizeKeeps(st, sh, align, pos, len, State(), shape);
      ResizeBooks(st, sh, align, pos, len, shape);
      BaseFree(st, sh, align);
      SizesSame(sh, shape, wordBytes);
      TopResized(st, sh, State(), shape, align, pos, len);
      MinusTwo(Contents(st, sh, align), lost, pos);
      MinusTwo(Contents(State(), shape, align), lost, pos);
    }

    method CutTail(pos: nat, len: nat, oldLen: nat)
      requires Valid() && pos in Model() && 0 < len < oldLen == |Model()[pos]| && Aligned(len, align)
      modifies this
      ensures Valid() && pos in Model() && Model() - {pos} == old(Model()) - {pos}
      ensures Resized(old(Model())[pos], Model()[pos], len)
    {
      hide Inv, Books, Aligned, Sizes, Unwrapped;
      ghost var st, sh := State(), shape;
      SplitOff(pos, len, 0);
      FreeBlock(pos + len, oldLen - len, 0);
      assert shape.live == sh.live[pos := len];
      TailCut(st, sh, State(), shape, align, pos, len);
      MinusTwo(Contents(st, sh, align), lost, pos);
      MinusTwo(Contents(State(), shape, align), lost, pos);
    }

    method Move(pos: nat, oldLen: nat, newLen: nat) returns (r: int)
      requires Valid() && pos in Model() && |Model()[pos]| == oldLen && 0 < oldLen < newLen && Aligned(newLen, align)
      modifies this
      ensures Valid() && (r == FAIL ==> Model() == old(Model()))
      ensures r != FAIL ==> 0 <= r && r !in old(Model()) && r in Model()
      ensures r != FAIL ==>
          Model() - {r as nat} == old(Model()) - {pos} && Resized(old(Model())[pos], Model()[r], newLen)
    {
      hide Inv, Books, Aligned, BestFit, Offers, Contents, SameData, Sizes, Unwrapped;
      ghost var st, sh, m, held := State(), shape, Model(), Held();
      r := AllocBlock(newLen);
      if r != FAIL {
        HeldKept(st, sh, State(), shape, align, held, Held(), r);
        ghost var m1 := Model();
        Relocate(r, pos, oldLen);
        Moved(m, m1, Model(), pos, r, oldLen, newLen);
      }
    }

    /** Copies the words of a block into another and frees it. */
    method Relocate(dst: nat, src: nat, len: nat)
      requires Valid() && dst in Model() && src in Model() && dst != src
      requires len == |Model()[src]| <= |Model()[dst]|
      modifies this
      ensures Valid() && Model() == old(Model())[dst := old(Model())[src][..len] + old(Model())[dst][len..]] - {src}
    {
      hide Inv, Books, Contents, Sizes, Unwrapped;
      Copy(dst, src, len);
      Drop(src, len);
    }

    /** One operation of a client. */
    method Perform(op: Op) returns (r: int)
      requires Valid() && Legal(op, Model(), wordBytes, align)
      modifies this
      ensures Valid() && SpecStep(old(Model()), op, r, Model(), wordBytes, align)
    {
      hide Inv, Books, Contents, Resized, Words, Sizes, Unwrapped;
      match op {
        case DoAlloc(bytes) => r := Alloc(bytes);
        case DoFree(pos, bytes) => Free(pos, bytes); r := 0;
        case DoAlloc3(pos, oldBytes, newBytes) => r := Alloc3(pos, oldBytes, newBytes);
        case DoWrite(pos, i, v) => Write(pos, i, v); r := 0;
      }
    }

    /** A client that keeps to the rules, for any number of steps: every step does what it
        should, and a block that no step names keeps its words. */
    method Run(client: Client, steps: nat) returns (rs: seq<int>, ghost ops: seq<Op>)
      requires Valid() && Behaves(client, [], Model(), steps, wordBytes, align)
      modifies this
      ensures Valid() && |rs| == |ops| == steps && forall i :: 0 <= i < steps ==> ops[i] == client(rs[..i])
      ensures exists ms :: IsRun(ms, ops, rs, wordBytes, align) && ms[0] == old(Model()) && ms[steps] == Model()
      ensures forall p :: p in old(Model()) && (forall i :: 0 <= i < steps ==> !Touches(ops[i], p)) ==>
        p in Model() && Model()[p] == old(Model())[p]
    {
      hide Inv, Books, Contents, SpecStep, Legal, Sizes, Unwrapped;
      rs, ops := [], [];
      ghost var ms := [Model()];
      var n := 0;
      while n < steps
        invariant 0 <= n <= steps && |rs| == |ops| == n && Valid()
        invariant forall i :: 0 <= i < n ==> ops[i] == client(rs[..i])
        invariant IsRun(ms, ops, rs, wordBytes, align) && ms[0] == old(Model()) && ms[n] == Model()
        invariant Behaves(client, rs, Model(), steps - n, wordBytes, align)
      {
        var r := Perform(client(rs));
        ops, ms := ops + [client(rs)], ms + [Model()];
        assert forall i :: 0 <= i <= n ==> (rs + [r])[..i] == rs[..i];
        rs := rs + [r];
        n := n + 1;
      }
      forall p | p in ms[0] && (forall i :: 0 <= i < steps ==> !Touches(ops[i], p))
        ensures p in Model() && Model()[p] == ms[0][p] {
        RunKeeps(ms, ops, rs, wordBytes, align, p);
      }
    }
  }

  /** A client frees a huge block of four-byte links and asks for as much again. The pool finds the
      block if and only if its size did not wrap; otherwise it needs as many words again on top. */
  method AskAgain(cap: nat, maxBlock: nat, len: nat) returns (r: int)
    requires maxBlock >= NODE_WORDS * 4 && Words(maxBlock, 4, 1) < len < cap <= LinkLimit(4)
    ensures r == if len < SizeRange(4) then 0 else if 2 * len + 1 <= cap then len + 1 else FAIL
  {
    hide Inv, Sizes, Unwrapped, Words, StoredSize;
    WordsFit(maxBlock, 4, 1);
    var p := new Pool(1, 4, cap, maxBlock);
    var a := p.AllocBlock(len);
    assert a == 0;
    var b := p.AllocBlock(1);
    assert b == len;
    p.FreeBlock(0, len, 0);
    OnlyNode(p, len);
    ghost var sh := p.shape;
    r := p.AllocBlock(len);
    assert r in sh.blocks ==> Offers(sh, 1, len, r);
    InvFacts(p.State(), p.shape, p.align);
  }

  /** The models before, between and after the operations of a run. */
  ghost predicate IsRun(ms: seq<map<nat, seq<int>>>, ops: seq<Op>, rs: seq<int>, wordBytes: nat, align: nat)
    requires wordBytes > 0 && align > 0
  {
    && |ms| == |ops| + 1 == |rs| + 1
    && forall i :: 0 <= i < |ops| ==> SpecStep(ms[i], ops[i], rs[i], ms[i + 1], wordBytes, align)
  }

  /** A client: what it does next, given the answers so far. */
  type Client = seq<int> -> Op

  /** Whatever the pool answers, the next `steps` operations of the client are legal. */
  ghost predicate Behaves(client: Client, rs: seq<int>, m: map<nat, seq<int>>, steps: nat, wordBytes: nat, align: nat)
    requires wordBytes > 0 && align > 0
    decreases steps
  {
    steps == 0 || (
      && Legal(client(rs), m, wordBytes, align)
      && forall r: int, m' :: SpecStep(m, client(rs), r, m', wordBytes, align) ==>
           Behaves(client, rs + [r], m', steps - 1, wordBytes, align))
  }

  datatype Op =
    | DoAlloc(bytes: nat)
    | DoFree(pos: nat, bytes: nat)
    | DoAlloc3(pos: nat, oldBytes: nat, newBytes: nat)
    | DoWrite(pos: nat, i: nat, v: int)

  /** What the pool asks of its client: to name live blocks by their own size. */
  ghost predicate Legal(op: Op, m: map<nat, seq<int>>, wordBytes: nat, align: nat)
    requires wordBytes > 0 && align > 0
  {
    match op
    case DoAlloc(bytes) => bytes > 0
    case DoFree(pos, bytes) => bytes > 0 && pos in m && |m[pos]| == Words(bytes, wordBytes, align)
    case DoAlloc3(pos, oldBytes, newBytes) =>
      oldBytes > 0 && newBytes > 0 && pos in m && |m[pos]| == Words(oldBytes, wordBytes, align)
    case DoWrite(pos, i, v) => pos in m && i < |m[pos]|
  }

  /** What an operation may do to the contents of the live blocks. */
  ghost predicate SpecStep(m: map<nat, seq<int>>, op: Op, r: int, m': map<nat, seq<int>>, wordBytes: nat, align: nat)
    requires wordBytes > 0 && align > 0
  {
    match op
    case DoAlloc(bytes) =>
      if r == FAIL then m' == m
      else 0 <= r && r !in m && r in m' && m' - {r as nat} == m && |m'[r]| == Words(bytes, wordBytes, align)
    case DoFree(pos, bytes) => m' == m - {pos}
    case DoAlloc3(pos, oldBytes, newBytes) =>
      if r == FAIL then m' == m
      else
        && 0 <= r && pos in m && (r == pos || r !in m) && r in m' && m' - {r as nat} == m - {pos}
        && Resized(m[pos], m'[r], Words(newBytes, wordBytes, align))
    case DoWrite(pos, i, v) => pos in m && i < |m[pos]| && m' == m[pos := m[pos][i := v]]
  }

  predicate Touches(op: Op, p: nat) {
    !op.DoAlloc? && op.pos == p
  }

  /** Over any run, a block nobody names keeps its words. */
  lemma {:induction false} RunKeeps(ms: seq<map<nat, seq<int>>>, ops: seq<Op>, rs: seq<int>, wordBytes: nat, align: nat,
                                    p: nat)
    requires wordBytes > 0 && align > 0 && IsRun(ms, ops, rs, wordBytes, align)
    requires p in ms[0] && forall i :: 0 <= i < |ops| ==> !Touches(ops[i], p)
    ensures p in ms[|ops|] && ms[|ops|][p] == ms[0][p]
  {
    hide Resized, Words;
    if ops != [] {
      var k := |ops| - 1;
      RunKeeps(ms[..k + 1], ops[..k], rs[..k], wordBytes, align, p);
      assert !Touches(ops[k], p) && SpecStep(ms[k], ops[k], rs[k], ms[k + 1], wordBytes, align);
      StepKeepsBlock(ms[k], ops[k], rs[k], ms[k + 1], wordBytes, align, p);
    }
  }

  lemma StepKeepsBlock(m: map<nat, seq<int>>, op: Op, r: int, m': map<nat, seq<int>>, wordBytes: nat, align: nat,
                       p: nat)
    requires wordBytes > 0 && align > 0 && SpecStep(m, op, r, m', wordBytes, align) && p in m && !Touches(op, p)
    ensures p in m' && m'[p] == m[p]
  {
    hide Resized, Words;
    match op {
      case DoAlloc(_) =>
        if r != FAIL {
          assert p in m' - {r as nat};
        }
      case DoFree(_, _) =>
      case DoAlloc3(pos, _, _) =>
        if r != FAIL {
          assert p in m - {pos};
          assert p in m' - {r as nat};
        }
      case DoWrite(_, _, _) =>
    }
  }

  lemma CopyStep(m: map<nat, seq<int>>, dst: nat, src: nat, i: nat, before: map<nat, seq<int>>)
    requires dst in m && src in m && dst != src && i < |m[src]| && i < |m[dst]|
    requires before == m[dst := m[src][..i] + m[dst][i..]]
    ensures before[dst := before[dst][i := m[src][i]]] == m[dst := m[src][..i + 1] + m[dst][i + 1..]]
  {
    assert m[src][..i + 1] + m[dst][i + 1..] == before[dst][i := m[src][i]];
  }

  lemma Moved(m: map<nat, seq<int>>, m1: map<nat, seq<int>>, m2: map<nat, seq<int>>, pos: nat, r: nat, oldLen: nat,
              newLen: nat)
    requires pos in m && r !in m && |m[pos]| == oldLen <= newLen
    requires m1.Keys == m.Keys + {r} && (forall p :: p in m ==> m1[p] == m[p]) && |m1[r]| == newLen
    requires m2 == m1[r := m1[pos][..oldLen] + m1[r][oldLen..]] - {pos}
    ensures r in m2 && m2 - {r} == m - {pos} && Resized(m[pos], m2[r], newLen)
  {
  }

  /** `c'` has `len` words and shares as many with `c` as both have. */
  ghost predicate Resized(c: seq<int>, c': seq<int>, len: nat) {
    |c'| == len && forall i :: 0 <= i < |c| && i < len ==> c'[i] == c[i]
  }

  lemma SameSize(c: seq<int>, len: nat)
    requires |c| == len
    ensures Resized(c, c, len)
  {
  }

  lemma ResizeBooks(st: Store, sh: Shape, align: nat, pos: nat, len: nat, sh': Shape)
    requires Inv(st, sh, align) && pos in sh.live
    requires sh' == sh.(blocks := sh.blocks[pos := len], live := sh.live[pos := len])
    ensures FreeWords(sh') == FreeWords(sh) && HugeWords(sh') == HugeWords(sh)
  {
    hide SkipOk, BinsOk, Tiled;
    BaseFree(st, sh, align);
    RecutWords(sh, sh');
  }

  lemma TopResized(st: Store, sh: Shape, st': Store, sh': Shape, align: nat, pos: nat, len: nat)
    requires Inv(st, sh, align) && Inv(st', sh', align) && pos in sh.live
    requires sh'.live == sh.live[pos := len] && st'.mem == st.mem
    ensures Contents(st', sh', align) - {pos} == Contents(st, sh, align) - {pos}
    ensures Resized(Contents(st, sh, align)[pos], Contents(st', sh', align)[pos], len)
  {
    hide Inv, Contents;
    TailRest(st, sh, st', sh', align, pos, len);
  }

  lemma TailCut(st: Store, sh: Shape, st': Store, sh': Shape, align: nat, pos: nat, len: nat)
    requires Inv(st, sh, align) && Inv(st', sh', align) && pos in sh.live && 0 < len < sh.live[pos]
    requires sh'.live == sh.live[pos := len] && SameData(sh'.live, st.mem, st'.mem)
    ensures Contents(st', sh', align) - {pos} == Contents(st, sh, align) - {pos}
    ensures Resized(Contents(st, sh, align)[pos], Contents(st', sh', align)[pos], len)
  {
    hide Inv, SameData, Contents, Resized;
    TailRest(st, sh, st', sh', align, pos, len);
    HeadKept(sh'.live, st.mem, st'.mem, pos, len, sh.live[pos]);
  }

  lemma TailRest(st: Store, sh: Shape, st': Store, sh': Shape, align: nat, pos: nat, len: nat)
    requires Inv(st, sh, align) && Inv(st', sh', align) && pos in sh.live
    requires sh'.live == sh.live[pos := len] && SameData(sh'.live, st.mem, st'.mem)
    ensures Contents(st', sh', align) - {pos} == Contents(st, sh, align) - {pos}
  {
    hide Inv, SameData, Contents;
    LessData(sh'.live, sh.live - {pos}, st.mem, st'.mem);
    ContentsSame(st, sh, st', sh', align, sh.live - {pos});
    SameRest(Contents(st, sh, align), Contents(st', sh', align), sh.live - {pos}, pos);
  }

  lemma SameRest(m: map<nat, seq<int>>, m': map<nat, seq<int>>, kept: map<nat, nat>, pos: nat)
    requires m.Keys == m'.Keys == kept.Keys + {pos} && pos !in kept && forall p :: p in kept ==> m'[p] == m[p]
    ensures m' - {pos} == m - {pos}
  {
    assert (m' - {pos}).Keys == (m - {pos}).Keys == kept.Keys;
  }

  lemma HeadKept(live: map<nat, nat>, mem: seq<int>, mem': seq<int>, pos: nat, len: nat, oldLen: nat)
    requires SameData(live, mem, mem') && pos in live && live[pos] == len <= oldLen && pos + oldLen <= |mem|
    ensures Resized(mem[pos..pos + oldLen], mem'[pos..pos + len], len)
  {
  }

  lemma LessData(live: map<nat, nat>, live': map<nat, nat>, mem: seq<int>, mem': seq<int>)
    requires SameData(live, mem, mem') && forall p :: p in live' ==> p in live && live[p] == live'[p]
    ensures SameData(live', mem, mem')
  {
  }

  lemma ContentsWrite(st: Store, sh: Shape, st': Store, align: nat, pos: nat, i: nat, v: int)
    requires Inv(st, sh, align) && Inv(st', sh, align) && pos in sh.live && i < sh.live[pos] && pos + i < |st.mem|
    requires st'.mem == st.mem[pos + i := v] && SameData(sh.live - {pos}, st.mem, st'.mem)
    ensures var m := Contents(st, sh, align); Contents(st', sh, align) == m[pos := m[pos][i := v]]
  {
    hide Inv, Contents, SameData;
    ContentsSame(st, sh, st', sh, align, sh.live - {pos});
    var m, m' := Contents(st, sh, align), Contents(st', sh, align);
    assert m'[pos] == m[pos][i := v];
    assert m' == m[pos := m[pos][i := v]];
  }

  /** The words of the live blocks, by block. */
  ghost function Contents(st: Store, sh: Shape, align: nat): (m: map<nat, seq<int>>)
    requires Inv(st, sh, align)
    ensures m.Keys == sh.live.Keys
    ensures forall p :: p in m ==> p + sh.live[p] <= |st.mem| && m[p] == st.mem[p..p + sh.live[p]]
  {
    AllLive(st, sh, align);
    map p | p in sh.live :: st.mem[p..p + sh.live[p]]
  }

  lemma AllLive(st: Store, sh: Shape, align: nat)
    requires Inv(st, sh, align)
    ensures forall p :: p in sh.live ==> p + sh.live[p] <= |st.mem|
  {
    hide SkipOk, BinsOk, Aligned;
    forall p | p in sh.live ensures p + sh.live[p] <= |st.mem| {
      LiveBlock(st, sh, align, p);
    }
  }

  /** Blocks live before and after, with no word changed, have the same contents. */
  lemma ContentsSame(st: Store, sh: Shape, st': Store, sh': Shape, align: nat, kept: map<nat, nat>)
    requires Inv(st, sh, align) && Inv(st', sh', align) && SameData(kept, st.mem, st'.mem)
    requires forall p :: p in kept ==> p in sh.live && p in sh'.live && sh'.live[p] == sh.live[p] == kept[p]
    ensures forall p :: p in kept ==> Contents(st', sh', align)[p] == Contents(st, sh, align)[p]
  {
    hide Inv;
  }

  lemma SmallFit(st: Store, sh: Shape, align: nat, request: nat)
    requires Inv(st, sh, align) && 0 <= Bin(request, align) < |sh.small| && request <= |sh.small| * align
    requires |st.heads| == |sh.small|
    ensures st.heads[Bin(request, align)] != TAIL <==> exists p :: BestFit(sh, align, request, p)
  {
    var i := Bin(request, align);
    BinEmpty(st.mem, st.heads, st.cnts, sh.small, sh.blocks, align, i);
    if sh.small[i] != [] {
      assert BestFit(sh, align, request, sh.small[i][0]);
    }
  }

  /** The first node that says it is not smaller than the request is the smallest that fits, as
      long as no size is wrapped. */
  lemma HugeFit(st: Store, sh: Shape, align: nat, wordBytes: nat, request: nat, c: nat)
    requires Inv(st, sh, align) && LinkShape(align, wordBytes) && Sizes(sh, wordBytes) && Unwrapped(sh, wordBytes)
    requires request > |sh.small| * align && c <= |sh.base|
    requires Sorted(sh.base, sh.sz) ==> c == Below(sh.base, sh.sz, request)
    ensures if c < |sh.base|
        then BestFit(sh, align, request, sh.base[c]) else !exists p :: BestFit(sh, align, request, p)
  {
    hide Inv, StoredSize;
    forall p | p in sh.base ensures p in sh.blocks && sh.blocks[p] == sh.sz[p] {
      StoredExact(sh.blocks[p], align, wordBytes);
    }
    BelowSplits(sh.base, sh.sz, request);
    if c < |sh.base| {
      forall q | q in sh.base && sh.sz[q] >= request ensures sh.sz[q] >= sh.sz[sh.base[c]] {
        var j :| 0 <= j < |sh.base| && sh.base[j] == q;
        BelowAt(sh.base, sh.sz, request, j);
      }
    } else {
      assert sh.base[..c] == sh.base;
    }
  }

  /** A node of the huge list says no more than it has, in whole alignment units. */
  lemma NodeSays(st: Store, sh: Shape, align: nat, wordBytes: nat, p: nat)
    requires Inv(st, sh, align) && LinkShape(align, wordBytes) && |st.mem| <= LinkLimit(wordBytes)
    requires Sizes(sh, wordBytes) && p in sh.base
    ensures p < |st.mem| && p in sh.sz && p in sh.blocks && st.mem[p] == sh.sz[p] <= sh.blocks[p]
    ensures Aligned(st.mem[p], align) && p !in sh.live
    ensures Unwrapped(sh, wordBytes) ==> sh.sz[p] == sh.blocks[p] < SizeRange(wordBytes)
  {
    hide StoredSize, BinsOk, Placed, Filter, Linked, Sorted;
    StoredExact(sh.blocks[p], align, wordBytes);
    BlockBound(sh.blocks, st.n, align, p);
    assert NodeOk(st.mem, st.height, sh.lvl, sh.sz, p);
    BaseFree(st, sh, align);
  }

  /** A live block enters the huge list. The search goes by its length, the node says its stored
      size. */
  method EnterList(mem0: seq<int>, next0: seq<int>, height0: nat, pos: nat, len: nat, wordBytes: nat,
                   ghost st: Store, ghost sh: Shape, ghost align: nat)
    returns (mem: seq<int>, next: seq<int>, height: nat, ghost sh': Shape)
    requires Inv(st, sh, align) && LinkShape(align, wordBytes) && Sizes(sh, wordBytes)
    requires mem0 == st.mem && next0 == st.next && height0 == st.height
    requires pos in sh.live && sh.live[pos] == len > |sh.small| * align
    ensures Inv(st.(mem := mem, next := next, height := height), sh', align) && SameData(sh'.live, mem0, mem)
    ensures sh'.live == sh.live - {pos} && sh'.blocks == sh.blocks && sh'.small == sh.small
    ensures Sizes(sh', wordBytes) && |sh'.base| == |sh.base| + 1
    ensures Unwrapped(sh, wordBytes) ==> (Unwrapped(sh', wordBytes) <==> len < SizeRange(wordBytes))
    ensures FreeWords(sh') == FreeWords(sh) + len && HugeWords(sh') == HugeWords(sh) + len
    ensures forall p :: p in sh'.base <==> p == pos || p in sh.base
  {
    hide Inv, FreeWords, HugeWords, Aligned, SameData, SkipOk, Room, Below, SameOutside, Found, Sizes, Unwrapped,
         StoredSize, PutAt, Sorted;
    LiveBlock(st, sh, align, pos);
    InvFacts(st, sh, align);
    var update, _, c := Search(mem0, next0, height0, len, sh.base, sh.lvl, sh.sz);
    var random: nat :| random < LEVELS;
    var size := StoredSize(len, wordBytes);
    RoomFor(st, sh, align, pos, size);
    ghost var level;
    mem, next, height, level := PutNode(mem0, next0, height0, update, pos, size, random, sh.base, sh.lvl,
                                        sh.sz[pos := size], c);
    sh' := sh.(live := sh.live - {pos}, base := PutAt(sh.base, c, pos), lvl := sh.lvl[pos := level],
               sz := sh.sz[pos := size]);
    PutKeeps(st, sh, align, pos, c, level, size, st.(mem := mem, next := next, height := height), sh');
    HugeFreed(sh, pos, c, level, sh', align, wordBytes);
  }

  lemma HugeFreed(sh: Shape, pos: nat, c: nat, level: nat, sh': Shape, align: nat, wordBytes: nat)
    requires LinkShape(align, wordBytes) && Sizes(sh, wordBytes) && c <= |sh.base| && pos !in sh.base
    requires pos in sh.blocks && pos in sh.live
    requires Sorted(sh.base, sh.sz) ==> c == Below(sh.base, sh.sz, sh.blocks[pos])
    requires sh' == sh.(live := sh.live - {pos}, base := PutAt(sh.base, c, pos), lvl := sh.lvl[pos := level],
                        sz := sh.sz[pos := StoredSize(sh.blocks[pos], wordBytes)])
    ensures Sizes(sh', wordBytes) && |sh'.base| == |sh.base| + 1
    ensures Unwrapped(sh, wordBytes) ==> (Unwrapped(sh', wordBytes) <==> sh.blocks[pos] < SizeRange(wordBytes))
    ensures FreeWords(sh') == FreeWords(sh) + sh.blocks[pos] && HugeWords(sh') == HugeWords(sh) + sh.blocks[pos]
    ensures forall p :: p in sh'.base <==> p == pos || p in sh.base
  {
    hide Sizes, Unwrapped, Sorted, Below, StoredSize, FreeWords, HugeWords;
    PutMembers(sh.base, c, pos);
    SizesPut(sh, pos, c, level, sh', align, wordBytes);
    PutWords(sh, c, pos, sh');
    FreedWords(sh, pos, sh');
  }

  /** What a list of one node says of itself. */
  lemma OnlyNode(p: Pool, len: nat)
    requires p.Valid() && (forall q :: q in p.shape.base <==> q == 0) && p.shape.blocks == map[0 := len, len := 1]
      && len > 1
    requires p.wordBytes == 4
    ensures 0 in p.shape.sz && (p.shape.sz[0] >= len <==> len < SizeRange(4))
    ensures len > |p.shape.small| * p.align ==> BestFit(p.shape, p.align, len, 0)
  {
    hide Inv, StoredSize, Unwrapped;
    StoredExact(len, p.align, 4);
    assert 0 in p.shape.base;
  }

  lemma NoChange(live: map<nat, nat>, mem: seq<int>)
    ensures SameData(live, mem, mem)
  {
  }

  lemma SameLength(live: map<nat, nat>, mem: seq<int>, mem': seq<int>)
    requires SameData(live, mem, mem')
    ensures |mem'| == |mem|
  {
  }

  lemma SplitSizes(st: Store, sh: Shape, align: nat, wordBytes: nat, pos: nat, len: nat, sh': Shape)
    requires Inv(st, sh, align) && Inv(st, sh', align) && wordBytes > 0 && Sizes(sh, wordBytes) && pos in sh.live
      && 0 < len < sh.live[pos]
    requires sh' == sh.(blocks := sh.blocks[pos := len][pos + len := sh.live[pos] - len],
                        live := sh.live[pos := len][pos + len := sh.live[pos] - len])
    ensures Sizes(sh', wordBytes) && (Unwrapped(sh', wordBytes) <==> Unwrapped(sh, wordBytes))
  {
    hide Inv, Sizes, Unwrapped;
    BaseFree(st, sh, align);
    BaseFree(st, sh', align);
    SizesSame(sh, sh', wordBytes);
  }

  /** Words that no step of two changes. */
  lemma DataTwice(live: map<nat, nat>, live': map<nat, nat>, mem: seq<int>, mem1: seq<int>, mem2: seq<int>)
    requires SameData(live, mem, mem1) && SameData(live', mem1, mem2)
    requires forall p :: p in live ==> p in live' && live'[p] == live[p]
    ensures SameData(live, mem, mem2)
  {
    forall p, x | p in live && p <= x < p + live[p] && x < |mem| ensures mem2[x] == mem[x] {
      assert p in live' && live'[p] == live[p];
    }
  }

  /** Blocks held before and after an allocation have the same contents. */
  lemma HeldKept(st: Store, sh: Shape, st': Store, sh': Shape, align: nat, held: map<nat, nat>, held': map<nat, nat>,
                 pos: nat)
    requires Inv(st, sh, align) && Inv(st', sh', align) && SameData(sh.live, st.mem, st'.mem) && pos !in sh.live
    requires forall p :: p in held ==> p in sh.live && sh.live[p] == held[p] && p in held' && held'[p] == held[p]
    requires forall p :: p in held' ==> p in sh'.live && sh'.live[p] == held'[p]
    ensures forall p :: p in held ==> Contents(st', sh', align)[p] == Contents(st, sh, align)[p]
  {
    hide Inv, SameData, Contents;
    LessData(sh.live, held, st.mem, st'.mem);
    ContentsSame(st, sh, st', sh', align, held);
  }

  lemma PutBack(live: map<nat, nat>, lost: set<nat>, held: map<nat, nat>, pos: nat, request: nat, q: nat, remain: nat)
    requires live - lost == held[pos := request][q := remain] && q !in held && q != pos
    ensures live - {q} - lost == held[pos := request]
  {
    assert live - {q} - lost == live - lost - {q};
  }

  lemma MinusPut(m: map<nat, seq<int>>, s: set<nat>, p: nat, i: nat, v: int)
    requires p in m && p !in s && i < |m[p]|
    ensures m[p := m[p][i := v]] - s == (m - s)[p := m[p][i := v]]
  {
  }

  lemma MinusTwo(m: map<nat, seq<int>>, s: set<nat>, p: nat)
    ensures m - s - {p} == m - {p} - s
  {
  }

  lemma ExtendBooks(st: Store, sh: Shape, align: nat, len: nat, sh': Shape)
    requires Inv(st, sh, align) && len > 0 && Aligned(len, align)
    requires sh' == sh.(blocks := sh.blocks[st.n := len], live := sh.live[st.n := len])
    ensures FreeWords(sh') == FreeWords(sh) && HugeWords(sh') == HugeWords(sh) && st.n !in sh.blocks
  {
    hide SkipOk, BinsOk, Aligned;
    Extend(sh.blocks, st.n, align, len);
    BaseFree(st, sh, align);
    RecutWords(sh, sh');
  }

  lemma SplitBooks(st: Store, sh: Shape, align: nat, pos: nat, len: nat, sh': Shape)
    requires Inv(st, sh, align) && pos in sh.live && 0 < len < sh.live[pos] && Aligned(len, align)
    requires sh' == sh.(blocks := sh.blocks[pos := len][pos + len := sh.live[pos] - len],
                        live := sh.live[pos := len][pos + len := sh.live[pos] - len])
    ensures FreeWords(sh') == FreeWords(sh) && HugeWords(sh') == HugeWords(sh)
  {
    hide SkipOk, BinsOk, Aligned;
    Split(sh.blocks, st.n, align, pos, len);
    BaseFree(st, sh, align);
    RecutWords(sh, sh');
  }

  lemma InvFacts(st: Store, sh: Shape, align: nat)
    requires Inv(st, sh, align)
    ensures align > 0 && st.n <= |st.mem| <= TAIL && |st.heads| == |st.cnts| == |sh.small| && |st.next| == LEVELS
    ensures SkipOk(st.mem, st.next, st.height, sh.base, sh.lvl, sh.sz)
    ensures BinsOk(st.mem, st.heads, st.cnts, sh.small, sh.blocks, align)
    ensures Spread(sh.base)
    ensures forall p :: p in sh.base ==> p in sh.blocks && p !in sh.live
  {
    BaseFree(st, sh, align);
  }

  lemma EmptyInv(st: Store, sh: Shape, align: nat, wordBytes: nat, maxBlock: nat)
    requires align > 0 && wordBytes > 0 && maxBlock >= NODE_WORDS * wordBytes && |st.mem| <= TAIL && st.n == 0
    requires sh.blocks == map[] && sh.live == map[] && sh.base == [] && |sh.small| == |st.heads| == |st.cnts|
    requires |sh.small| * align == Words(maxBlock, wordBytes, align)
    requires forall i :: 0 <= i < |sh.small| ==> sh.small[i] == [] && st.heads[i] == TAIL && st.cnts[i] == 0
    requires |st.next| == LEVELS && st.height == 0 && forall k :: 0 <= k < LEVELS ==> st.next[k] == TAIL
    ensures Inv(st, sh, align) && FreeWords(sh) == 0 && HugeWords(sh) == 0
  {
    WordsFit(maxBlock, wordBytes, align);
    assert |sh.small| * align >= NODE_WORDS by {
      if |sh.small| * align < NODE_WORDS {
        AtLeast(NODE_WORDS - |sh.small| * align, wordBytes);
      }
    }
    assert sh.blocks - sh.live.Keys == map[];
    assert HugeBlocks(sh) == map[];
    forall i | 0 <= i < |sh.small|
      ensures BinOk(st.mem, st.heads[i], st.cnts[i], sh.small[i], sh.blocks, BinLen(i, align))
    {
    }
  }

  lemma ShrinkBooks(st: Store, sh: Shape, align: nat, pos: nat, sh': Shape)
    requires Inv(st, sh, align) && pos in sh.live && sh' == sh.(blocks := sh.blocks - {pos}, live := sh.live - {pos})
    ensures FreeWords(sh') == FreeWords(sh) && HugeWords(sh') == HugeWords(sh)
  {
    hide SkipOk, BinsOk, Tiled;
    BaseFree(st, sh, align);
    RecutWords(sh, sh');
  }

  lemma BaseFree(st: Store, sh: Shape, align: nat)
    requires Inv(st, sh, align)
    ensures forall p :: p in sh.base ==> p in sh.blocks && p !in sh.live
  {
    forall p | p in sh.base ensures p in sh.blocks && p !in sh.live {
      FreeNotLive(st, sh, align, p);
    }
  }

  /** A live huge block has room for a node beside the others, whatever size the node will say. */
  lemma RoomFor(st: Store, sh: Shape, align: nat, pos: nat, size: nat)
    requires Inv(st, sh, align) && pos in sh.live && sh.live[pos] > |sh.small| * align
    ensures Room(st.mem, sh.base, sh.lvl, sh.sz[pos := size], pos)
    ensures SkipOk(st.mem, st.next, st.height, sh.base, sh.lvl, sh.sz[pos := size])
  {
    hide BinsOk, Filter, Linked;
    LiveBlock(st, sh, align, pos);
    forall p | p in sh.base ensures Apart(p, pos) {
      FreeNotLive(st, sh, align, p);
      BlocksApart(st, sh, align, p, pos);
    }
    assert forall p :: p in sh.base ==> NodeOk(st.mem, st.height, sh.lvl, sh.sz, p);
    SkipSame(st.mem, st.mem, st.next, st.height, sh.base, sh.lvl, sh.sz, sh.sz[pos := size]);
  }
}
