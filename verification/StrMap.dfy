/** A hash map from strings, with all keys in one pool and freelists inside it. */
module StrMaps {
  import opened Basics
  import opened HashSizing
  import opened HashChains
  import opened HashSlots
  import opened HashBuckets
  import opened RecordBytes
  import opened StrPieces
  import opened StrSlots
  import opened StrBins
  import opened StrCompact
  import opened StrRelist
  import opened StrSort
  import opened StrSearch
  import opened StrGrowth
  import opened StrTable
  import opened StrRange

  /** What becomes of an insertion: `Refused` when a check of the source stops it, `Overrun` when
      the pool passes its limit and no check sees it. */
  datatype Fate = Present | Added | Refused | Overrun

  // ---- runs

  datatype Op<!V> =
    | Put(key: seq<Byte>, val: V)
    | Remove(key: seq<Byte>)
    | Lookup(key: seq<Byte>)
    | Rehashed(buckets: nat)
    | Listed(maxKeyLen: nat)
    | Unlisted
    | Revoked
    | Compacting(on: bool)
    | Sorted(prefix: nat)

  /** What an operation tells its caller. */
  datatype Answer<V> = Done | Changed(yes: bool) | Found(val: Option<V>)

  /** What an operation means for the map. */
  function SpecStep<V>(m: map<seq<Byte>, V>, op: Op<V>): map<seq<Byte>, V> {
    match op
    case Put(key, val) => if key in m then m else m[key := val]
    case Remove(key) => m - {key}
    case _ => m
  }

  function SpecAnswer<V>(m: map<seq<Byte>, V>, op: Op<V>): Answer<V> {
    match op
    case Put(key, _) => Changed(key !in m)
    case Remove(key) => Changed(key in m)
    case Lookup(key) => Found(if key in m then Some(m[key]) else None)
    case _ => Done
  }

  function SpecRun<V>(m: map<seq<Byte>, V>, ops: seq<Op<V>>): map<seq<Byte>, V> {
    if ops == [] then m else SpecStep(SpecRun(m, ops[..|ops| - 1]), ops[|ops| - 1])
  }

  class StrMap<V> {
    const hash: seq<Byte> -> nat
    const align: nat
    const loadFactor: nat
    var pool: seq<Byte>
    var offs: seq<nat>
    var link: seq<nat>
    var vals: seq<V>
    var bucket: seq<nat>
    var maxload: nat
    var maxNodes: nat
    var maxpool: nat
    var nDeleted: nat
    var freepool: nat

    /** Heads of the freelists, the last one for long slots; none when freelists are off. */
    var fast: seq<nat>
    var autoCompact: bool

    ghost var pieces: seq<seq<Byte>>
    ghost var bins: seq<seq<nat>>
    ghost var chains: seq<seq<nat>>

    /** The pool is the slots one after another; free slots are counted, but for `hole`. */
    ghost predicate Layout(hole: int)
      reads this
    {
      && 4 <= align <= 128 && pool == Flat(pieces) && Offsets(pieces, offs)
      && |link| == |vals| == |pieces| <= MAX_LINK && Long(pieces, align) && KeysOk(pieces, link, align)
      && Counted(pieces, link, nDeleted, freepool, hole)
    }

    /** Free slots are in the freelist of their length, but for those in `out`. */
    ghost predicate Lists(out: set<nat>)
      reads this
    {
      if fast == [] then bins == [] else BinsOk(fast, bins, pieces, link, align, out)
    }

    ghost function Data(): seq<Cell<seq<Byte>, V>>
      reads this
      requires |link| == |vals| == |pieces| && KeysOk(pieces, link, align)
    {
      Cells(pieces, link, vals)
    }

    ghost predicate Hashed()
      reads this
      requires |link| == |vals| == |pieces| && KeysOk(pieces, link, align)
    {
      && (|bucket| == 1 ==> pieces == [] && maxload == 0 && bucket[0] == TAIL)
      && ChainsOk(hash, bucket, link, Data(), chains) && SlotsOk(hash, link, Data(), chains, {})
      && UniqueKeys(Data(), {})
    }

    ghost predicate Valid()
      reads this
    {
      Layout(-1) && Lists({}) && Hashed() && ListCount(|fast|) && Capacities()
    }

    /** Both arrays hold what they should, below their hard limits. */
    ghost predicate Capacities()
      reads this
    {
      |pieces| <= maxNodes <= MAX_LINK && |pool| <= maxpool <= MAX_POOL * align
    }

    ghost function Model(): map<seq<Byte>, V>
      reads this
      requires Valid()
    {
      Contents(Data(), {})
    }

    /** An empty map, with one bucket that is never used. */
    constructor (hash: seq<Byte> -> nat, align: nat, withFreelist: bool)
      requires 4 <= align <= 128
      ensures Valid() && Model() == map[] && this.hash == hash && this.align == align && pieces == []
      ensures fast == [] && autoCompact == !withFreelist
    {
      this.hash, this.align, loadFactor := hash, align, 158;
      pool, offs, link, vals, pieces := [], [0], [], [], [];
      bucket, chains := [TAIL], [[]];
      maxload, maxNodes, maxpool, nDeleted, freepool := 0, 0, 0, 0, 0;
      fast, bins, autoCompact := [], [], !withFreelist;
      new;
      ContentsEmpty<seq<Byte>, V>();
    }

    // ---- slots of the pool

    /** `key(idx)`. */
    function Key(i: nat): (k: seq<Byte>)
      reads this
      requires i + 1 < |offs| && offs[i] < offs[i + 1] <= |pool| && pool[offs[i + 1] - 1] < offs[i + 1] - offs[i]
    {
      pool[offs[i]..offs[i + 1] - 1 - pool[offs[i + 1] - 1]]
    }

    /** What a slot holds, read from the pool. */
    lemma SlotBytes(i: nat, hole: int)
      requires Layout(hole) && i < |pieces|
      ensures |offs| == |pieces| + 1
      ensures offs[i] + align <= offs[i + 1] <= |pool| && pool[offs[i]..offs[i + 1]] == pieces[i]
      ensures offs[i + 1] - offs[i] == |pieces[i]|
      ensures link[i] != DELMARK ==> pool[offs[i + 1] - 1] < offs[i + 1] - offs[i] && Key(i) == KeyIn(pieces[i])
    {
      hide BinsOk, Counted;
      PieceAt(pieces, i);
      var p := pieces[i];
      assert pool[offs[i]..offs[i + 1]] == p;
      if link[i] != DELMARK {
        assert p[|p| - 1] == pool[offs[i + 1] - 1];
        var n := |p| - 1 - p[|p| - 1];
        assert p[..n] == pool[offs[i]..offs[i] + n];
      }
    }

    /** Overwrites bytes of a slot from its start. */
    method WriteSlot(s: nat, b: seq<Byte>, ghost p: seq<Byte>, ghost hole: int)
      requires Layout(hole) && s < |pieces| && |b| <= |pieces[s]| && p == b + pieces[s][|b|..]
      modifies this`pool, this`pieces
      ensures pool == Flat(pieces) && pieces == old(pieces)[s := p] && Offsets(pieces, offs) && |pool| == |old(pool)|
    {
      hide BinsOk, Counted, Long, KeysOk;
      SlotBytes(s, hole);
      PieceWrite(pieces, s, p);
      forall i | 0 <= i < |offs| ensures offs[i] == Start(pieces[s := p], i) {
        StartSame(pieces, s, p, i);
      }
      var o := offs[s];
      SliceWrite(pool, o, offs[s + 1], b, p, pieces[s]);
      pool := pool[..o] + b + pool[o + |b|..];
      pieces := pieces[s := p];
    }

    /** Reads the link of a free slot. */
    method ReadNext(s: nat, ghost hole: int) returns (next: nat)
      requires Layout(hole) && s < |pieces|
      ensures |pieces[s]| >= 4 && next == NextIn(pieces[s])
    {
      hide Counted, KeysOk;
      SlotBytes(s, hole);
      next := FromLE32(pool[offs[s]..offs[s] + 4]);
      assert pieces[s][..4] == pool[offs[s]..offs[s] + 4];
    }

    /** Writes the link of a free slot. */
    method WriteNext(s: nat, next: nat, ghost hole: int)
      requires Layout(hole) && s < |pieces| && link[s] == DELMARK
      modifies this`pool, this`pieces
      ensures Layout(hole) && |old(pieces)[s]| >= 4 && pieces == old(pieces)[s := WithNext(old(pieces)[s], next)]
      ensures |pool| == |old(pool)|
    {
      hide Counted, KeysOk, Flat, Offsets;
      ghost var before, p := pieces, WithNext(pieces[s], next);
      WriteSlot(s, LE32(next), p, hole);
      RewriteKeeps(before, link, align, nDeleted, freepool, hole, s, p);
    }

    /** `put_to_freelist`. */
    method PutToFreelist(s: nat, ghost out: set<nat>)
      requires Layout(-1) && Lists(out) && fast != [] && s < |link| && link[s] == DELMARK && s in out
      modifies this
      ensures Layout(-1) && Lists(out - {s}) && fast != [] && |fast| == |old(fast)|
      ensures Same(old(link), old(vals), old(offs), old(bucket), old(chains))
      ensures Limits() == old(Limits()) && |pool| == |old(pool)|
      ensures |pieces| == |old(pieces)| && forall i :: 0 <= i < |pieces| && i != s ==> pieces[i] == old(pieces)[i]
    {
      hide Flat, Long, KeysOk, Counted, BinsOk;
      BinsShape(fast, bins, pieces, link, align, out);
      SlotBytes(s, -1);
      var b := BinOf(offs[s + 1] - offs[s], align, |fast|);
      PutFree(fast, bins, pieces, link, align, out, s, b, pieces[s := WithNext(pieces[s], fast[b])]);
      bins := bins[b := [s] + bins[b]];
      WriteNext(s, fast[b], -1);
      fast := fast[b := s];
    }

    /** A free slot of that length is found: any for a short one, among the first five of the
        last list for a long one. */
    ghost predicate HasFit(len: nat)
      reads this
    {
      fast != [] && align > 0 && Fit(bins, pieces, align, len)
    }

    /** `alloc_slot` from the freelists: a free slot of exactly that length, or -1. */
    method TakeFree(len: nat) returns (slot: int)
      requires Layout(-1) && Lists({}) && Whole(len, align)
      modifies this
      ensures Same(old(link), old(vals), old(offs), old(bucket), old(chains)) && Caps() == old(Caps())
        && |pool| == |old(pool)|
      ensures |fast| == |old(fast)|
      ensures slot < 0 ==> unchanged(this)
      ensures slot >= 0 ==> Taken(slot, len, old(pieces))
      ensures slot >= 0 <==> old(HasFit(len))
    {
      hide BinsOk, Flat, Offsets, Counted, KeysOk;
      slot := -1;
      if fast != [] {
        BinsShape(fast, bins, pieces, link, align, {});
        var i := (len - 1) / align;
        UnitIndex(len, align);
        if i < |fast| - 1 {
          HeadEmpty(fast, bins, pieces, link, align, {}, i);
          if fast[i] != TAIL {
            slot := TakeFast(len, i);
          }
        } else {
          slot := TakeHuge(len);
        }
      }
    }

    /** `alloc_in_fastlist`. */
    method TakeFast(len: nat, b: nat) returns (slot: int)
      requires Layout(-1) && Lists({}) && Whole(len, align) && len / align == b + 1 && b < |fast| - 1 && fast[b] != TAIL
      modifies this
      ensures Same(old(link), old(vals), old(offs), old(bucket), old(chains)) && Caps() == old(Caps())
        && |pool| == |old(pool)|
      ensures |fast| == |old(fast)|
      ensures slot >= 0 && Taken(slot, len, old(pieces))
    {
      hide Flat, Offsets, Long, KeysOk, Counted, BinsOk, Whole;
      BinsShape(fast, bins, pieces, link, align, {});
      HeadFits(fast, bins, pieces, link, align, {}, b);
      var s := fast[b];
      assert s in bins[b];
      InBin(fast, bins, pieces, link, align, {}, b, s);
      BinLength(|pieces[s]|, len, align, b, |bins|);
      var next := ReadNext(s, -1);
      StrBins.TakeFree(fast, bins, pieces, link, align, {}, b, 0, fast[b := next], pieces);
      TakenCounts(pieces, link, nDeleted, freepool, s);
      fast, bins := fast[b := next], bins[b := Without(bins[b], 0)];
      freepool, nDeleted := freepool - len, nDeleted - 1;
      slot := s;
      assert {} + {s} == {s};
    }

    /** `alloc_in_hugelist`: looks at no more than five slots. */
    method TakeHuge(len: nat) returns (slot: int)
      requires Layout(-1) && Lists({}) && Whole(len, align) && fast != []
      modifies this
      ensures Same(old(link), old(vals), old(offs), old(bucket), old(chains)) && Caps() == old(Caps())
        && |pool| == |old(pool)|
      ensures |fast| == |old(fast)|
      ensures slot < 0 ==> unchanged(this)
      ensures slot >= 0 ==> Taken(slot, len, old(pieces))
      ensures |old(bins)| == |old(fast)| && (slot >= 0 <==> FitsAmong(old(bins)[|old(bins)| - 1], old(pieces), len))
    {
      hide Flat, Long, KeysOk, Counted, BinsOk, Whole;
      BinsShape(fast, bins, pieces, link, align, {});
      var b := |fast| - 1;
      ghost var c := bins[b];
      HeadFits(fast, bins, pieces, link, align, {}, b);
      var prev: int, curr, num := -1, fast[b], 0;
      ghost var j := 0;
      slot := -1;
      while curr != TAIL && num < 5
        invariant j <= |c| && curr == (if j < |c| then c[j] else TAIL) && prev == (if j == 0 then -1 else c[j - 1])
        invariant Layout(-1) && Lists({}) && pieces == old(pieces) && fast == old(fast) && bins == old(bins)
        invariant Same(old(link), old(vals), old(offs), old(bucket), old(chains)) && Limits() == old(Limits())
        invariant unchanged(this) && num == j
        invariant forall m :: 0 <= m < j ==> c[m] < |pieces| && |pieces[c[m]]| != len
        decreases 5 - num
      {
        assert curr in c;
        InBin(fast, bins, pieces, link, align, {}, b, curr);
        SlotBytes(curr, -1);
        var next := ReadNext(curr, -1);
        if offs[curr + 1] - offs[curr] == len {
          assert c[j] == curr && |pieces[curr]| == len;
          assert FitsAmong(c, pieces, len);
          UnlinkHuge(b, j, prev, curr, next, len);
          slot := curr;
          return;
        }
        BinLink(fast, bins, pieces, link, align, {}, b, j);
        prev, curr, num, j := curr, next, num + 1, j + 1;
      }
      if curr == TAIL && j < |c| {
        assert c[j] in c;
        InBin(fast, bins, pieces, link, align, {}, b, c[j]);
      }
    }

    method UnlinkHuge(b: nat, ghost j: nat, prev: int, curr: nat, next: nat, len: nat)
      requires Layout(-1) && Lists({}) && fast != [] && b < |fast| && |fast| == |bins| && j < |bins[b]|
        && curr == bins[b][j]
      requires prev == (if j == 0 then -1 else bins[b][j - 1])
      requires curr < |pieces| && |pieces[curr]| == len >= 4 && next == NextIn(pieces[curr])
      modifies this
      ensures Same(old(link), old(vals), old(offs), old(bucket), old(chains)) && Caps() == old(Caps())
        && |pool| == |old(pool)|
      ensures |fast| == |old(fast)|
      ensures Taken(curr, len, old(pieces))
    {
      hide Flat, Offsets, Long, KeysOk, Counted, BinsOk;
      ghost var c, before := bins[b], pieces;
      assert c[j] in c && (j > 0 ==> c[j - 1] in c);
      BinsShape(fast, bins, pieces, link, align, {});
      InBin(fast, bins, pieces, link, align, {}, b, curr);
      if j > 0 {
        InBin(fast, bins, pieces, link, align, {}, b, c[j - 1]);
      }
      ghost var pieces' := if j == 0 then pieces else pieces[c[j - 1] := WithNext(pieces[c[j - 1]], next)];
      StrBins.TakeFree(fast, bins, pieces, link, align, {}, b, j, if j == 0 then fast[b := next] else fast, pieces');
      if prev < 0 {
        fast := fast[b := next];
      } else {
        WriteNext(prev, next, -1);
      }
      bins := bins[b := Without(c, j)];
      assert {} + {curr} == {curr};
      Uncount(curr, len);
    }

    /** A free slot that is about to be used leaves the counters. */
    method Uncount(curr: nat, len: nat)
      requires Layout(-1) && curr < |link| && link[curr] == DELMARK && |pieces[curr]| == len
      modifies this`freepool, this`nDeleted
      ensures Layout(curr)
    {
      hide Flat, Offsets, Long, KeysOk, Counted;
      TakenCounts(pieces, link, nDeleted, freepool, curr);
      freepool, nDeleted := freepool - len, nDeleted - 1;
    }

    /** A free slot has been taken out of its list and out of the counters. */
    ghost predicate Taken(slot: int, len: nat, pieces0: seq<seq<Byte>>)
      reads this
    {
      && 0 <= slot && Layout(slot) && Lists({slot}) && slot < |pieces| == |pieces0| && link[slot] == DELMARK
      && |pieces[slot]| == len
      && forall i :: 0 <= i < |pieces| && link[i] != DELMARK ==> pieces[i] == pieces0[i]
    }

    /** No freelists and no compaction: slots keep their places. */
    ghost predicate Still()
      reads this
    {
      fast == [] && !autoCompact
    }

    ghost function Caps(): (nat, nat, nat, bool)
      reads this
    {
      (maxload, maxNodes, maxpool, autoCompact)
    }

    /** The fields that freelist work does not touch. */
    ghost predicate Same(link0: seq<nat>, vals0: seq<V>, offs0: seq<nat>, bucket0: seq<nat>, chains0: seq<seq<nat>>)
      reads this
    {
      link == link0 && vals == vals0 && offs == offs0 && bucket == bucket0 && chains == chains0
    }

    ghost function Limits(): (nat, nat, nat, bool, nat, nat)
      reads this
    {
      (maxload, maxNodes, maxpool, autoCompact, nDeleted, freepool)
    }

    lemma LayoutFacts(hole: int)
      requires Layout(hole)
      ensures 4 <= align <= 128 && |pieces| == |link| == |vals| <= MAX_LINK && |offs| == |link| + 1
      ensures Long(pieces, align) && KeysOk(pieces, link, align) && Counted(pieces, link, nDeleted, freepool, hole)
      ensures pool == Flat(pieces) && Offsets(pieces, offs)
    {
    }

    // ---- chains

    /** Changes the link of a live slot. */
    method SetLink(s: nat, l: nat)
      requires Layout(-1) && Lists({}) && s < |link| && link[s] != DELMARK && l != DELMARK
      modifies this`link
      ensures link == old(link)[s := l] && Layout(-1) && Lists({}) && Data() == old(Data())
    {
      hide Flat, Offsets, Long, Counted, BinsOk;
      LiveLink(pieces, link, nDeleted, freepool, s, l, align);
      if fast != [] {
        BinsShape(fast, bins, pieces, link, align, {});
        RelinkLive(fast, bins, pieces, link, align, link[s := l]);
      }
      ghost var data := Data();
      link := link[s := l];
      assert Data() == data;
    }

    /** `relink`: every chain anew, from the live slots. */
    method Relink()
      requires Layout(-1) && Lists({}) && |bucket| >= 1 && (|bucket| == 1 ==> pieces == [] && bucket[0] == TAIL)
      modifies this`bucket, this`link, this`chains
      ensures Layout(-1) && Lists({}) && |bucket| == |old(bucket)| && Data() == old(Data())
      ensures ChainsOk(hash, bucket, link, Data(), chains) && SlotsOk(hash, link, Data(), chains, {})
    {
      hide RelinkedTo, ChainsOk, SlotsOk, Flat, Offsets, Long, Counted, BinsOk, KeysOk;
      ghost var data, link0 := Data(), link;
      bucket, chains := seq(|bucket|, _ => TAIL), seq(|bucket|, _ => []);
      RelinkStart(hash, bucket, link, data, chains);
      var j := 0;
      while j < |link|
        invariant 0 <= j <= |link| == |data| && Layout(-1) && Lists({}) && Data() == data
        invariant |bucket| == |chains| == |old(bucket)|
        invariant RelinkedTo(hash, bucket, link, data, chains, link0, j)
      {
        RelinkNext(hash, bucket, link, data, chains, link0, j);
        if link[j] != DELMARK {
          SlotBytes(j, -1);
          var i := Home(hash, Key(j), |bucket|);
          RelinkStep(hash, bucket, link, data, chains, link0, j);
          HeadNotMark(hash, bucket, link, data, chains, link0, j, i);
          SetLink(j, bucket[i]);
          bucket, chains := bucket[i := j], chains[i := [j] + chains[i]];
        }
        j := j + 1;
      }
      RelinkedAll(hash, bucket, link, data, chains, link0);
    }

    /** `rehash`: to the prime number of buckets for `newSize`. */
    method Rehash(newSize: nat) returns (nb: nat)
      requires Valid()
      modifies this`bucket, this`link, this`chains, this`maxload
      ensures Valid() && nb == |bucket| == NextPrime(newSize) && |bucket| > 1 && Data() == old(Data())
    {
      hide ChainsOk, SlotsOk, Flat, Offsets, Long, Counted, BinsOk, KeysOk, UniqueKeys;
      nb := NextPrime(newSize);
      if nb != |bucket| {
        bucket := seq(nb, _ => TAIL);
        Relink();
        maxload := if nb * loadFactor / 256 < MAX_LINK then nb * loadFactor / 256 else MAX_LINK;
      }
    }

    /** `find_i`: the slot of the key, or the number of slots. */
    method Find(key: seq<Byte>) returns (idx: nat)
      requires Valid()
      ensures idx <= |link|
      ensures idx < |link| ==> Data()[idx].Elem? && Data()[idx].key == key && key in Model()
      ensures idx == |link| ==> key !in Model()
    {
      hide Flat, Offsets, Long, Counted, BinsOk, ChainsOk, SlotsOk, KeysOk, UniqueKeys, Contents;
      ghost var data := Data();
      ChainsShape(hash, bucket, link, data, chains);
      var i := Home(hash, key, |bucket|);
      ghost var c := chains[i];
      ChainStart(hash, bucket, link, data, chains, i);
      ghost var j := 0;
      var p := bucket[i];
      while p != TAIL
        invariant 0 <= j <= |c| && p == (if j < |c| then c[j] else TAIL)
        invariant forall m :: 0 <= m < j ==> c[m] < |data| && data[c[m]].Elem? && data[c[m]].key != key
        decreases |c| - j
      {
        ChainWalk(hash, bucket, link, data, chains, i, j);
        SlotBytes(p, -1);
        if Key(p) == key {
          FoundKey(data, p, key);
          return p;
        }
        p := link[p];
        j := j + 1;
      }
      if j < |c| {
        ChainWalk(hash, bucket, link, data, chains, i, j);
      }
      AbsentKey(hash, link, data, chains, i, key);
      return |link|;
    }

    /** The value of the key, if it is there. */
    method ValueOf(key: seq<Byte>) returns (val: Option<V>)
      requires Valid()
      ensures val == if key in Model() then Some(Model()[key]) else None
    {
      hide Flat, Offsets, Long, Counted, BinsOk, ChainsOk, SlotsOk, KeysOk, UniqueKeys, Contents;
      var idx := Find(key);
      val := None;
      if idx < |link| {
        assert Visible(Data(), {}, idx);
        val := Some(vals[idx]);
      }
    }

    // ---- insertion

    /** A taken slot receives its key and value and goes to the head of chain `i`. */
    method FillTaken(slot: nat, key: seq<Byte>, val: V, i: nat)
      requires align > 0 && Taken(slot, RealLen(|key|, align), pieces) && Hashed() && key !in Contents(Data(), {})
      requires i < |bucket| && |bucket| == |chains| > 1 && i == Home(hash, key, |bucket|)
      requires ListCount(|fast|) && Capacities()
      modifies this
      ensures Valid() && Model() == Contents(old(Data()), {})[key := val] && |bucket| == |old(bucket)|
      ensures Caps() == old(Caps()) && |pieces| == |old(pieces)|
    {
      hide Flat, Offsets, Long, Counted, BinsOk, KeysOk, ChainsOk, SlotsOk, UniqueKeys, Contents, Cells;
      assert Data()[slot].FreeLink?;
      FilledTable(hash, bucket, link, Data(), chains, slot, key, val, i);
      StoreKey(slot, key, val, bucket[i]);
      bucket, chains := bucket[i := slot], chains[i := [slot] + chains[i]];
    }

    /** Writes key and value into a taken slot and links it to `l`. */
    method StoreKey(slot: nat, key: seq<Byte>, val: V, l: nat)
      requires align > 0 && Taken(slot, RealLen(|key|, align), pieces) && l != DELMARK
      modifies this`pool, this`pieces, this`link, this`vals
      ensures Layout(-1) && Lists({}) && link == old(link)[slot := l] && |pieces| == |old(pieces)|
        && |pool| == |old(pool)|
      ensures Data() == old(Data())[slot := Elem(key, val)]
    {
      hide Flat, Offsets, Long, Counted, BinsOk, KeysOk, Cells, Stored, HasKey, KeyIn;
      ghost var pieces0, p := pieces, Stored(key, align);
      StoredKey(key, align);
      assert pieces[slot][|p|..] == [] && p + [] == p;
      WriteSlot(slot, Stored(key, align), p, slot);
      FilledCounts(pieces0, link, nDeleted, freepool, align, slot, p, l);
      if fast != [] {
        FillSlot(fast, bins, pieces0, link, align, {slot}, slot, p, l);
      }
      assert {slot} - {slot} == {};
      FilledCells(pieces0, link, vals, slot, p, l, val, align);
      link, vals := link[slot := l], vals[slot := val];
    }

    /** A new slot at the end of the pool. */
    method NewSlot(key: seq<Byte>, val: V, i: nat)
      requires Valid() && key !in Model() && |pieces| < MAX_LINK && |pieces| < maxNodes
      requires |pool| + RealLen(|key|, align) <= maxpool
      requires i < |bucket| && |bucket| == |chains| > 1 && i == Home(hash, key, |bucket|)
      modifies this
      ensures Valid() && Model() == old(Model())[key := val] && |bucket| == |old(bucket)|
      ensures Caps() == old(Caps()) && |pieces| == |old(pieces)| + 1
      ensures fast == old(fast) && Data() == old(Data()) + [Elem(key, val)]
        && |pool| == |old(pool)| + RealLen(|key|, align)
    {
      hide Flat, Long, Counted, BinsOk, KeysOk, Offsets, ChainsOk, SlotsOk, UniqueKeys, Contents, Cells;
      ghost var data0 := Data();
      AppendedTable(hash, bucket, link, data0, chains, key, val, i);
      AppendSlot(key, val, bucket[i]);
      bucket, chains := bucket[i := |link| - 1], chains[i := [|link| - 1] + chains[i]];
    }

    /** Appends a slot that holds `key`, linked to `l`. */
    method AppendSlot(key: seq<Byte>, val: V, l: nat)
      requires Layout(-1) && Lists({}) && |pieces| < MAX_LINK && l != DELMARK
      modifies this`pool, this`offs, this`pieces, this`link, this`vals
      ensures Layout(-1) && Lists({}) && link == old(link) + [l] && |pieces| == |old(pieces)| + 1
      ensures |pool| == |old(pool)| + RealLen(|key|, align)
      ensures Data() == old(Data()) + [Elem(key, val)]
    {
      hide Flat, Long, Counted, BinsOk, KeysOk, Cells, Stored, HasKey, KeyIn, Offsets;
      ghost var p := Stored(key, align);
      StoredKey(key, align);
      RealWhole(|key|, align);
      PieceAppend(pieces, offs, p);
      AppendedCounts(pieces, link, nDeleted, freepool, align, p, l);
      if fast != [] {
        BinsShape(fast, bins, pieces, link, align, {});
        AppendLive(fast, bins, pieces, link, align, p, l);
      }
      AppendedCells(pieces, link, vals, p, l, val, align);
      var stored := Stored(key, align);
      pool, offs, pieces := pool + stored, offs + [|pool| + |stored|], pieces + [p];
      link, vals := link + [l], vals + [val];
    }

    /** A full node array can grow. */
    ghost predicate NodesFit()
      reads this
    {
      |link| < maxNodes || |link| + 1 <= GROW_LIMIT
    }

    /** Growing the node array compacts first, if that is on. */
    ghost predicate Squeezes()
      reads this
    {
      |link| == maxNodes && fast == [] && autoCompact
    }

    /** The lengths of pool and free slots after that. */
    ghost function PoolThen(): int
      reads this
    {
      if Squeezes() then |pool| - freepool else |pool|
    }

    ghost function FreeThen(): nat
      reads this
    {
      if Squeezes() then 0 else freepool
    }

    /** The pool takes `len` more bytes: below its limit, or by a compaction that is made. */
    ghost predicate PoolFits(len: nat)
      reads this
    {
      || PoolThen() + len <= MAX_POOL * align
      || (autoCompact && fast == [] && FreeThen() >= len && FreeThen() >= maxpool / 2)
    }

    /** What the source does with an absent key. */
    ghost function FateOfAbsent(len: nat): Fate
      reads this
    {
      if HasFit(len) then Added
      else if !NodesFit() then Refused
      else if PoolFits(len) then Added
      else if autoCompact && PoolThen() - FreeThen() + len > MAX_POOL * align then Refused
      else Overrun
    }

    ghost function FateOf(key: seq<Byte>): Fate
      reads this
      requires Valid()
    {
      if key in Model() then Present else FateOfAbsent(RealLen(|key|, align))
    }

    /** `lazy_insert_with_hash_i`: a key that is there stays as it is. */
    method Insert(key: seq<Byte>, val: V) returns (fate: Fate)
      requires Valid()
      modifies this
      ensures Valid() && fate == old(FateOf(key)) && (!fate.Added? ==> FateOf(key) == fate)
        && |pieces| <= |old(pieces)| + 1
      ensures Model() == if fate.Added? then old(Model())[key := val] else old(Model())
      ensures old(Still()) ==> Still()
      ensures old(Still()) && fate.Added? ==>
          Data() == old(Data()) + [Elem(key, val)] && |pool| == |old(pool)| + RealLen(|key|, align)
    {
      hide Layout, Lists, Hashed, UniqueKeys, Contents, Cells, KeysOk;
      var idx := Find(key);
      if idx < |link| {
        return Present;
      }
      Prepare();
      fate := InsertAbsent(key, val);
    }

    /** Rehashes when the load limit is reached. */
    method Prepare()
      requires Valid()
      modifies this`bucket, this`link, this`chains, this`maxload
      ensures Valid() && |bucket| > 1 && Model() == old(Model()) && Data() == old(Data()) && |link| == |old(link)|
    {
      hide Flat, Offsets, Long, Counted, BinsOk, KeysOk, ChainsOk, SlotsOk, UniqueKeys, Contents, Cells;
      ChainsShape(hash, bucket, link, Data(), chains);
      if |link| >= maxload {
        var nb := Rehash(|bucket| + 1);
      }
    }

    method InsertAbsent(key: seq<Byte>, val: V) returns (fate: Fate)
      requires Valid() && |bucket| > 1 && key !in Model()
      modifies this
      ensures Valid() && |pieces| <= |old(pieces)| + 1 && fate == old(FateOfAbsent(RealLen(|key|, align)))
      ensures !fate.Added? ==> FateOfAbsent(RealLen(|key|, align)) == fate
      ensures Model() == if fate.Added? then old(Model())[key := val] else old(Model())
      ensures old(Still()) ==> Still()
      ensures old(Still()) && fate.Added? ==>
          Data() == old(Data()) + [Elem(key, val)] && |pool| == |old(pool)| + RealLen(|key|, align)
    {
      hide Flat, Offsets, Long, Counted, BinsOk, KeysOk, ChainsOk, SlotsOk, UniqueKeys, Contents, Cells, Fit;
      ghost var pieces0 := pieces;
      ChainsShape(hash, bucket, link, Data(), chains);
      var i := Home(hash, key, |bucket|);
      var len := RealLen(|key|, align);
      RealWhole(|key|, align);
      var slot := TakeFree(len);
      if slot >= 0 {
        LiveSame(pieces0, pieces, link, vals, align);
        FillTaken(slot, key, val, i);
        fate := Added;
      } else {
        assert |pool| == |Flat(pieces)|;
        fate := MakeRoom(len);
        if fate.Added? {
          ChainsShape(hash, bucket, link, Data(), chains);
          NewSlot(key, val, i);
        }
      }
    }

    /** Room for one more node and `len` more bytes; may compact when freelists are off. */
    method MakeRoom(len: nat) returns (fate: Fate)
      requires Valid() && |bucket| > 1 && Whole(len, align) && !HasFit(len)
      modifies this
      ensures Valid() && Model() == old(Model()) && |pieces| <= |old(pieces)| && |bucket| == |old(bucket)|
      ensures fate == old(FateOfAbsent(len)) && (fate.Added? ==> |pieces| < maxNodes && |pool| + len <= maxpool)
      ensures !fate.Added? ==> FateOfAbsent(len) == fate
      ensures old(Still()) ==> Still() && Data() == old(Data()) && |pool| == |old(pool)|
    {
      hide Layout, Lists, Hashed, KeysOk, Contents, Cells, Fit;
      var ok := NodeRoom();
      if !ok {
        return Refused;
      }
      LayoutFacts(-1);
      fate := PoolRoom(len);
    }

    /** `reserve_nodes` when the node array is full. */
    method NodeRoom() returns (ok: bool)
      requires Valid() && |bucket| > 1
      modifies this
      ensures Valid() && Model() == old(Model()) && |pieces| <= |old(pieces)| && |bucket| == |old(bucket)|
      ensures ok == old(NodesFit()) && (ok ==> |pieces| < maxNodes) && (!ok ==> unchanged(this))
      ensures ok ==> |pool| == old(PoolThen()) && freepool == old(FreeThen()) && !Squeezes()
      ensures maxpool == old(maxpool) && fast == old(fast) && autoCompact == old(autoCompact)
      ensures fast != [] ==> bins == old(bins) && pieces == old(pieces)
      ensures old(Still()) ==> Still() && Data() == old(Data()) && |pool| == |old(pool)|
    {
      hide Flat, Offsets, Long, Counted, BinsOk, KeysOk, ChainsOk, SlotsOk, UniqueKeys, Contents, Cells;
      ok := true;
      if |link| == maxNodes {
        if |link| >= MAX_LINK {
          return false;
        }
        NodeCapFits(|link|);
        var cap := NodeCap(|link|);
        if cap < |link| {
          return false;
        }
        if fast == [] && autoCompact {
          RevokeDeleted();
        }
        maxNodes := AtMost(cap, MAX_LINK);
      }
    }

    /** `gc_on_strpool_is_full`, or `reserve_strpool` when compaction is off. */
    method PoolRoom(len: nat) returns (fate: Fate)
      requires Valid() && |bucket| > 1 && |pieces| < maxNodes && Whole(len, align)
      modifies this
      ensures Valid() && Model() == old(Model()) && |pieces| <= |old(pieces)| && |bucket| == |old(bucket)|
        && |pieces| < maxNodes
      ensures fate.Added? <==> old(PoolFits(len))
      ensures fate.Added? ==> |pool| + len <= maxpool
      ensures !fate.Added? ==>
          unchanged(this) && fate == if old(autoCompact && |pool| - freepool + len > MAX_POOL * align)
              then Refused else Overrun
      ensures old(Still()) ==> Still() && Data() == old(Data()) && |pool| == |old(pool)|
    {
      hide Flat, Offsets, Long, Counted, BinsOk, KeysOk, ChainsOk, SlotsOk, UniqueKeys, Contents, Cells;
      fate := Added;
      if len > maxpool - |pool| {
        if !autoCompact {
          if |pool| + len > MAX_POOL * align {
            return Overrun;
          }
          maxpool := |pool| + len;
        } else if |pool| - freepool + len > MAX_POOL * align {
          return Refused;
        } else if fast == [] && freepool >= len && freepool >= maxpool / 2 {
          RevokeDeleted();
        } else {
          var wanted := Wanted(|pool| + len);
          var newmax := if wanted < MAX_POOL * align then wanted else MAX_POOL * align;
          NewMaxFits(pieces, len, align, newmax);
          if |pool| + len > newmax {
            return Overrun;
          }
          maxpool := newmax / align * align;
        }
      }
    }

    // ---- erasure

    /** `erase(key)`. */
    method Erase(key: seq<Byte>) returns (erased: bool)
      requires Valid()
      modifies this
      ensures Valid() && (erased <==> key in old(Model())) && Model() == old(Model()) - {key}
        && |pieces| <= |old(pieces)|
      ensures old(Still()) && erased ==> Still() && FreedSlot(old(Data()), Data(), key)
    {
      hide Layout, Lists, Hashed, UniqueKeys, Contents, Cells, KeysOk;
      var idx := Find(key);
      erased := idx < |link|;
      if erased {
        LayoutFacts(-1);
        ghost var data0 := Data();
        EraseSlot(idx, key);
        LayoutFacts(-1);
        if old(Still()) {
          Freed(data0, Data(), key, idx);
        }
      }
    }

    method EraseSlot(idx: nat, ghost key: seq<Byte>)
      requires Valid() && idx < |link| && Data()[idx].Elem? && Data()[idx].key == key
      modifies this
      ensures Valid() && Model() == old(Model()) - {key} && |pieces| <= |old(pieces)|
      ensures old(Still()) ==> Still() && Data() == old(Data())[idx := FreeLink(0)]
    {
      hide Flat, Offsets, Long, Counted, BinsOk, KeysOk, ChainsOk, SlotsOk, UniqueKeys, Contents, Cells;
      ghost var model := Model();
      Unlink(idx, key);
      if fast != [] {
        ghost var pieces0 := pieces;
        PutToFreelist(idx, {idx});
        assert {idx} - {idx} == {};
        LiveSame(pieces0, pieces, link, vals, align);
      } else if autoCompact && nDeleted >= |link| / 2 {
        RevokeDeleted();
      }
    }

    /** `risk_unlink`, and the marking and counting of `risk_slot_free`. */
    method Unlink(idx: nat, ghost key: seq<Byte>)
      requires Valid() && idx < |link| && Data()[idx].Elem? && Data()[idx].key == key
      modifies this
      ensures Layout(-1) && Lists({idx}) && Hashed() && |pieces| == |old(pieces)| && Capacities()
      ensures Contents(Data(), {}) == old(Model()) - {key} && link[idx] == DELMARK && idx < |link| && fast == old(fast)
      ensures Data() == old(Data())[idx := FreeLink(0)] && autoCompact == old(autoCompact)
    {
      hide Flat, Offsets, Long, Counted, BinsOk, KeysOk, ChainsOk, SlotsOk, UniqueKeys, Contents, Cells, Layout, Lists;
      LayoutFacts(-1);
      ghost var data := Data();
      assert link[idx] != DELMARK;
      SlotBytes(idx, -1);
      ChainsShape(hash, bucket, link, data, chains);
      var b := Home(hash, Key(idx), |bucket|);
      var prev, j := FindInChain(b, idx);
      ErasedTable(hash, bucket, link, data, chains, b, j, idx);
      MarkFree(b, prev, idx, j);
    }

    /** Where slot `idx` stands in chain `b`, and the slot before it. */
    method FindInChain(b: nat, idx: nat) returns (prev: nat, ghost j: nat)
      requires Valid() && idx < |link| && Data()[idx].Elem? && b < |bucket| && |bucket| == |chains|
      requires b == Home(hash, Data()[idx].key, |chains|)
      ensures j < |chains[b]| && chains[b][j] == idx && prev == if j == 0 then TAIL else chains[b][j - 1]
    {
      hide Flat, Offsets, Long, Counted, BinsOk, KeysOk, ChainsOk, SlotsOk, UniqueKeys, Contents, Cells;
      ghost var data, c := Data(), chains[b];
      InChain(hash, link, data, chains, idx);
      ChainStart(hash, bucket, link, data, chains, b);
      var curr := bucket[b];
      prev, j := TAIL, 0;
      while curr != idx
        invariant j < |c| && curr == c[j] && idx in c[j..] && prev == if j == 0 then TAIL else c[j - 1]
        decreases |c| - j
      {
        assert c[j..] == [c[j]] + c[j + 1..];
        ChainWalk(hash, bucket, link, data, chains, b, j);
        prev, curr, j := curr, link[curr], j + 1;
      }
    }

    /** Takes the slot out of its chain, marks it, and counts it. */
    method MarkFree(b: nat, prev: nat, idx: nat, ghost j: nat)
      requires Layout(-1) && Lists({}) && b < |bucket| == |chains| && j < |chains[b]| && idx == chains[b][j] < |link|
      requires link[idx] != DELMARK && prev == (if j == 0 then TAIL else chains[b][j - 1])
      requires j > 0 ==> prev < |link|
      requires prev < |link| ==> prev != idx && link[prev] != DELMARK
      modifies this
      ensures Layout(-1) && Lists({idx}) && pieces == old(pieces) && pool == old(pool) && fast == old(fast)
        && Caps() == old(Caps())
      ensures chains == old(chains)[b := Without(old(chains)[b], j)]
      ensures bucket == if j == 0 then old(bucket)[b := old(link)[idx]] else old(bucket)
      ensures link == (if j == 0 then old(link) else old(link)[prev := old(link)[idx]])[idx := DELMARK]
      ensures Data() == old(Data())[idx := FreeLink(0)]
    {
      hide Flat, Offsets, Long, Counted, BinsOk, KeysOk, Cells;
      ghost var link1 := if j == 0 then link else link[prev := link[idx]];
      if prev == TAIL {
        bucket := bucket[b := link[idx]];
      } else {
        SetLink(prev, link[idx]);
      }
      assert link == link1;
      chains := chains[b := Without(chains[b], j)];
      Mark(idx);
    }

    /** The marking and counting of `risk_slot_free`. */
    method Mark(idx: nat)
      requires Layout(-1) && Lists({}) && idx < |link| && link[idx] != DELMARK
      modifies this`link, this`freepool, this`nDeleted
      ensures Layout(-1) && Lists({idx}) && link == old(link)[idx := DELMARK]
      ensures Data() == old(Data())[idx := FreeLink(0)]
    {
      hide Flat, Offsets, Long, Counted, BinsOk, KeysOk, Cells;
      SlotBytes(idx, -1);
      MarkedLayout(pieces, link, vals, nDeleted, freepool, idx, align);
      if fast != [] {
        BinsShape(fast, bins, pieces, link, align, {});
        FillSlot(fast, bins, pieces, link, align, {}, idx, pieces[idx], DELMARK);
        assert pieces[idx := pieces[idx]] == pieces && {} + {idx} == {idx};
      }
      link := link[idx := DELMARK];
      freepool, nDeleted := freepool + (offs[idx + 1] - offs[idx]), nDeleted + 1;
    }

    // ---- switching freelists

    /** `disable_freelist`. */
    method DisableFreelist()
      requires Valid()
      modifies this
      ensures Valid() && Model() == old(Model()) && Data() == old(Data()) && fast == [] && pieces == old(pieces)
        && pool == old(pool)
      ensures Same(old(link), old(vals), old(offs), old(bucket), old(chains)) && Limits() == old(Limits())
    {
      hide Flat, Offsets, Long, Counted, BinsOk, KeysOk, ChainsOk, SlotsOk, UniqueKeys, Contents, Cells;
      fast, bins := [], [];
    }

    /** `enable_freelist`: lists for slots of up to `maxKeyLen` bytes, and one for the rest. Without
        lists and without free slots it looks at nothing else. */
    method EnableFreelist(maxKeyLen: nat)
      requires 0 < maxKeyLen < 32 * 1024 && 0 < align && (Valid() || (fast == [] && nDeleted == 0))
      modifies this
      ensures |fast| == (maxKeyLen + align - 1) / align + 1
      ensures old(Valid()) ==>
          Valid() && Model() == old(Model()) && |pieces| == |old(pieces)| && Data() == old(Data())
            && nDeleted == old(nDeleted)
      ensures !old(Valid()) ==>
          link == old(link) && nDeleted == 0 && vals == old(vals) && bucket == old(bucket) && pieces == old(pieces)
    {
      hide Flat, Offsets, Long, Counted, BinsOk, KeysOk, ChainsOk, SlotsOk, UniqueKeys, Contents, Cells;
      var newLen := (maxKeyLen + align - 1) / align;
      ListsFit(maxKeyLen, align);
      ghost var pieces0 := pieces;
      if fast == [] {
        EnableNew(newLen);
      } else if newLen < |fast| - 1 {
        JoinLists(newLen);
      } else if newLen > |fast| - 1 {
        SpreadLists(newLen);
      }
      if old(Valid()) {
        LiveSame(pieces0, pieces, link, vals, align);
      }
    }

    /** The state but for the freelists is as it was; so are the live slots. */
    ghost predicate OnlyLists(link0: seq<nat>, vals0: seq<V>, bucket0: seq<nat>, chains0: seq<seq<nat>>,
                              pieces0: seq<seq<Byte>>, pool0: seq<Byte>, limits0: (nat, nat, nat, bool, nat, nat))
      reads this
    {
      && link == link0 && vals == vals0 && bucket == bucket0 && chains == chains0 && Limits() == limits0
      && |pool| == |pool0|
      && |pieces| == |pieces0| == |link| && forall i :: 0 <= i < |pieces| && link[i] != DELMARK ==>
          pieces[i] == pieces0[i]
    }

    method EnableNew(newLen: nat)
      requires fast == [] && (nDeleted == 0 || (Layout(-1) && Lists({})))
      modifies this
      ensures |fast| == newLen + 1
      ensures old(Layout(-1) && Lists({})) ==> Layout(-1) && Lists({})
      ensures old(Layout(-1) && Lists({})) ==>
          OnlyLists(old(link), old(vals), old(bucket), old(chains), old(pieces), old(pool), old(Limits()))
      ensures old(nDeleted) == 0 ==>
          nDeleted == 0 && link == old(link) && vals == old(vals) && bucket == old(bucket) && pieces == old(pieces)
    {
      hide Flat, Offsets, Long, Counted, BinsOk, KeysOk;
      fast, bins := seq(newLen + 1, _ => TAIL), seq(newLen + 1, _ => []);
      if nDeleted > 0 {
        ListFree(newLen);
      } else if old(Layout(-1) && Lists({})) {
        NoneMarked(pieces, link, nDeleted, freepool);
        NoBins(newLen + 1, pieces, link, align, fast, bins, {});
      }
    }

    /** Every free slot goes to the list of its length. */
    method ListFree(newLen: nat)
      requires Layout(-1) && EmptyLists() && |fast| == newLen + 1
      modifies this
      ensures Layout(-1) && Lists({}) && |fast| == newLen + 1
      ensures OnlyLists(old(link), old(vals), old(bucket), old(chains), old(pieces), old(pool), old(Limits()))
    {
      hide Flat, Offsets, Long, Counted, BinsOk, KeysOk;
      ghost var out: set<nat> := set s | s in Range(|link|) && link[s] == DELMARK;
      NoBins(newLen + 1, pieces, link, align, fast, bins, out);
      var i := 0;
      while i < |link|
        invariant 0 <= i <= |link| && Layout(-1) && Lists(out) && |fast| == newLen + 1
        invariant forall s :: s in out <==> i <= s < |link| && link[s] == DELMARK
        invariant OnlyLists(old(link), old(vals), old(bucket), old(chains), old(pieces), old(pool), old(Limits()))
      {
        if link[i] == DELMARK {
          PutToFreelist(i, out);
          out := out - {i};
        }
        i := i + 1;
      }
      assert out == {};
    }

    /** Joins the lists from `newLen` on to the last one. */
    method JoinLists(newLen: nat)
      requires Layout(-1) && Lists({}) && newLen < |fast| - 1
      modifies this
      ensures Layout(-1) && Lists({}) && |fast| == newLen + 1
      ensures OnlyLists(old(link), old(vals), old(bucket), old(chains), old(pieces), old(pool), old(Limits()))
    {
      hide Flat, Offsets, Long, Counted, BinsOk, KeysOk, Joining;
      BinsShape(fast, bins, pieces, link, align, {});
      var f: seq<nat> := fast;
      ghost var g: seq<seq<nat>> := bins;
      JoinStart(f, g, pieces, link, align, newLen);
      var m, i := |fast| - 1, newLen;
      while i < m
        invariant newLen <= i <= m == |f| - 1 == |g| - 1 && Layout(-1) && Joining(f, g, pieces, link, align, newLen, i)
        invariant OnlyLists(old(link), old(vals), old(bucket), old(chains), old(pieces), old(pool), old(Limits()))
      {
        JoinHead(f, g, pieces, link, align, newLen, i);
        if f[i] == TAIL {
          JoinSkip(f, g, pieces, link, align, newLen, i);
        } else {
          var last := LastOf(f, g, i, newLen);
          ghost var before := pieces;
          WriteNext(last, f[m], -1);
          JoinList(f, g, before, link, align, newLen, i, last, f[i := TAIL][m := f[i]], g[i := []][m := g[i] + g[m]],
              pieces);
          g := g[i := []][m := g[i] + g[m]];
          f := f[i := TAIL][m := f[i]];
        }
        i := i + 1;
      }
      JoinDone(f, g, pieces, link, align, newLen, f[..newLen] + [f[m]], g[..newLen] + [g[m]]);
      fast, bins := f[..newLen] + [f[m]], g[..newLen] + [g[m]];
    }

    /** The last slot of a list that is not empty. */
    method LastOf(f: seq<nat>, ghost g: seq<seq<nat>>, i: nat, ghost lo: nat) returns (last: nat)
      requires Layout(-1) && Joining(f, g, pieces, link, align, lo, i) && i < |f| - 1 && |g| == |f| && g[i] != []
        && f[i] == g[i][0]
      ensures last == g[i][|g[i]| - 1] && last < |pieces| && link[last] == DELMARK
    {
      hide Flat, Offsets, Long, Counted, KeysOk, Joining;
      ghost var c, k := g[i], 0;
      last := f[i];
      JoinWalk(f, g, pieces, link, align, lo, i, k);
      var next := ReadNext(last, -1);
      while next != TAIL
        invariant k < |c| && last == c[k] < |pieces| && link[last] == DELMARK && next == After(c, k)
        decreases |c| - k
      {
        last, k := next, k + 1;
        JoinWalk(f, g, pieces, link, align, lo, i, k);
        next := ReadNext(last, -1);
      }
      if k + 1 < |c| {
        JoinWalk(f, g, pieces, link, align, lo, i, k + 1);
      }
    }

    /** Sends slots of the last list to the new lists of their length. */
    method SpreadLists(newLen: nat)
      requires Layout(-1) && Lists({}) && fast != [] && newLen > |fast| - 1
      modifies this
      ensures Layout(-1) && Lists({}) && |fast| == newLen + 1
      ensures OnlyLists(old(link), old(vals), old(bucket), old(chains), old(pieces), old(pool), old(Limits()))
    {
      hide Flat, Offsets, Long, Counted, BinsOk, KeysOk, Spreading;
      BinsShape(fast, bins, pieces, link, align, {});
      var more := newLen - (|fast| - 1);
      var f: seq<nat> := fast[..|fast| - 1] + seq(more, _ => TAIL) + [fast[|fast| - 1]];
      ghost var g: seq<seq<nat>> := bins[..|bins| - 1] + seq(more, _ => []) + [bins[|bins| - 1]];
      SpreadStart(fast, bins, pieces, link, align, f, g, more);
      var prev: int, curr: nat := -1, f[newLen];
      ghost var kept: nat := 0;
      SpreadHead(f, g, pieces, link, align, kept);
      while curr != TAIL
        invariant |f| == |g| == newLen + 1 && Layout(-1) && Spreading(f, g, pieces, link, align, kept)
        invariant kept <= |g[newLen]| && curr == (if kept < |g[newLen]| then g[newLen][kept] else TAIL)
        invariant prev == if kept == 0 then -1 else g[newLen][kept - 1]
        invariant OnlyLists(old(link), old(vals), old(bucket), old(chains), old(pieces), old(pool), old(Limits()))
        decreases |g[newLen]| - kept
      {
        f, g, prev, curr, kept := SpreadOne(f, g, newLen, prev, curr, kept);
      }
      SpreadEnd(f, g, pieces, link, align, kept);
      SpreadDone(f, g, pieces, link, align, kept);
      fast, bins := f, g;
    }

    method SpreadOne(f0: seq<nat>, ghost g0: seq<seq<nat>>, newLen: nat, prev0: int, curr0: nat, ghost kept0: nat)
      returns (f: seq<nat>, ghost g: seq<seq<nat>>, prev: int, curr: nat, ghost kept: nat)
      requires |f0| == |g0| == newLen + 1 && Layout(-1) && Spreading(f0, g0, pieces, link, align, kept0)
      requires kept0 < |g0[newLen]| && curr0 == g0[newLen][kept0]
        && prev0 == (if kept0 == 0 then -1 else g0[newLen][kept0 - 1])
      modifies this`pool, this`pieces
      ensures |f| == |g| == newLen + 1 && Layout(-1) && Spreading(f, g, pieces, link, align, kept)
      ensures kept <= |g[newLen]| && curr == (if kept < |g[newLen]| then g[newLen][kept] else TAIL)
      ensures prev == if kept == 0 then -1 else g[newLen][kept - 1]
      ensures |g[newLen]| - kept == |g0[newLen]| - kept0 - 1 && |pool| == |old(pool)|
      ensures |pieces| == |old(pieces)| && forall i :: 0 <= i < |pieces| && link[i] != DELMARK ==>
          pieces[i] == old(pieces)[i]
    {
      hide Flat, Long, Counted, KeysOk, Spreading;
      f, g, prev, curr, kept := f0, g0, prev0, curr0, kept0;
      ghost var c := g[newLen];
      SpreadWalk(f, g, pieces, link, align, kept);
      SlotBytes(curr, -1);
      var next := ReadNext(curr, -1);
      var iFast := (offs[curr + 1] - offs[curr]) / align - 1;
      assert iFast >= 0 by { SpreadUnits(pieces, align, curr); }
      if iFast < newLen {
        ghost var before := pieces;
        SpreadMove(f, g, pieces, link, align, kept, curr, iFast, next,
          if kept == 0 then f[iFast := curr][newLen := next] else f[iFast := curr],
          g[iFast := [curr] + g[iFast]][newLen := Without(c, kept)],
          SpreadWrites(pieces, c, kept, curr, f[iFast], next));
        WriteNext(curr, f[iFast], -1);
        if prev < 0 {
          f := f[iFast := curr][newLen := next];
        } else {
          WriteNext(prev, next, -1);
          f := f[iFast := curr];
        }
        assert pieces == SpreadWrites(before, c, kept, curr, f0[iFast], next);
        g := g[iFast := [curr] + g[iFast]][newLen := Without(c, kept)];
      } else {
        SpreadKeep(f, g, pieces, link, align, kept);
        prev, kept := curr, kept + 1;
      }
      curr := next;
    }

    // ---- compaction

    /** No slot is free; the links mean nothing. */
    ghost predicate Packed()
      reads this
    {
      && 4 <= align <= 128 && pool == Flat(pieces) && Offsets(pieces, offs)
      && |link| == |vals| == |pieces| <= MAX_LINK && Long(pieces, align) && KeysOk(pieces, Fresh(|pieces|), align)
      && nDeleted == 0 && freepool == 0
    }

    ghost function All(): seq<Cell<seq<Byte>, V>>
      reads this
      requires |vals| == |pieces| && KeysOk(pieces, Fresh(|pieces|), align)
    {
      Cells(pieces, Fresh(|pieces|), vals)
    }

    ghost predicate EmptyLists()
      reads this
    {
      |fast| == |bins| && forall b :: 0 <= b < |fast| ==> fast[b] == TAIL && bins[b] == []
    }

    /** `revoke_deleted_no_relink`: offsets and values move down, links stay where they are. */
    method RevokeNoRelink()
      requires Layout(-1) && Lists({}) && fast == [] && nDeleted > 0
      modifies this
      ensures Packed() && EmptyLists() && fast == [] && All() == Sieve(old(Data()), KeepAll())
      ensures |link| == |old(link)| - old(nDeleted) && link == old(link)[..|link|]
      ensures bucket == old(bucket) && chains == old(chains) && Caps() == old(Caps())
      ensures |pool| + old(freepool) == |old(pool)|
    {
      hide Flat, Offsets, Long, Counted, KeysOk, Cells, Sieve, Live, Layout, Packed, Fresh, BinsOk;
      LayoutFacts(-1);
      var p, o, v := Squeeze(pool, offs, link, vals, pieces);
      ghost var r := Live(pieces, link);
      SqueezedCounts(pieces, link, nDeleted, freepool);
      SqueezedLayout(pieces, link, vals, align, Fresh(|v|));
      hide EmptyLists;
      pool, offs, vals, pieces := p, o, v, r;
      link := link[..|v|];
      nDeleted, freepool := 0, 0;
      PackedAgain();
    }

    /** `relink` when nothing is deleted: the old links do not matter. */
    method RelinkFresh()
      requires Packed() && EmptyLists() && |bucket| >= 1 && (|bucket| == 1 ==> pieces == [] && bucket[0] == TAIL)
      modifies this`bucket, this`link, this`chains
      ensures Layout(-1) && Lists({}) && |bucket| == |old(bucket)| && Data() == old(All())
      ensures ChainsOk(hash, bucket, link, Data(), chains) && SlotsOk(hash, link, Data(), chains, {})
    {
      hide Flat, Offsets, Long, Counted, KeysOk, Cells, ChainsOk, SlotsOk, BinsOk;
      NothingFree(pieces, Fresh(|link|));
      if fast != [] {
        NoBins(|fast|, pieces, Fresh(|link|), align, fast, bins, {});
      }
      link := Fresh(|link|);
      Relink();
    }

    /** `revoke_deleted`. */
    method RevokeDeleted()
      requires Valid() && fast == []
      modifies this
      ensures Valid() && fast == [] && Model() == old(Model()) && |pieces| <= |old(pieces)| && |bucket| == |old(bucket)|
      ensures nDeleted == 0 && freepool == 0 && Caps() == old(Caps()) && |pool| + old(freepool) == |old(pool)|
    {
      hide Flat, Offsets, Long, Counted, KeysOk, Cells, Sieve, ChainsOk, SlotsOk, UniqueKeys, Contents;
      if nDeleted > 0 {
        ghost var data0 := Data();
        ChainsShape(hash, bucket, link, data0, chains);
        NothingDeleted(pieces, link, nDeleted, freepool);
        CompactionKeepsMap(data0);
        RevokeNoRelink();
        RelinkFresh();
      } else {
        NoFreePool(pieces, link, nDeleted, freepool);
      }
    }

    // ---- sorting

    lemma PackedSlot(i: nat)
      requires Packed() && i < |pieces|
      ensures |offs| == |pieces| + 1 && |vals| == |pieces| && HasKey(pieces[i])
      ensures offs[i] < offs[i + 1] <= |pool| && pool[offs[i]..offs[i + 1]] == pieces[i]
        && offs[i + 1] - offs[i] == |pieces[i]|
      ensures pool[offs[i + 1] - 1] < offs[i + 1] - offs[i] && Key(i) == KeyIn(pieces[i])
      ensures RealLen(|Key(i)|, align) == |pieces[i]| && IsNode((offs[i], |Key(i)|, vals[i]), pieces[i], vals[i])
    {
      PieceAt(pieces, i);
      var p := pieces[i];
      assert pool[offs[i]..offs[i + 1]] == p;
      assert p[|p| - 1] == pool[offs[i + 1] - 1];
      var n := |p| - 1 - p[|p| - 1];
      assert p[..n] == pool[offs[i]..offs[i] + n];
      TightLen(p, align);
    }

    /** The nodes as sorting sees them: where the slot is, how long the key, and the value. */
    ghost predicate IsNode(x: (nat, nat, V), p: seq<Byte>, v: V)
      reads this
    {
      && x.0 + |p| <= |pool| && pool[x.0..x.0 + |p|] == p && align > 0 && RealLen(x.1, align) == |p| && x.2 == v
    }

    method NodesAndKeys() returns (nodes: seq<(nat, nat, V)>, keys: seq<seq<Byte>>)
      requires Packed()
      ensures |nodes| == |keys| == |pieces|
      ensures forall i :: 0 <= i < |nodes| ==> IsNode(nodes[i], pieces[i], vals[i])
      ensures forall i :: 0 <= i < |keys| ==> HasKey(pieces[i]) && keys[i] == KeyIn(pieces[i])
    {
      hide Packed, KeysOk, HasKey, KeyIn, IsNode, Flat, Long, RealLen;
      PackedFacts();
      nodes, keys := [], [];
      var i := 0;
      while i < |link|
        invariant 0 <= i <= |link| && |nodes| == |keys| == i
        invariant forall k :: 0 <= k < i ==> IsNode(nodes[k], pieces[k], vals[k])
        invariant forall k :: 0 <= k < i ==> HasKey(pieces[k]) && keys[k] == KeyIn(pieces[k])
      {
        PackedSlot(i);
        nodes, keys := nodes + [(offs[i], |Key(i)|, vals[i])], keys + [Key(i)];
        i := i + 1;
      }
    }

    lemma PackedFacts()
      requires Packed()
      ensures |link| == |vals| == |pieces| <= MAX_LINK && 4 <= align <= 128 && KeysOk(pieces, Fresh(|pieces|), align)
      ensures pool == Flat(pieces) && Long(pieces, align) && nDeleted == 0 && freepool == 0
    {
    }

    /** `sort_by_key_prefix_o` and `rearrange_strpool`. */
    method SortPacked(prefix: nat) returns (ghost idx: seq<nat>)
      requires Packed()
      modifies this`pool, this`offs, this`vals, this`pieces, this`maxpool
      ensures Packed() && IsOrder(idx, |old(pieces)|) && |pieces| == |old(pieces)| && |pool| == |old(pool)| == maxpool
      ensures All() == Pick(old(All()), idx)
      ensures forall i, j :: 0 <= i < j < |pieces| ==> !StrKeys.Less(All()[j].key, All()[i].key)
    {
      hide Flat, Offsets, Packed, Long, KeysOk, Cells, IsOrder;
      PackedFacts();
      var nodes, keys := NodesAndKeys();
      var order := SortIndex(keys, prefix);
      OrderFacts(order, |keys|);
      var sorted := Arrange(nodes, order);
      ghost var r := Pick(pieces, order);
      forall i | 0 <= i < |sorted| ensures IsNode(sorted[i], r[i], vals[order[i]]) {
        assert IsNode(nodes[order[i]], pieces[order[i]], vals[order[i]]);
      }
      var p, o := NewPool(pool, sorted, align, r);
      var v := seq(|sorted|, i requires 0 <= i < |sorted| => sorted[i].2);
      assert v == Pick(vals, order);
      SortedLayout(pieces, vals, keys, align, order);
      SameTotal(pieces, order);
      idx := order;
      pool, offs, vals, pieces, maxpool := p, o, v, r, |p|;
      PackedAgain();
    }

    lemma PackedAgain()
      requires 4 <= align <= 128 && pool == Flat(pieces) && Offsets(pieces, offs)
      requires |link| == |vals| == |pieces| <= MAX_LINK && Long(pieces, align) && KeysOk(pieces, Fresh(|pieces|), align)
      requires nDeleted == 0 && freepool == 0
      ensures Packed()
    {
    }

    /** Fails when compaction leaves one slot that is not the first: such a table is not relinked. */
    ghost predicate Sortable()
      reads this
    {
      !(0 < nDeleted == |link| - 1 && link[0] == DELMARK)
    }

    /** The table is compact, but its chains are still those of before. */
    ghost predicate Compacted(bucket0: seq<nat>, link0: seq<nat>, chains0: seq<seq<nat>>,
                              data0: seq<Cell<seq<Byte>, V>>)
      reads this
    {
      && Packed() && EmptyLists() && All() == Sieve(data0, KeepAll()) && bucket == bucket0 && chains == chains0
      && |link| <= |link0| && link == link0[..|link|]
    }

    /** The first part of sorting: freelists off and free slots out, if there are any. */
    method Compact()
      requires Valid()
      modifies this
      ensures Compacted(old(bucket), old(link), old(chains), old(Data())) && Caps() == old(Caps())
        && |pool| <= |old(pool)|
      ensures |link| == |old(link)| - old(nDeleted) && fast == if old(nDeleted) > 0 then [] else old(fast)
    {
      hide Flat, Offsets, Long, Counted, KeysOk, Cells, Sieve, ChainsOk, SlotsOk, UniqueKeys, Contents, BinsOk;
      if nDeleted > 0 {
        DisableFreelist();
        RevokeNoRelink();
      } else {
        CleanPacked();
      }
    }

    /** Without free slots the table is compact as it stands. */
    lemma CleanPacked()
      requires Layout(-1) && Lists({}) && nDeleted == 0
      ensures Packed() && EmptyLists() && All() == Data() && Data() == Sieve(Data(), KeepAll())
    {
      NoneMarked(pieces, link, nDeleted, freepool);
      assert All() == Data();
      SieveAllLive(Data(), KeepAll());
      if fast != [] {
        forall b | 0 <= b < |bins| ensures bins[b] == [] && fast[b] == TAIL {
          assert IsChain(fast[b], bins[b], Nexts(pieces)) && Belong(bins[b], b, pieces, link, align, |bins|, {});
          assert forall j :: 0 <= j < |bins[b]| ==> bins[b][j] in bins[b];
        }
      }
    }

    /** The second part: sorted slots, linked anew. */
    method SortLinked(prefix: nat)
      requires Packed() && EmptyLists() && UniqueKeys(All(), {}) && |bucket| > 1 && ListCount(|fast|) && Capacities()
      modifies this
      ensures Valid() && Model() == old(Contents(All(), {})) && nDeleted == 0 && |link| == |old(link)|
        && |fast| == |old(fast)|
      ensures InOrder(Data())
    {
      hide Flat, Offsets, Long, Counted, KeysOk, Cells, Sieve, ChainsOk, SlotsOk, UniqueKeys, Contents, BinsOk, IsOrder,
          Packed, Layout, Lists;
      PackedFacts();
      ghost var all0 := All();
      ghost var idx := SortPacked(prefix);
      PackedFacts();
      OrderFacts(idx, |pieces|);
      PickedContents(all0, idx);
      AllElems();
      StrictlyAscending(All());
      RelinkFresh();
      LayoutFacts(-1);
    }

    lemma AllElems()
      requires |vals| == |pieces| && KeysOk(pieces, Fresh(|pieces|), align)
      ensures forall i :: 0 <= i < |pieces| ==> All()[i].Elem?
    {
      assert forall i :: 0 <= i < |pieces| ==> Fresh(|pieces|)[i] != DELMARK;
    }

    lemma MarkedInvalid()
      requires |link| == 1 && link[0] == DELMARK && nDeleted == 0
      ensures !Valid()
    {
      NoneFree(link);
    }

    /** The old chains serve when at most the first slot is left. */
    lemma StillLinked(bucket0: seq<nat>, link0: seq<nat>, chains0: seq<seq<nat>>, data0: seq<Cell<seq<Byte>, V>>)
      requires Compacted(bucket0, link0, chains0, data0) && |link| < 2 && (|link| == 1 ==> link0[0] != DELMARK)
      requires ChainsOk(hash, bucket0, link0, data0, chains0) && SlotsOk(hash, link0, data0, chains0, {})
        && UniqueKeys(data0, {})
      requires Capacities() && ListCount(|fast|)
      requires |bucket| == 1 ==> pieces == [] && maxload == 0 && bucket[0] == TAIL
      ensures Valid() && Data() == All() && InOrder(Data())
    {
      hide Flat, Offsets, Long, ChainsOk, SlotsOk, UniqueKeys, Sieve, BinsOk, Counted;
      NothingFree(pieces, link);
      assert Data() == All();
      OneLive(hash, bucket0, link0, data0, chains0, link, All());
      if fast != [] {
        NoBins(|fast|, pieces, link, align, fast, bins, {});
      }
    }

    /** The bucket of the key points past the last slot: the walk of a lookup leaves the table. */
    ghost predicate Lost(key: seq<Byte>)
      reads this
    {
      |bucket| > 0 && |link| <= bucket[Home(hash, key, |bucket|)] < TAIL
    }

    /** `sort_fast`. The lists that were there come back, but their number is taken for a length. */
    method SortFast(prefix: nat)
      requires Valid()
      modifies this
      ensures old(Sortable()) ==>
          Valid() && Model() == old(Model()) && nDeleted == 0 && |link| == |old(link)| - old(nDeleted)
      ensures old(Sortable()) ==> InOrder(Data())
      ensures old(Sortable()) ==> |fast| == if old(fast) == [] then 0 else (|old(fast)| - 1 + align - 1) / align + 1
      ensures !old(Sortable()) ==> !Valid() && |link| == 1 && link[0] == DELMARK && nDeleted == 0
      ensures !old(Sortable()) ==> forall key :: key in old(Model()) ==> Lost(key)
    {
      hide Flat, Offsets, Long, Counted, KeysOk, Cells, Sieve, ChainsOk, SlotsOk, UniqueKeys, Contents, BinsOk;
      var lists := |fast|;
      ghost var bucket0, link0, chains0, data0, pieces0 := bucket, link, chains, Data(), pieces;
      CompactionKeepsMap(data0);
      ChainsShape(hash, bucket, link, data0, chains);
      Compact();
      if |link| >= 2 {
        SortLinked(prefix);
      } else {
        if |link| == 1 && link0[0] == DELMARK {
          FreeSlots(pieces0, link0, old(nDeleted), old(freepool));
          forall key | key in Contents(data0, {}) ensures Lost(key) {
            Dangling(hash, bucket0, link0, data0, chains0, key);
          }
          MarkedInvalid();
        } else {
          StillLinked(bucket0, link0, chains0, data0);
        }
      }
      if lists > 0 {
        EnableFreelist(lists - 1);
        if !old(Sortable()) {
          MarkedInvalid();
        }
      }
    }

    // ---- searching a sorted map

    /** One probe of a binary search. */
    method Probe(mid: nat, key: seq<Byte>, comp3: Compare) returns (c: int)
      requires Valid() && InOrder(Data()) && mid < |link|
      ensures c == Signs(Data(), key, comp3)[mid]
    {
      hide Flat, Offsets, Long, Counted, BinsOk, ChainsOk, SlotsOk, KeysOk, UniqueKeys;
      SlotBytes(mid, -1);
      assert Data()[mid].Elem?;
      c := comp3(Key(mid), key);
    }

    /** `equal_range3` of a map sorted by key: a probe that hits, then both ends of the range. The
        comparison may be any whose sign never goes back along the keys. */
    method EqualRange3(key: seq<Byte>, comp3: Compare) returns (lo: nat, hi: nat)
      requires Valid() && InOrder(Data()) && Rising(Signs(Data(), key, comp3))
      ensures PartedAt(Signs(Data(), key, comp3), lo, hi)
    {
      hide Layout, Lists, Hashed, KeysOk, Cells, InOrder, Signs, Rising;
      LayoutFacts(-1);
      ghost var s := Signs(Data(), key, comp3);
      lo, hi := 0, |link|;
      var mid0: nat := hi;
      while lo < hi
        invariant 0 <= lo <= hi <= |link| == |s| && mid0 <= |link| && (lo == hi ==> mid0 <= hi)
          && (mid0 < lo ==> mid0 == lo - 1)
        invariant forall i :: 0 <= i < lo ==> s[i] < 0
        invariant forall i :: hi <= i < |s| ==> s[i] > 0
      {
        mid0 := lo + (hi - lo) / 2;
        var c := Probe(mid0, key, comp3);
        SignSays(s, mid0);
        if c < 0 {
          lo := mid0 + 1;
        } else if c > 0 {
          hi := mid0;
        } else {
          break;
        }
      }
      assert lo < hi ==> lo <= mid0 < hi && s[mid0] == 0;
      if lo < hi {
        SignSays(s, mid0);
      }
      ghost var lo0, hi0 := lo, hi;
      lo := LowEnd(key, comp3, lo, mid0, s);
      hi := HighEnd(key, comp3, mid0, hi, s);
      BothEnds(s, lo0, hi0, mid0, lo, hi);
    }

    method LowEnd(key: seq<Byte>, comp3: Compare, lo0: nat, mid0: nat, ghost s: seq<int>) returns (lo: nat)
      requires Valid() && InOrder(Data()) && s == Signs(Data(), key, comp3) && Rising(s) && mid0 <= |link| == |s|
      requires lo0 <= |s| && (forall i :: 0 <= i < lo0 ==> s[i] < 0) && (lo0 < mid0 < |s| ==> s[mid0] >= 0)
      ensures lo0 <= lo && (lo0 < mid0 ==> lo <= mid0) && (mid0 <= lo0 ==> lo == lo0)
      ensures forall i :: 0 <= i < lo ==> s[i] < 0
      ensures lo0 < mid0 ==> forall i :: lo <= i < |s| ==> s[i] >= 0
    {
      hide Layout, Lists, Hashed, KeysOk, Cells, InOrder, Signs, Rising;
      lo := lo0;
      var loH := mid0;
      if lo0 < mid0 < |s| {
        SignSays(s, mid0);
      }
      while lo < loH
        invariant lo0 <= lo && (lo0 < mid0 ==> lo <= loH <= mid0) && (mid0 <= lo0 ==> lo == lo0 && loH == mid0)
        invariant forall i :: 0 <= i < lo ==> s[i] < 0
        invariant lo0 < mid0 ==> forall i :: loH <= i < |s| ==> s[i] >= 0
      {
        var mid := lo + (loH - lo) / 2;
        var c := Probe(mid, key, comp3);
        SignSays(s, mid);
        if c < 0 {
          lo := mid + 1;
        } else {
          loH := mid;
        }
      }
    }

    method HighEnd(key: seq<Byte>, comp3: Compare, mid0: nat, hi0: nat, ghost s: seq<int>) returns (hi: nat)
      requires Valid() && InOrder(Data()) && s == Signs(Data(), key, comp3) && Rising(s) && mid0 <= hi0 <= |link| == |s|
      requires (forall i :: hi0 <= i < |s| ==> s[i] > 0) && (forall i :: 0 <= i < mid0 ==> s[i] <= 0)
      ensures mid0 <= hi <= hi0 && (forall i :: 0 <= i < hi ==> s[i] <= 0) && forall i :: hi <= i < |s| ==> s[i] > 0
    {
      hide Layout, Lists, Hashed, KeysOk, Cells, InOrder, Signs, Rising;
      hi := hi0;
      var hiL := mid0;
      while hiL < hi
        invariant mid0 <= hiL <= hi <= hi0
        invariant forall i :: 0 <= i < hiL ==> s[i] <= 0
        invariant forall i :: hi <= i < |s| ==> s[i] > 0
      {
        var mid := hiL + (hi - hiL) / 2;
        var c := Probe(mid, key, comp3);
        SignSays(s, mid);
        if c <= 0 {
          hiL := mid + 1;
        } else {
          hi := mid;
        }
      }
    }

    /** `equal_range3(prefix, prefixlen)`: the key itself, not the keys that begin with it. */
    method EqualRangeOfPrefix(prefix: seq<Byte>) returns (lo: nat, hi: nat)
      requires Valid() && InOrder(Data())
      ensures lo <= hi <= |link| && forall i :: 0 <= i < |link| ==>
          (lo <= i < hi <==> Data()[i].Elem? && Data()[i].key == prefix)
      ensures ExactRange(Data(), prefix, lo, hi) <==> !Extended(Data(), prefix)
    {
      hide Layout, Lists, Hashed, KeysOk, Cells, InOrder, Signs, PartedAt, ExactRange, Extended;
      LayoutFacts(-1);
      SignsRise(Data(), prefix, |prefix|);
      lo, hi := EqualRange3(prefix, ByPrefix(|prefix|));
      OwnKeyOnly(Data(), prefix, lo, hi);
    }

    lemma NoSlots()
      requires Valid() && Model() == map[] && |pieces| == 0
      ensures Data() == [] && pool == [] && link == []
    {
    }

    lemma OneOfTwo(two: seq<Cell<seq<Byte>, V>>, key: seq<Byte>)
      requires Valid() && |two| == 2 && two[0].Elem? && two[1].Elem? && two[0].key == key && two[1].key != key
      requires FreedSlot(two, Data(), key)
      ensures !Sortable()
    {
      FreeSlots(pieces, link, nDeleted, freepool);
      assert link[0] == DELMARK && link[1] != DELMARK;
      assert link == [link[0], link[1]] && link[..1] == [link[0]];
    }

    // ---- runs

    /** What the source checks, room for a new key, and a sort that leaves the map usable. */
    ghost predicate Allowed(op: Op<V>)
      reads this
      requires Valid()
    {
      match op
      case Put(key, _) => FateOf(key).Present? || FateOf(key).Added?
      case Listed(n) => 0 < n < 32 * 1024
      case Revoked => fast == []
      case Sorted(_) => Sortable()
      case _ => true
    }

    /** Does the operation if it is allowed; a refused insertion may still have compacted. */
    method Perform(op: Op<V>) returns (ok: bool, answer: Answer<V>)
      requires Valid()
      modifies this
      ensures ok == old(Allowed(op)) && Valid() && (!ok ==> !Allowed(op))
      ensures Model() == if ok then SpecStep(old(Model()), op) else old(Model())
      ensures ok ==> answer == SpecAnswer(old(Model()), op)
    {
      hide Layout, Lists, Hashed, UniqueKeys, Contents, Cells, KeysOk, InOrder;
      ok, answer := true, Done;
      match op
      case Put(key, val) =>
        var fate := Insert(key, val);
        ok, answer := fate.Present? || fate.Added?, Changed(fate.Added?);
      case Remove(key) =>
        var done := Erase(key);
        answer := Changed(done);
      case Lookup(key) =>
        var val := ValueOf(key);
        answer := Found(val);
      case Rehashed(n) => var nb := Rehash(n);
      case Listed(n) =>
        ok := 0 < n < 32 * 1024;
        if ok {
          Relisted(n);
        }
      case Unlisted => DisableFreelist();
      case Revoked =>
        ok := fast == [];
        if ok {
          RevokeDeleted();
        }
      case Compacting(on) => EnableAutoCompact(on);
      case Sorted(n) =>
        ok := CanSort();
        if ok {
          SortFast(n);
        }
    }

    /** `enable_auto_compact`. */
    method EnableAutoCompact(on: bool)
      requires Valid()
      modifies this`autoCompact
      ensures Valid() && Model() == old(Model()) && autoCompact == on
    {
      autoCompact := on;
    }

    method CanSort() returns (ok: bool)
      requires Valid()
      ensures ok == Sortable()
    {
      ok := !(0 < nDeleted == |link| - 1 && link[0] == DELMARK);
    }

    method Relisted(n: nat)
      requires Valid() && 0 < n < 32 * 1024
      modifies this
      ensures Valid() && Model() == old(Model())
    {
      EnableFreelist(n);
    }

    /** Every run of operations, up to the first that is not allowed, does to the map what it
        says and answers as the map. */
    method Run(ops: seq<Op<V>>) returns (n: nat, answers: seq<Answer<V>>)
      requires Valid()
      modifies this
      ensures Valid() && n <= |ops| && Model() == SpecRun(old(Model()), ops[..n])
      ensures n < |ops| ==> !Allowed(ops[n])
      ensures |answers| == n && forall i :: 0 <= i < n ==>
          answers[i] == SpecAnswer(SpecRun(old(Model()), ops[..i]), ops[i])
    {
      hide Layout, Lists, Hashed, UniqueKeys, Contents, Cells, KeysOk, SpecAnswer;
      n, answers := 0, [];
      while n < |ops|
        invariant n <= |ops| && Valid() && Model() == SpecRun(old(Model()), ops[..n])
        invariant |answers| == n
        invariant forall i :: 0 <= i < n ==> answers[i] == SpecAnswer(SpecRun(old(Model()), ops[..i]), ops[i])
      {
        var ok, answer := Perform(ops[n]);
        if !ok {
          return;
        }
        assert ops[..n + 1][..n] == ops[..n];
        n, answers := n + 1, answers + [answer];
      }
    }
  }

  /** A map of two keys, in slots 0 and 1. */
  method TwoKeys(hash: seq<Byte> -> nat, x: seq<Byte>, y: seq<Byte>) returns (m: StrMap<int>)
    requires x != y && |x| + |y| <= 0x1_0000_0000
    ensures fresh(m) && m.Valid() && m.hash == hash && m.Still() && m.Data() == [Elem(x, 1), Elem(y, 2)]
    ensures x in m.Model() && y in m.Model()
  {
    hide UniqueKeys, Contents;
    m := new StrMap(hash, 4, true);
    m.NoSlots();
    var a := m.Insert(x, 1);
    assert a == Added && |m.link| == 1;
    var b := m.Insert(y, 2);
  }

  /** Two keys in, the first one out, then a sort: the other key is lost, whatever the hash. */
  method SortLosesKey(hash: seq<Byte> -> nat, x: seq<Byte>, y: seq<Byte>) returns (m: StrMap<int>)
    requires x != y && |x| + |y| <= 0x1_0000_0000
    ensures fresh(m) && !m.Valid() && m.hash == hash && |m.link| == 1 && m.Lost(y)
  {
    hide UniqueKeys, Contents, InOrder;
    m := TwoKeys(hash, x, y);
    ghost var two := m.Data();
    var c := m.Erase(x);
    m.OneOfTwo(two, x);
    m.SortFast(8);
  }
}
