/** `gold_hash_tab`: a chained hash table whose elements live in one growing slot array.
    Erased slots form a freelist threaded through the elements; the bucket array is
    rebuilt on rehash; compaction squeezes the erased slots out. */
module GoldHashTab {
  import opened HashSizing
  import opened HashChains
  import opened HashSlots
  import opened HashBuckets

  /** The first slot with a delete mark; the caller knows there is one. */
  method FirstDeleted<K, V>(link: seq<nat>, data: seq<Cell<K, V>>) returns (i: nat)
    requires |link| == |data|
    requires forall s: nat :: s < |data| ==> (data[s].FreeLink? <==> link[s] == DELMARK)
    requires exists s: nat :: s < |data| && data[s].FreeLink?
    ensures i < |data| && data[i].FreeLink?
    ensures forall s: nat :: s < i ==> data[s].Elem?
  {
    ghost var z: nat :| z < |data| && data[z].FreeLink?;
    i := 0;
    while link[i] != DELMARK
      invariant 0 <= i <= z < |data|
      invariant forall s: nat :: s < i ==> data[s].Elem?
      decreases |data| - i
    {
      i := i + 1;
    }
  }

  /** Moves every later element down over the gap that starts at `first`. */
  method SqueezeDeleted<K, V>(link: seq<nat>, data: seq<Cell<K, V>>, first: nat) returns (d: seq<Cell<K, V>>)
    requires |link| == |data| && first < |data| && data[first].FreeLink?
    requires forall s: nat :: s < |data| ==> (data[s].FreeLink? <==> link[s] == DELMARK)
    requires forall s: nat :: s < first ==> data[s].Elem?
    ensures d == Sieve(data, KeepAll())
  {
    hide Sieve;
    SieveAllLive(data[..first], KeepAll());
    SieveStep(data, KeepAll(), first);
    d := data;
    var i, j := first, first + 1;
    while j < |data|
      invariant 0 <= i < j <= |data| == |d|
      invariant d[..i] == Sieve(data[..j], KeepAll())
      invariant forall s: nat :: j <= s < |d| ==> d[s] == data[s]
    {
      SieveStep(data, KeepAll(), j);
      if link[j] != DELMARK {
        d := d[i := d[j]];
        assert d[..i + 1] == d[..i] + [data[j]];
        i := i + 1;
      }
      j := j + 1;
    }
    assert data[..|data|] == data;
    d := d[..i];
  }

  /** The first element that `pred` selects, or the number of elements. */
  method FirstSelected<K, V>(data: seq<Cell<K, V>>, pred: (K, V) -> bool) returns (i: nat)
    requires forall s: nat :: s < |data| ==> data[s].Elem?
    ensures i <= |data| && (i < |data| ==> !Keeps(Unless(pred), data[i]))
    ensures forall s: nat :: s < i ==> Keeps(Unless(pred), data[s])
  {
    i := 0;
    while i < |data| && !pred(data[i].key, data[i].val)
      invariant 0 <= i <= |data|
      invariant forall s: nat :: s < i ==> Keeps(Unless(pred), data[s])
    {
      i := i + 1;
    }
  }

  /** One compaction pass: moves down every element that `pred` does not select. */
  method SqueezeSelected<K, V>(data: seq<Cell<K, V>>, pred: (K, V) -> bool) returns (d: seq<Cell<K, V>>)
    requires forall s: nat :: s < |data| ==> data[s].Elem?
    ensures d == Sieve(data, Unless(pred))
  {
    hide Sieve;
    var i := FirstSelected(data, pred);
    SieveAllLive(data[..i], Unless(pred));
    assert data[..|data|] == data;
    if i == |data| {
      return data;
    }
    SieveStep(data, Unless(pred), i);
    d := data;
    var j := i + 1;
    while j < |data|
      invariant 0 <= i < j <= |data| == |d|
      invariant d[..i] == Sieve(data[..j], Unless(pred))
      invariant forall s: nat :: j <= s < |d| ==> d[s] == data[s]
    {
      SieveStep(data, Unless(pred), j);
      if !pred(d[j].key, d[j].val) {
        d := d[i := d[j]];
        assert d[..i + 1] == d[..i] + [data[j]];
        i := i + 1;
      }
      j := j + 1;
    }
    d := d[..i];
  }

  function Unless<K, V>(pred: (K, V) -> bool): (K, V) -> bool {
    (k, v) => !pred(k, v)
  }

  datatype Op<!K, !V> =
    | Insert(k: K, v: V)
    | Lookup(k: K)
    | Remove(k: K)
    | RemoveIf(p: (K, V) -> bool)
    | Rehash(n: nat)
    | Reserve(n: nat)
    | Compact
    | Clear
    | SetAutoGc(on: bool)
    | SetReuse(on: bool)
    | RemoveKeepingIds(p: (K, V) -> bool)
    | SetLoad(lf: nat)

  /** `Got(new, v)` for an insertion or a hit, the count for an erasure by key. */
  datatype Answer<V> = Got(flag: bool, v: V) | Erased(n: nat) | Done

  /** The finite map that the table stands for, one operation at a time. */
  ghost function SpecStep<K, V>(m: map<K, V>, op: Op<K, V>): (map<K, V>, Answer<V>) {
    match op
    case Insert(k, v) => if k in m then (m, Got(false, m[k])) else (m[k := v], Got(true, v))
    case Lookup(k) => (m, if k in m then Got(true, m[k]) else Done)
    case Remove(k) => (m - {k}, Erased(if k in m then 1 else 0))
    case RemoveIf(p) => (Restricted(m, Unless(p)), Done)
    case RemoveKeepingIds(p) => (Restricted(m, Unless(p)), Done)
    case Clear => (map[], Done)
    case _ => (m, Done)
  }

  ghost function SpecRun<K, V>(m: map<K, V>, ops: seq<Op<K, V>>): (map<K, V>, seq<Answer<V>>) {
    if |ops| == 0 then (m, [])
    else
      var (m1, answers) := SpecRun(m, ops[..|ops| - 1]);
      var (m2, answer) := SpecStep(m1, ops[|ops| - 1]);
      (m2, answers + [answer])
  }

  /** Doubling a full node array passes the checks of `reserve_nodes` exactly while the
      doubled number fits 32 bits and leaves the reserved values out. */
  lemma DoublingFits(n: nat)
    requires 0 < n < LINK_MOD
    ensures n <= 2 * n % LINK_MOD <= DELMARK <==> 2 * n <= DELMARK
  {
    if 2 * n >= LINK_MOD {
      assert 2 * n % LINK_MOD == 2 * n - LINK_MOD;
    }
  }

  class Table<K(==), V> {
    const hash: K -> nat
    var bucket: seq<nat>
    var link: seq<nat>
    var data: seq<Cell<K, V>>
    var maxElem: nat
    var maxload: nat
    var freeHead: nat
    var freeSize: nat
    var loadFactor: nat
    var autoGc: bool
    var reuse: bool

    // The collision list of each bucket, the freelist, and the constructed slots that
    // were taken out of their chain but not freed yet.
    ghost var chains: seq<seq<nat>>
    ghost var free: seq<nat>
    ghost var unlinked: set<nat>

    ghost predicate Sized()
      reads this
    {
      && |link| == |data| <= maxElem <= DELMARK
      && freeSize == |free|
      && 1 <= loadFactor <= 255
      && |bucket| >= 1
      && maxload == (if |bucket| == 1 then 0 else MaxLoad(|bucket|, loadFactor))
      && (|bucket| == 1 ==> data == [])
    }

    ghost predicate Wf()
      reads this
    {
      && Sized()
      && ChainsOk(hash, bucket, link, data, chains)
      && FreeOk(freeHead, link, data, free)
      && SlotsOk(hash, link, data, chains, unlinked)
    }

    /** Used as a map: no slot is half-erased and no key occurs twice. */
    ghost predicate Valid()
      reads this
    {
      Wf() && unlinked == {} && UniqueKeys(data, {})
    }

    ghost function Model(): map<K, V>
      requires Valid()
      reads this
    {
      Contents(data, {})
    }

    ghost predicate Linked(s: nat)
      reads this
    {
      Visible(data, unlinked, s)
    }

    /** The settings that only explicit requests change. */
    ghost function Settings(): (nat, nat, bool, bool)
      reads this
    {
      (maxElem, loadFactor, autoGc, reuse)
    }

    /** The node array can take one more slot without passing the link limit. */
    ghost predicate CanGrow()
      reads this
    {
      2 * |data| <= DELMARK
    }

    /** A slot for one more element: a free one, an unused one, or room to grow. */
    ghost predicate HasRoom()
      reads this
    {
      (freeSize > 0 && reuse) || |data| < maxElem || CanGrow()
    }

    constructor (hash: K -> nat)
      ensures Valid() && Model() == map[]
      ensures this.hash == hash && data == [] && maxElem == 0 && maxload == 0 && |bucket| == 1
      ensures loadFactor == DEFAULT_LOAD_FACTOR && !autoGc && reuse
    {
      this.hash := hash;
      bucket, link, data := [TAIL], [], [];
      maxElem, maxload, freeHead, freeSize := 0, 0, TAIL, 0;
      loadFactor, autoGc, reuse := DEFAULT_LOAD_FACTOR, false, true;
      chains, free, unlinked := [[]], [], {};
      hide ChainsOk, FreeOk, SlotsOk, Contents, UniqueKeys;
      EmptyOk<K, V>(hash);
      ContentsEmpty<K, V>();
    }

    method Init()
      modifies this
      ensures Wf() && unlinked == {} && data == [] && bucket == [TAIL]
      ensures maxElem == 0 && maxload == 0 && loadFactor == DEFAULT_LOAD_FACTOR && !autoGc && reuse
    {
      hide ChainsOk, FreeOk, SlotsOk, MaxLoad;
      bucket, link, data := [TAIL], [], [];
      maxElem, maxload, freeHead, freeSize := 0, 0, TAIL, 0;
      loadFactor, autoGc, reuse := DEFAULT_LOAD_FACTOR, false, true;
      chains, free, unlinked := [[]], [], {};
      EmptyOk<K, V>(hash);
    }

    /** What `relink` starts from: element slots are told apart by their delete mark,
        or, when the freelist is empty, every slot is an element. */
    ghost predicate Relinkable()
      reads this
    {
      && |link| == |data| <= DELMARK
      && |bucket| >= 1
      && freeSize == |free|
      && (|bucket| == 1 ==> data == [])
      && FreeOk(freeHead, link, data, free)
      && (forall s: nat :: s < |data| ==> (data[s].Elem? <==> freeSize == 0 || link[s] != DELMARK))
    }

    /** Rebuilds every chain from the elements. A constructed slot that had been unlinked
        is hooked in again: `unlinked` ends empty. */
    method Relink()
      requires Relinkable()
      requires |bucket| == 1 ==> bucket[0] == TAIL
      modifies this`bucket, this`link, this`chains, this`unlinked
      ensures |bucket| == old(|bucket|) && |link| == old(|link|)
      ensures ChainsOk(hash, bucket, link, data, chains)
      ensures FreeOk(freeHead, link, data, free)
      ensures SlotsOk(hash, link, data, chains, unlinked)
      ensures unlinked == {}
    {
      hide RelinkedTo, ChainsOk, FreeOk, SlotsOk;
      ghost var link0 := link;
      unlinked := {};
      chains := seq(|bucket|, _ => []);
      if |bucket| == 1 {
        RelinkStart(hash, bucket, link, data, chains);
        RelinkDone(hash, bucket, link, data, chains, link0, freeHead, free);
        return;
      }
      bucket := seq(|bucket|, _ => TAIL);
      RelinkStart(hash, bucket, link, data, chains);
      var j := 0;
      while j < |data|
        invariant 0 <= j <= |data| == |link|
        invariant |bucket| == |chains| == old(|bucket|) > 1 && unlinked == {}
        invariant RelinkedTo(hash, bucket, link, data, chains, link0, j)
      {
        RelinkNext(hash, bucket, link, data, chains, link0, j);
        if freeSize == 0 || link[j] != DELMARK {
          var i := Home(hash, data[j].key, |bucket|);
          RelinkStep(hash, bucket, link, data, chains, link0, j);
          link := link[j := bucket[i]];
          bucket := bucket[i := j];
          chains := chains[i := [j] + chains[i]];
        }
        j := j + 1;
      }
      RelinkDone(hash, bucket, link, data, chains, link0, freeHead, free);
    }

    /** Moves to the prime bucket count for `newBucketSize`; elements keep their slots. */
    method Rehash(newBucketSize: nat) returns (nb: nat)
      requires Wf()
      modifies this`bucket, this`link, this`chains, this`unlinked, this`maxload
      ensures Wf()
      ensures nb == |bucket| == NextPrime(newBucketSize) && |bucket| > 1
      ensures maxload == MaxLoad(|bucket|, loadFactor)
      ensures unlinked == if nb == old(|bucket|) then old(unlinked) else {}
      ensures nb == old(|bucket|) ==> bucket == old(bucket) && link == old(link) && chains == old(chains)
    {
      nb := NextPrime(newBucketSize);
      if nb != |bucket| {
        bucket := seq(nb, _ => TAIL);
        Relink();
        maxload := MaxLoad(nb, loadFactor);
      }
    }

    method ReserveNodes(cap: nat)
      requires Wf() && |data| <= cap <= DELMARK
      modifies this`maxElem
      ensures Wf()
      ensures maxElem == if cap == |data| then old(maxElem) else cap
    {
      if cap != maxElem && cap != |data| {
        maxElem := cap;
      }
    }

    /** Room for `cap` elements; the node array itself shrinks or grows to `cap`
        except when it is exactly full up to `cap`. */
    method Reserve(cap: nat)
      requires Wf() && |data| <= cap <= DELMARK
      modifies this`bucket, this`link, this`chains, this`unlinked, this`maxload, this`maxElem
      ensures Wf()
      ensures maxElem == if cap == |data| then old(maxElem) else cap
      ensures |bucket| == NextPrime(BucketRequest(cap, loadFactor))
      ensures maxload == MaxLoad(|bucket|, loadFactor)
      ensures cap <= maxload <==> ReservedLoad(cap, loadFactor) < LINK_MOD || Coincides(cap, loadFactor)
      ensures unlinked == if |bucket| == old(|bucket|) then old(unlinked) else {}
    {
      ReserveNodes(cap);
      var nb := Rehash(BucketRequest(cap, loadFactor));
      ReserveCovers(cap, loadFactor);
    }

    /** The first slot of the chain that holds `key`, or `|data|`. */
    method Find(key: K) returns (idx: nat)
      requires Wf()
      ensures idx <= |data|
      ensures idx < |data| ==> Linked(idx) && data[idx].key == key
      ensures idx == |data| ==> forall s: nat :: Linked(s) ==> data[s].key != key
    {
      var i := Home(hash, key, |bucket|);
      ghost var c := chains[i];
      assert IsChain(bucket[i], c, link);
      assert Placed(hash, data, c, i, |chains|);
      ghost var j := 0;
      var p := bucket[i];
      while p != TAIL
        invariant 0 <= j <= |c|
        invariant p == if j < |c| then c[j] else TAIL
        invariant forall m :: 0 <= m < j ==> data[c[m]].key != key
        decreases |c| - j
      {
        assert c[j] in c;
        if data[p].key == key {
          return p;
        }
        p := link[p];
        j := j + 1;
      }
      return |data|;
    }

    /** Takes a slot for a new element and constructs it there, not yet linked:
        the freelist head if reuse is on, else the next unused slot. */
    method RiskSlotAlloc(key: K, val: V) returns (slot: nat)
      requires Wf() && |bucket| > 1
      requires (freeSize == 0 || !reuse) && |data| == maxElem ==> CanGrow()
      modifies this`link, this`data, this`maxElem, this`freeHead, this`freeSize, this`free, this`unlinked
      ensures Wf()
      ensures slot < |data| && data[slot] == Elem(key, val)
      ensures unlinked == old(unlinked) + {slot} && slot !in old(unlinked)
      ensures slot < old(|data|) ==> old(data[slot].FreeLink?) && data == old(data)[slot := Elem(key, val)]
      ensures slot >= old(|data|) ==> data == old(data) + [Elem(key, val)]
      ensures slot < old(|data|) <==> old(freeSize) > 0 && reuse
      ensures |data| - freeSize == old(|data| - freeSize) + 1
      ensures old(|data| < maxElem) || (old(freeSize) > 0 && reuse) ==> maxElem == old(maxElem)
    {
      if freeSize == 0 || !reuse {
        slot := |data|;
        if |data| == maxElem {
          ReserveNodes(if |data| == 0 then 1 else 2 * |data|);
        }
        AppendSlot(key, val);
      } else {
        slot := freeHead;
        ReuseSlot(key, val);
      }
    }

    method AppendSlot(key: K, val: V)
      requires Wf() && |bucket| > 1 && |data| < maxElem
      modifies this`link, this`data, this`unlinked
      ensures Wf() && data == old(data) + [Elem(key, val)] && unlinked == old(unlinked) + {old(|data|)}
      ensures old(|data|) !in old(unlinked)
    {
      ChainsAppend(hash, bucket, link, data, chains, TAIL, Elem(key, val));
      link := link + [TAIL];
      data := data + [Elem(key, val)];
      unlinked := unlinked + {|data| - 1};
    }

    method ReuseSlot(key: K, val: V)
      requires Wf() && |bucket| > 1 && freeSize > 0
      modifies this`link, this`data, this`freeHead, this`freeSize, this`free, this`unlinked
      ensures old(freeHead) < old(|data|) && old(data[freeHead].FreeLink?) && old(freeHead) !in old(unlinked)
      ensures Wf() && data == old(data)[old(freeHead) := Elem(key, val)] && unlinked == old(unlinked) + {old(freeHead)}
      ensures freeSize == old(freeSize) - 1
    {
      var slot := freeHead;
      FreePop(freeHead, link, data, free, TAIL, Elem(key, val));
      InNoChain(hash, bucket, link, data, chains, slot);
      ChainsFrame(hash, bucket, link, data, chains, slot, TAIL, Elem(key, val));
      freeSize := freeSize - 1;
      freeHead := data[slot].next;
      link := link[slot := TAIL];
      data := data[slot := Elem(key, val)];
      free := free[1..];
      unlinked := unlinked + {slot};
    }

    /** Hooks an unlinked slot in front of the chain of bucket `i`. */
    method LinkIn(slot: nat, i: nat)
      requires Wf() && slot in unlinked
      requires i == Home(hash, data[slot].key, |bucket|)
      modifies this`bucket, this`link, this`chains, this`unlinked
      ensures Wf() && unlinked == old(unlinked) - {slot} && |bucket| == old(|bucket|)
      ensures chains == old(chains)[i := [slot] + old(chains[i])]
    {
      LinkSlot(hash, bucket, link, data, chains, slot);
      assert IsChain(bucket[i], chains[i], link);
      assert forall b, s :: 0 <= b < |chains| && s in chains[b] ==> s in chains[i := [slot] + chains[i]][b];
      link := link[slot := bucket[i]];
      bucket := bucket[i := slot];
      chains := chains[i := [slot] + chains[i]];
      unlinked := unlinked - {slot};
    }

    /** Allocates, constructs and links one element in bucket `i` of its hash. */
    method InsertOnNewSlot(key: K, val: V, i: nat) returns (slot: nat)
      requires Wf() && |bucket| > 1 && i == Home(hash, key, |bucket|)
      requires (freeSize == 0 || !reuse) && |data| == maxElem ==> CanGrow()
      modifies this
      ensures maxload == old(maxload) && loadFactor == old(loadFactor) && autoGc == old(autoGc) && reuse == old(reuse)
      ensures Wf() && unlinked == old(unlinked) && |bucket| == old(|bucket|)
      ensures slot < |data| && data[slot] == Elem(key, val) && slot !in unlinked
      ensures slot < old(|data|) ==> old(data[slot].FreeLink?) && data == old(data)[slot := Elem(key, val)]
      ensures slot >= old(|data|) ==> data == old(data) + [Elem(key, val)]
      ensures |data| - freeSize == old(|data| - freeSize) + 1
      ensures old(|data| < maxElem) || (old(freeSize) > 0 && reuse) ==> maxElem == old(maxElem)
    {
      slot := RiskSlotAlloc(key, val);
      LinkIn(slot, i);
    }

    lemma WfBuckets()
      requires Wf()
      ensures |bucket| == |chains| && freeSize <= |data|
    {
      NoDupFits(free, |data|);
    }

    /** Adds a key that is not there, rehashing first when the load limit is reached. */
    method InsertAbsent(key: K, val: V) returns (slot: nat)
      requires Valid() && HasRoom() && key !in Model()
      modifies this
      ensures loadFactor == old(loadFactor) && autoGc == old(autoGc) && reuse == old(reuse)
      ensures Valid()
      ensures slot < |data| && data[slot] == Elem(key, val)
      ensures Model() == old(Model())[key := val]
      ensures forall s: nat :: s < old(|data|) && old(data[s].Elem?) ==> s < |data| && data[s] == old(data[s])
      ensures |data| <= old(|data|) + 1
    {
      hide ChainsOk, FreeOk, SlotsOk, Contents, UniqueKeys, MaxLoad, NextPrime;
      WfBuckets();
      var i := Home(hash, key, |bucket|);
      if |data| - freeSize >= maxload {
        var nb := Rehash(|bucket| + 1);
        i := Home(hash, key, nb);
      }
      slot := InsertOnNewSlot(key, val, i);
      PutCell(old(data), data, slot);
    }

    /** Inserts unless the key is there; never moves an element that is already in. */
    method LazyInsert(key: K, val: V) returns (slot: nat, inserted: bool)
      requires Valid() && (key in Model() || HasRoom())
      modifies this
      ensures loadFactor == old(loadFactor) && autoGc == old(autoGc) && reuse == old(reuse)
      ensures Valid()
      ensures slot < |data| && data[slot].Elem? && data[slot].key == key
      ensures inserted <==> key !in old(Model())
      ensures Model() == if inserted then old(Model())[key := val] else old(Model())
      ensures data[slot].val == Model()[key]
      ensures forall s: nat :: s < old(|data|) && old(data[s].Elem?) ==> s < |data| && data[s] == old(data[s])
      ensures |data| <= old(|data|) + 1
    {
      slot := Find(key);
      inserted := slot == |data|;
      if inserted {
        slot := InsertAbsent(key, val);
      } else {
        assert Visible(data, {}, slot);
      }
    }

    /** Overwrites the field that points at `idx` (the bucket head, or the link of `prev`). */
    method Unhook(b: nat, prev: nat, idx: nat, ghost j: nat)
      requires Wf() && b < |bucket| && j < |chains[b]| && chains[b][j] == idx
      requires prev == if j == 0 then TAIL else chains[b][j - 1]
      modifies this`bucket, this`link, this`chains, this`unlinked
      ensures Wf() && |bucket| == old(|bucket|)
      ensures unlinked == old(unlinked) + {idx}
    {
      ghost var c := chains[b];
      assert IsChain(bucket[b], c, link) && Placed(hash, data, c, b, |chains|);
      UnlinkSlot(hash, bucket, link, data, chains, b, j);
      WithoutMembers(c, j);
      InOneChain(hash, bucket, link, data, chains, idx, b);
      UnlinkKeepsMarks(link, data, c, j);
      if prev == TAIL {
        bucket := bucket[b := link[idx]];
      } else {
        link := link[prev := link[idx]];
      }
      chains := chains[b := Without(c, j)];
      unlinked := unlinked + {idx};
    }

    /** Takes a linked slot out of its chain; the element stays constructed. */
    method RiskUnlink(idx: nat)
      requires Wf() && Linked(idx)
      modifies this
      ensures Settings() == old(Settings()) && maxload == old(maxload)
      ensures data == old(data) && freeHead == old(freeHead) && freeSize == old(freeSize)
      ensures Wf() && |bucket| == old(|bucket|)
      ensures unlinked == old(unlinked) + {idx}
    {
      var b := Home(hash, data[idx].key, |bucket|);
      ghost var c := chains[b];
      assert IsChain(bucket[b], c, link);
      var prev, curr := TAIL, bucket[b];
      ghost var j := 0;
      while curr != idx
        invariant 0 <= j < |c| && curr == c[j] && idx in c[j..]
        invariant prev == if j == 0 then TAIL else c[j - 1]
        decreases |c| - j
      {
        assert c[j..] == [c[j]] + c[j + 1..];
        prev, curr := curr, link[curr];
        j := j + 1;
      }
      Unhook(b, prev, idx, j);
    }

    /** Delete marks tell the erased slots, and the freelist is empty iff there are none. */
    ghost predicate Marked()
      reads this
    {
      && |link| == |data|
      && (forall s: nat :: s < |data| ==> (data[s].FreeLink? <==> link[s] == DELMARK))
      && (freeSize > 0 <==> exists s: nat :: s < |data| && data[s].FreeLink?)
    }

    lemma WfIsMarked()
      requires Wf()
      ensures Marked()
    {
      if freeSize > 0 {
        assert free[0] in free;
      }
    }

    /** Squeezes the erased slots out of the node array, keeping slot order; the links
        are left stale for the relink that must follow. Returns how many slots went. */
    method RevokeDeletedNoRelink() returns (erased: nat)
      requires Marked() && freeSize > 0
      modifies this`link, this`data, this`freeHead, this`freeSize, this`free
      ensures data == Sieve(old(data), KeepAll()) && |link| == |data|
      ensures freeHead == TAIL && freeSize == 0 && free == []
      ensures erased == old(|data|) - |data|
    {
      var i := FirstDeleted(link, data);
      var d := SqueezeDeleted(link, data, i);
      erased := |data| - |d|;
      data, link := d, link[..|d|];
      freeHead, freeSize, free := TAIL, 0, [];
    }

    /** Compaction: keeps exactly the live elements, in order, and every key findable. */
    method RevokeDeleted() returns (erased: nat)
      requires Wf()
      modifies this`bucket, this`chains, this`link, this`data, this`freeHead, this`freeSize, this`free, this`unlinked
      ensures Wf()
      ensures old(freeSize) == 0 ==> erased == 0 && data == old(data) && unlinked == old(unlinked)
      ensures old(freeSize) > 0 ==> data == Sieve(old(data), KeepAll()) && unlinked == {} && free == []
      ensures erased == old(|data|) - |data| && |bucket| == old(|bucket|)
    {
      erased := 0;
      WfIsMarked();
      if freeSize > 0 {
        erased := RevokeDeletedNoRelink();
        SieveIsLive(old(data), KeepAll());
        Relink();
      }
    }

    /** Destroys the element of an unlinked slot and pushes the slot on the freelist;
        with automatic compaction on, squeezes the table once over half is free. */
    method FastSlotFree(slot: nat)
      requires Wf() && slot in unlinked
      modifies this
      ensures Settings() == old(Settings()) && maxload == old(maxload)
      ensures Wf()
      ensures !(reuse && autoGc && old(freeSize) + 1 > old(|data|) / 2) ==>
        && data == old(data)[slot := FreeLink(old(freeHead))] && unlinked == old(unlinked) - {slot}
        && freeSize == old(freeSize) + 1 && bucket == old(bucket) && chains == old(chains)
      ensures reuse && autoGc && old(freeSize) + 1 > old(|data|) / 2 ==>
        && data == Sieve(old(data)[slot := FreeLink(old(freeHead))], KeepAll()) && unlinked == {}
        && freeSize == 0
      ensures |bucket| == old(|bucket|)
    {
      InNoChain(hash, bucket, link, data, chains, slot);
      ChainsFrame(hash, bucket, link, data, chains, slot, DELMARK, FreeLink(freeHead));
      FreePush(freeHead, link, data, free, slot);
      link := link[slot := DELMARK];
      data := data[slot := FreeLink(freeHead)];
      freeSize := freeSize + 1;
      freeHead := slot;
      free := [slot] + free;
      unlinked := unlinked - {slot};
      if !reuse {
        return;
      }
      if autoGc && freeSize > |data| / 2 {
        var _ := RevokeDeleted();
      }
    }

    method EraseI(idx: nat)
      requires Wf() && Linked(idx)
      modifies this
      ensures Settings() == old(Settings()) && maxload == old(maxload)
      ensures Wf() && |bucket| == old(|bucket|)
      ensures !(reuse && autoGc && old(freeSize) + 1 > old(|data|) / 2) ==>
        && data == old(data)[idx := FreeLink(old(freeHead))] && unlinked == old(unlinked)
        && freeSize == old(freeSize) + 1
      ensures reuse && autoGc && old(freeSize) + 1 > old(|data|) / 2 ==>
        && data == Sieve(old(data)[idx := FreeLink(old(freeHead))], KeepAll()) && unlinked == {}
    {
      RiskUnlink(idx);
      FastSlotFree(idx);
    }

    /** Walks the chain of `key` with a trailing pointer to the field that leads to it. */
    method FindWithPrev(key: K, i: nat) returns (prev: nat, curv: nat, ghost j: nat)
      requires Wf() && i == Home(hash, key, |bucket|)
      ensures curv == TAIL ==> forall s: nat :: Linked(s) ==> data[s].key != key
      ensures curv != TAIL ==> Linked(curv) && data[curv].key == key
      ensures curv != TAIL ==>
          j < |chains[i]| && curv == chains[i][j] && prev == if j == 0 then TAIL else chains[i][j - 1]
    {
      ghost var c := chains[i];
      assert IsChain(bucket[i], c, link);
      assert Placed(hash, data, c, i, |chains|);
      j := 0;
      prev, curv := TAIL, bucket[i];
      while curv != TAIL && data[curv].key != key
        invariant 0 <= j <= |c|
        invariant curv == if j < |c| then c[j] else TAIL
        invariant curv != TAIL ==> curv in c
        invariant prev == if j == 0 then TAIL else c[j - 1]
        invariant forall m :: 0 <= m < j ==> data[c[m]].key != key
        decreases |c| - j
      {
        prev, curv := curv, link[curv];
        j := j + 1;
      }
    }

    /** Erasing by key: unhooks the slot that the search stopped at. */
    method Erase(key: K) returns (erased: nat)
      requires Valid()
      modifies this
      ensures Valid()
      ensures erased == (if key in old(Model()) then 1 else 0)
      ensures Model() == old(Model()) - {key}
      ensures |data| <= old(|data|)
      ensures !(reuse && autoGc) ==> forall s: nat :: s < old(|data|) && old(data[s].Elem? && data[s].key != key) ==>
        s < |data| && data[s] == old(data[s])
    {
      hide Sieve, ChainsOk, FreeOk, SlotsOk, MaxLoad;
      var i := Home(hash, key, |bucket|);
      var prev, curv, j := FindWithPrev(key, i);
      if curv == TAIL {
        return 0;
      }
      TakeCell(data, curv, freeHead);
      CompactionKeepsMap(data[curv := FreeLink(freeHead)]);
      Unhook(i, prev, curv, j);
      FastSlotFree(curv);
      return 1;
    }

    method KeepidEraseIf(pred: (K, V) -> bool) returns (erased: nat)
      requires Valid() && !(reuse && autoGc)
      modifies this
      ensures Settings() == old(Settings())
      ensures Valid() && |data| == old(|data|)
      ensures Model() == Restricted(old(Model()), Unless(pred))
      ensures forall s: nat :: s < |data| && data[s].Elem? ==> data[s] == old(data[s])
      ensures freeSize == old(freeSize) + erased
    {
      var n, allLive := |data|, freeSize == 0;
      erased := 0;
      var i := 0;
      while i < n
        invariant 0 <= i <= n == |data| == old(|data|)
        invariant Wf() && unlinked == {} && Settings() == old(Settings())
        invariant freeSize == old(freeSize) + erased
        invariant forall s: nat :: i <= s < n ==>
            data[s].FreeLink? == old(data[s].FreeLink?) && (data[s].Elem? ==> data[s] == old(data[s]))
        invariant forall s: nat :: s < i ==>
            if Keeps(Unless(pred), old(data[s])) then data[s] == old(data[s]) else data[s].FreeLink?
      {
        if (allLive || link[i] != DELMARK) && pred(data[i].key, data[i].val) {
          EraseI(i);
          erased := erased + 1;
        }
        i := i + 1;
      }
      ErasedInPlace(old(data), data, Unless(pred));
    }

    /** Compaction and erasure in one pass over the node array; links are left stale. */
    method EraseIfImpl(pred: (K, V) -> bool) returns (erased: nat)
      requires Marked()
      modifies this`link, this`data, this`freeHead, this`freeSize, this`free
      ensures data == Sieve(old(data), Unless(pred)) && |link| == |data|
      ensures forall s: nat :: s < |data| ==> data[s].Elem?
      ensures if old(freeSize) > 0 then freeHead == TAIL && freeSize == 0 && free == []
        else freeHead == old(freeHead) && freeSize == 0 && free == old(free)
      ensures |data| == old(|data|) ==> link == old(link) && data == old(data) && old(freeSize) == 0
    {
      ghost var d0 := data;
      if freeSize > 0 {
        var _ := RevokeDeletedNoRelink();
        SieveIsLive(d0, KeepAll());
      } else {
        SieveAllLive(d0, KeepAll());
      }
      SieveTwice(d0, Unless(pred));
      var d := SqueezeSelected(data, pred);
      erased := |data| - |d|;
      SieveIsLive(d0, Unless(pred));
      if |d| == |d0| {
        SieveSameLength(d0, Unless(pred));
      }
      data, link := d, link[..|d|];
    }

    /** Erasure by predicate with slot reuse on: compaction, then a full relink. */
    method EraseIfCompact(pred: (K, V) -> bool) returns (erased: nat)
      requires Wf() && unlinked == {}
      modifies this
      ensures Wf() && unlinked == {}
      ensures data == Sieve(old(data), Unless(pred))
    {
      hide ChainsOk, SlotsOk, Sieve, Contents, UniqueKeys;
      var oldElem := |data|;
      WfIsMarked();
      erased := EraseIfImpl(pred);
      if erased > 0 && |data| == 0 {
        Init();
      }
      if |data| != oldElem {
        if |data| > 0 {
          FreeOkEmpty(link, data);
        }
        Relink();
      }
    }

    /** Erases by predicate, compacting the node array (indexes change) unless slot
        reuse is off, in which case the survivors keep their indexes. */
    method EraseIf(pred: (K, V) -> bool) returns (erased: nat)
      requires Valid()
      modifies this
      ensures Valid()
      ensures Model() == Restricted(old(Model()), Unless(pred))
      ensures |data| <= old(|data|)
      ensures old(reuse) ==> data == Sieve(old(data), Unless(pred))
      ensures !old(reuse) ==> |data| == old(|data|)
      ensures !old(reuse) ==> forall s: nat :: s < |data| && data[s].Elem? ==> data[s] == old(data[s])
    {
      if !reuse {
        erased := KeepidEraseIf(pred);
      } else {
        SieveContents(data, Unless(pred));
        erased := EraseIfCompact(pred);
      }
    }

    method EraseAll()
      requires Valid()
      modifies this
      ensures Valid() && Model() == map[] && data == []
      ensures maxElem == old(maxElem) && loadFactor == old(loadFactor)
    {
      if |data| > freeSize {
        bucket := seq(|bucket|, _ => TAIL);
      } else {
        AllFree(hash, bucket, link, data, chains, free);
      }
      if freeHead < DELMARK {
        freeHead, freeSize := TAIL, 0;
      }
      data, link := [], [];
      chains, free := seq(|bucket|, _ => []), [];
    }

    method SetLoadFactor(lf: nat)
      requires Valid() && 10 <= lf <= 255
      modifies this`loadFactor, this`maxload
      ensures Valid() && Model() == old(Model()) && loadFactor == lf
    {
      loadFactor := lf;
      maxload := if |bucket| == 1 then 0 else MaxLoad(|bucket|, loadFactor);
    }

    /** Writing the value part of a constructed slot. */
    method WriteVal(idx: nat, v: V)
      requires Wf() && idx < |data| && data[idx].Elem?
      modifies this
      ensures Settings() == old(Settings()) && maxload == old(maxload) && |bucket| == old(|bucket|)
      ensures freeHead == old(freeHead) && freeSize == old(freeSize) && unlinked == old(unlinked)
      ensures Wf()
      ensures data == old(data)[idx := Elem(old(data[idx].key), v)]
    {
      SameKeysKeepChains(hash, bucket, link, data, chains, idx, v);
      data := data[idx := Elem(data[idx].key, v)];
    }

    /** What the source checks of its callers and of itself. */
    ghost predicate Allowed(op: Op<K, V>)
      reads this
      requires Valid()
    {
      match op
      case Insert(k, _) => k in Model() || HasRoom()
      case Reserve(n) => |data| <= n <= DELMARK
      case RemoveKeepingIds(_) => !(reuse && autoGc)
      case SetLoad(lf) => 10 <= lf <= 255
      case _ => true
    }

    /** Any run of table operations, up to the first that is not allowed, answers as the
        finite map does. */
    method Run(ops: seq<Op<K, V>>) returns (n: nat, answers: seq<Answer<V>>)
      requires Valid()
      modifies this
      ensures Valid() && n <= |ops| && (Model(), answers) == SpecRun(old(Model()), ops[..n])
      ensures n < |ops| ==> !Allowed(ops[n])
    {
      n, answers := 0, [];
      while n < |ops|
        invariant n <= |ops| && Valid() && (Model(), answers) == SpecRun(old(Model()), ops[..n])
      {
        assert ops[..n + 1][..n] == ops[..n];
        var ok, answer := Perform(ops[n]);
        if !ok {
          return;
        }
        answers := answers + [answer];
        n := n + 1;
      }
    }

    method Perform(op: Op<K, V>) returns (ok: bool, answer: Answer<V>)
      requires Valid()
      modifies this
      ensures Valid() && (ok <==> old(Allowed(op)))
      ensures ok ==> (Model(), answer) == SpecStep(old(Model()), op)
      ensures !ok ==> Model() == old(Model()) && !Allowed(op)
    {
      hide Contents, UniqueKeys, Wf;
      ok, answer := true, Done;
      match op
      case Insert(k, v) =>
        ok, answer := TryInsert(k, v);
      case Lookup(k) =>
        answer := Lookup(k);
      case Remove(k) =>
        var n := Erase(k);
        answer := Erased(n);
      case RemoveIf(p) =>
        var n := EraseIf(p);
      case RemoveKeepingIds(p) =>
        ok := !(reuse && autoGc);
        if ok {
          var n := KeepidEraseIf(p);
        }
      case SetLoad(lf) =>
        ok := 10 <= lf <= 255;
        if ok {
          SetLoadFactor(lf);
        }
      case Rehash(n) =>
        var nb := Rehash(n);
      case Reserve(n) =>
        ok := |data| <= n <= DELMARK;
        if ok {
          Reserve(n);
        }
      case Compact =>
        CompactTable();
      case Clear =>
        EraseAll();
      case SetAutoGc(on) =>
        Set(on, reuse);
      case SetReuse(on) =>
        Set(autoGc, on);
    }

    /** Inserts if the key is there or a slot can be had. */
    method TryInsert(k: K, v: V) returns (ok: bool, answer: Answer<V>)
      requires Valid()
      modifies this
      ensures Valid() && (ok <==> old(k in Model() || HasRoom()))
      ensures ok ==> (Model(), answer) == SpecStep(old(Model()), Op.Insert(k, v))
      ensures !ok ==> Model() == old(Model()) && k !in Model() && !HasRoom()
    {
      var idx := Find(k);
      assert idx < |data| ==> Visible(data, {}, idx);
      ok, answer := idx < |data| || (freeSize > 0 && reuse) || |data| < maxElem || 2 * |data| <= DELMARK, Done;
      if ok {
        var slot, inserted := LazyInsert(k, v);
        answer := Got(inserted, data[slot].val);
      }
    }

    method Lookup(k: K) returns (answer: Answer<V>)
      requires Valid()
      ensures answer == SpecStep(Model(), Op.Lookup(k)).1
    {
      var idx := Find(k);
      if idx < |data| {
        assert Visible(data, {}, idx);
        return Got(true, data[idx].val);
      }
      return Done;
    }

    method CompactTable()
      requires Valid()
      modifies this
      ensures Valid() && Model() == old(Model())
    {
      CompactionKeepsMap(data);
      var n := RevokeDeleted();
    }

    method Set(autoGc: bool, reuse: bool)
      requires Valid()
      modifies this`autoGc, this`reuse
      ensures Valid() && Model() == old(Model()) && this.autoGc == autoGc && this.reuse == reuse
    {
      this.autoGc, this.reuse := autoGc, reuse;
    }
  }
}
