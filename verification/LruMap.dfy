/** `lru_map_impl` over `gold_hash_map`. Each method is one section that runs under the
    lock, or the one store that does not need it; the ghost field `st` is the abstract
    state, and every contract says which step of the state machine the section takes. */
module LruMap {
  import opened Basics
  import opened HashSizing
  import opened HashChains
  import opened HashSlots
  import opened HashBuckets
  import opened GoldHashTab
  import opened LruProtocol
  import opened LruRing
  import opened LruCoupling
  import opened LruLoad

  /** What a lookup tells its caller; `Start` is a fresh slot to solve and `Busy` a
      victim to evict first. At `Stuck` the source stops: full, and nothing to evict. */
  datatype Outcome = Miss | FailedSeen | Wait(idx: nat) | Found(idx: nat) | Start(idx: nat) | Busy(victim: nat) | Stuck

  ghost predicate Takes<K, V>(a: State<K, V>, l: Label<K, V>, b: State<K, V>) {
    Enabled(a, l) && b == Apply(a, l)
  }

  /** The step of the state machine that an outcome stands for. */
  ghost predicate Took<K, V>(a: State<K, V>, b: State<K, V>, c: nat, k: K, r: Outcome) {
    match r
    case Miss => b == a && Absent(a, k)
    case FailedSeen => b == a && exists s :: Finds(a, k, s) && a.slots[s].phase == Failed
    case Wait(i) => Takes(a, Join(c, k, i), b)
    case Found(i) => Takes(a, Hit(c, k, i), b)
    case Start(i) => Takes(a, LruProtocol.Insert(c, k, i), b)
    case Busy(v) => Takes(a, StartEvict(c, k), b) && v == Last(a.ring)
    case Stuck => b == a && Absent(a, k) && |a.slots| >= a.cap && a.ring == []
  }

  lemma TakesJoin<K, V>(a: State<K, V>, c: nat, k: K, s: nat)
    requires c !in a.clients && Finds(a, k, s) && a.slots[s].phase == InProgress
    ensures Took(a, AfterJoin(a, c, s), c, k, Wait(s))
  {
  }

  lemma TakesHit<K, V>(a: State<K, V>, c: nat, k: K, s: nat)
    requires c !in a.clients && Finds(a, k, s) && (a.slots[s].phase == InRing || a.slots[s].phase == Pinned)
    ensures Took(a, AfterHit(a, c, s), c, k, Found(s))
  {
  }

  lemma TakesInsert<K, V>(a: State<K, V>, c: nat, k: K, s: nat)
    requires c !in a.clients && Absent(a, k) && |a.slots| < a.cap && s !in a.slots && s < a.cap
    ensures Took(a, AfterInsert(a, c, k, s), c, k, Start(s))
  {
  }

  lemma TakesStartEvict<K, V>(a: State<K, V>, c: nat, k: K)
    requires c !in a.clients && Absent(a, k) && |a.slots| >= a.cap && a.ring != [] && Last(a.ring) in a.slots
    ensures Took(a, AfterStartEvict(a, c, k), c, k, Busy(Last(a.ring)))
  {
  }

  lemma TakesStuck<K, V>(a: State<K, V>, c: nat, k: K)
    requires Absent(a, k) && |a.slots| >= a.cap && a.ring == []
    ensures Took(a, a, c, k, Stuck)
  {
  }

  lemma TakesEvict<K, V>(a: State<K, V>, c: nat, s: nat)
    requires c in a.clients && a.clients[c].EvictingFor? && s < a.cap && (s !in a.slots || s == a.clients[c].victim)
    ensures Takes(a, InsertAfterEvict(c, s), AfterEvict(a, c, s))
  {
  }

  /** The steps of a client that refers to a slot. */
  lemma TakesOwn<K, V>(a: State<K, V>, c: nat, s: nat)
    requires c in a.clients && Refers(a.clients[c], s) && s in a.slots && a.slots[s].ref > 0
    ensures a.clients[c].Solving? ==> forall ok, v :: Takes(a, Solve(c, ok, v), AfterSolve(a, c, ok, v))
    ensures a.clients[c].Waiting? && (a.slots[s].phase == Pinned || a.slots[s].phase == Failed) ==>
        Takes(a, Observe(c), AfterObserve(a, c))
    ensures a.clients[c].Failing? ==> Takes(a, DropFailed(c), AfterDropFailed(a, c))
    ensures a.clients[c].Holding? ==> Takes(a, LruProtocol.Release(c), AfterRelease(a, c))
  {
  }

  /** What the invariant says of a client's slot. */
  lemma OwnSlot<K, V>(a: State<K, V>, c: nat)
    requires Inv(a) && c in a.clients && !a.clients[c].EvictingFor?
    ensures var s := a.clients[c].slot;
      && s in a.slots && s !in a.ring && a.slots[s].ref > 0 && a.slots[s].phase != Evicting && Shown(a, s)
      && (a.clients[c].Solving? ==> a.slots[s].phase == InProgress)
      && (a.clients[c].Failing? ==> a.slots[s].phase == Failed)
      && (a.clients[c].Holding? ==> a.slots[s].phase == Pinned)
      && (a.clients[c].Waiting? && a.slots[s].phase != InProgress ==>
            a.slots[s].phase == Pinned || a.slots[s].phase == Failed)
      && Entries(a) && ClientsAt(a, c)
  {
    assert ClientOk(a, c) && EntryOk(a, a.clients[c].slot);
    HolderExists(a, a.clients[c].slot, c);
  }

  ghost function EvictSet<K, V>(st: State<K, V>): set<nat> {
    set s | s in st.slots && st.slots[s].phase == Evicting
  }

  /** A default table with room for `cap` elements. */
  method Reserved<K(==), W>(hash: K -> nat, cap: nat) returns (t: Table<K, W>)
    requires 0 < cap <= DELMARK
    ensures fresh(t) && t.Wf() && t.data == [] && t.freeSize == 0 && t.unlinked == {}
    ensures t.reuse && !t.autoGc && |t.bucket| > 1 && t.maxElem == cap
    ensures t.loadFactor == DEFAULT_LOAD_FACTOR && OnTheWay(cap, |t.bucket|, 0)
    ensures |t.bucket| == Chosen(cap) && t.maxload == Limit(|t.bucket|)
  {
    t := new Table<K, W>(hash);
    t.Reserve(cap);
    StageStart(cap);
  }

  class Lru<K(==), V> {
    const tab: Table<K, Node<V>>
    var head: nat
    var len: nat
    var numEvicting: nat
    ghost var st: State<K, V>

    ghost predicate Shaped()
      reads this, tab
    {
      && tab.Wf() && tab.reuse && !tab.autoGc && |tab.bucket| > 1
      && tab.maxElem == st.cap && Roomy(st.cap) && tab.loadFactor == DEFAULT_LOAD_FACTOR
      && OnTheWay(st.cap, |tab.bucket|, |st.slots|) && (st.cap <= tab.maxload || EvictSet(st) == {})
      && tab.unlinked == EvictSet(st)
      && |tab.data| - tab.freeSize == |st.slots|
      && Coupled(tab.data, st)
      && head == HeadOf(st.ring) && len == |st.ring|
      && numEvicting == |EvictSet(st)|
    }

    ghost predicate Valid()
      reads this, tab
    {
      Shaped() && Inv(st)
    }

    /** For the capacities at which the load limit covers the full table; see
        `RoomyExactly` and `VictimComesBack`. */
    constructor (hash: K -> nat, cap: nat)
      requires 2 < cap && Roomy(cap)
      ensures Valid() && st == State(cap, map[], [], map[], 0, map[])
      ensures fresh(tab)
    {
      var t := Reserved(hash, cap);
      tab := t;
      head, len, numEvicting := NO_HEAD, 0, 0;
      st := State(cap, map[], [], map[], 0, map[]);
    }

    /** The parts of the table that list surgery leaves alone. */
    ghost function TabRest(): ((nat, nat, bool, bool), nat, int, nat, nat, set<nat>)
      reads tab
    {
      (tab.Settings(), tab.maxload, |tab.bucket|, tab.freeHead, tab.freeSize, tab.unlinked)
    }

    /** `insert_as_new_head`. */
    method InsertAsNewHead(slot: nat)
      requires tab.Wf() && |tab.data| < NO_HEAD && IsNode(tab.data, slot)
      requires head != NO_HEAD ==> IsNode(tab.data, head) && IsNode(tab.data, tab.data[head].val.prev)
      modifies this`head, this`len, tab
      ensures tab.Wf() && tab.data == old(Pushed(tab.data, head, slot)) && |tab.data| == old(|tab.data|)
      ensures head == slot && len == old(len) + 1 && TabRest() == old(TabRest())
    {
      if head == NO_HEAD {
        tab.WriteVal(slot, tab.data[slot].val.(next := slot));
        tab.WriteVal(slot, tab.data[slot].val.(prev := slot));
      } else {
        var h := head;
        var tail := tab.data[h].val.prev;
        tab.WriteVal(slot, tab.data[slot].val.(next := h));
        tab.WriteVal(slot, tab.data[slot].val.(prev := tail));
        tab.WriteVal(tail, tab.data[tail].val.(next := slot));
        tab.WriteVal(h, tab.data[h].val.(prev := slot));
      }
      head := slot;
      len := len + 1;
    }

    /** `remove_node`. */
    method RemoveNode(slot: nat)
      requires tab.Wf() && IsNode(tab.data, slot) && len > 0
      requires IsNode(tab.data, tab.data[slot].val.prev) && IsNode(tab.data, tab.data[slot].val.next)
      modifies this`head, this`len, tab
      ensures tab.Wf() && tab.data == old(Removed(tab.data, slot)) && |tab.data| == old(|tab.data|)
      ensures IsNode(tab.data, slot) && TabRest() == old(TabRest())
      ensures len == old(len) - 1
      ensures head == if slot != old(head)
          then old(head) else if old(len) == 1 then NO_HEAD else old(tab.data[slot].val.next)
    {
      var prev, next := tab.data[slot].val.prev, tab.data[slot].val.next;
      tab.WriteVal(prev, tab.data[prev].val.(next := next));
      tab.WriteVal(next, tab.data[next].val.(prev := prev));
      if slot == head {
        if len == 1 {
          head := NO_HEAD;
        } else {
          head := next;
        }
      }
      tab.WriteVal(slot, tab.data[slot].val.(prev := SOLVE_DONE));
      tab.WriteVal(slot, tab.data[slot].val.(next := SOLVE_DONE));
      len := len - 1;
    }

    /** A slot that the table shows is one that the state machine shows. */
    lemma ShownIsLinked(s: nat)
      requires Shaped()
      ensures tab.Linked(s) <==> Shown(st, s)
    {
    }

    /** The head pointer and the neighbours of a ring node. */
    lemma RingHead(s: nat)
      requires Shaped() && s in st.ring
      ensures IsNode(tab.data, s) && IsNode(tab.data, tab.data[s].val.prev) && IsNode(tab.data, tab.data[s].val.next)
      ensures len > 0 && head < NO_HEAD
      ensures HeadOf(Drop(st.ring, s)) == if s != head then head else if len == 1 then NO_HEAD else tab.data[s].val.next
      ensures |Drop(st.ring, s)| == len - 1
    {
      var j := Position(st.ring, s);
      RemoveLinks(tab.data, st.ring, j);
      assert tab.data[st.ring[j]].val.next == RingNext(st.ring, j);
    }

    /** Replacing the abstract state by one with the same slots and victims. */
    ghost predicate SameSlots(a: State<K, V>, b: State<K, V>) {
      a.cap == b.cap && |a.slots| == |b.slots| && EvictSet(a) == EvictSet(b)
    }

    lemma UpdateKeepsSlots(a: State<K, V>, b: State<K, V>, s: nat)
      requires s in a.slots && s in b.slots && b.slots == a.slots[s := b.slots[s]] && a.cap == b.cap
      requires a.slots[s].phase != Evicting && b.slots[s].phase != Evicting
      ensures SameSlots(a, b)
    {
      assert a.slots.Keys == b.slots.Keys;
    }

    lemma NodeOf(s: nat)
      requires Shaped() && s in st.slots
      ensures IsNode(tab.data, s) && Matches(tab.data[s], st.slots[s])
    {
    }

    method AddRef(ghost c: nat, idx: nat)
      requires Shaped() && idx in st.slots && st.slots[idx].phase == InProgress && idx !in st.ring
      modifies this`st, tab
      ensures Shaped() && st == old(AfterJoin(st, c, idx))
    {
      hide Table.Wf, Coupled;
      NodeOf(idx);
      tab.WriteVal(idx, tab.data[idx].val.(refcnt := tab.data[idx].val.refcnt + 1));
      st := AfterJoin(st, c, idx);
      CoupledJoin(old(tab.data), old(st), c, idx, tab.data, st);
      UpdateKeepsSlots(old(st), st, idx);
    }

    method AddPin(ghost c: nat, idx: nat)
      requires Shaped() && idx in st.slots && st.slots[idx].phase == Pinned && idx !in st.ring
      modifies this`st, tab
      ensures Shaped() && st == old(AfterHit(st, c, idx))
    {
      hide Table.Wf, Coupled;
      NodeOf(idx);
      tab.WriteVal(idx, tab.data[idx].val.(refcnt := tab.data[idx].val.refcnt + 1));
      st := AfterHit(st, c, idx);
      CoupledPinnedHit(old(tab.data), old(st), c, idx, tab.data, st);
      UpdateKeepsSlots(old(st), st, idx);
    }

    /** An unpinned entry leaves the ring and gets its first reference. */
    method Repin(ghost c: nat, idx: nat)
      requires Shaped() && Entries(st) && idx in st.slots && st.slots[idx].phase == InRing && idx in st.ring
      modifies this`st, this`head, this`len, tab
      ensures Shaped() && st == old(AfterHit(st, c, idx))
    {
      hide Table.Wf, Coupled, Entries, Removed;
      RingHead(idx);
      RemoveNode(idx);
      ghost var d1 := tab.data;
      tab.WriteVal(idx, tab.data[idx].val.(refcnt := tab.data[idx].val.refcnt + 1));
      st := AfterHit(st, c, idx);
      CoupledRingHit(old(tab.data), old(st), c, idx, d1, tab.data, st);
      UpdateKeepsSlots(old(st), st, idx);
    }

    /** The tests on a found node, and where it stands. */
    lemma EntryFacts(idx: nat)
      requires Valid() && Shown(st, idx)
      ensures IsNode(tab.data, idx) && Entries(st)
      ensures tab.data[idx].val.next == IN_PROGRESS <==> st.slots[idx].phase == InProgress
      ensures tab.data[idx].val.next == SOLVE_FAIL <==> st.slots[idx].phase == Failed
      ensures tab.data[idx].val.next == SOLVE_DONE <==> st.slots[idx].phase == Pinned
      ensures tab.data[idx].val.refcnt == 0 <==> st.slots[idx].phase == InRing
      ensures idx in st.ring <==> st.slots[idx].phase == InRing
    {
      TagsDecode(tab.data, st, idx);
      assert EntryOk(st, idx);
    }

    /** What both `lru_get` and `lru_add` do with an entry they found. */
    method Acquire(ghost c: nat, ghost k: K, idx: nat) returns (r: Outcome)
      requires Valid() && c !in st.clients && Finds(st, k, idx)
      modifies this`st, this`head, this`len, tab
      ensures Valid()
      ensures Took(old(st), st, c, k, r) && (r.FailedSeen? || r.Wait? || r.Found?)
    {
      hide Table.Wf, Coupled, Inv, Takes, EvictSet, Entries;
      EntryFacts(idx);
      if tab.data[idx].val.next == IN_PROGRESS {
        JoinKeeps(st, c, idx);
        TakesJoin(st, c, k, idx);
        AddRef(c, idx);
        r := Wait(idx);
      } else if tab.data[idx].val.next == SOLVE_FAIL {
        r := FailedSeen;
      } else {
        HitKeeps(st, c, idx);
        TakesHit(st, c, k, idx);
        if tab.data[idx].val.refcnt == 0 {
          Repin(c, idx);
        } else {
          AddPin(c, idx);
        }
        r := Found(idx);
      }
    }

    /** The locked part of `lru_get`. */
    method Get(ghost c: nat, k: K) returns (r: Outcome)
      requires Valid() && c !in st.clients
      modifies this`st, this`head, this`len, tab
      ensures Valid()
      ensures Took(old(st), st, c, k, r) && !r.Start? && !r.Busy?
    {
      hide Table.Wf, Coupled, Inv, EvictSet;
      var idx := Locate(k);
      if idx == |tab.data| {
        return Miss;
      }
      r := Acquire(c, k, idx);
    }

    /** The table lookup, read as a lookup in the state machine. */
    method Locate(k: K) returns (idx: nat)
      requires Shaped()
      ensures idx <= |tab.data|
      ensures idx < |tab.data| ==> Finds(st, k, idx)
      ensures idx == |tab.data| ==> Absent(st, k)
    {
      idx := tab.Find(k);
      if idx == |tab.data| {
        forall s | s in st.slots ensures !Finds(st, k, s) {
          ShownIsLinked(s);
        }
      } else {
        ShownIsLinked(idx);
      }
    }

    /** The locked part of `lru_add` up to the insertion or to the unlock for eviction. */
    method Add(ghost c: nat, k: K) returns (r: Outcome)
      requires Valid() && c !in st.clients
      modifies this, tab
      ensures Valid()
      ensures Took(old(st), st, c, k, r) && !r.Miss?
    {
      hide Table.Wf, Coupled, Inv, Took, EvictSet;
      var idx := Locate(k);
      if idx < |tab.data| {
        r := Acquire(c, k, idx);
      } else {
        r := AddAbsent(c, k);
      }
    }

    /** `lazy_insert_i` with `evict_on_full`, once the lookup has failed. */
    method AddAbsent(ghost c: nat, k: K) returns (r: Outcome)
      requires Valid() && c !in st.clients && Absent(st, k)
      modifies this, tab
      ensures Valid()
      ensures Took(old(st), st, c, k, r) && (r.Start? || r.Busy? || r.Stuck?)
    {
      hide Table.Wf, Coupled, Took, EvictSet, Entries, Clients, Exclusive, Attended;
      if |tab.data| - tab.freeSize >= tab.maxElem {
        if head == NO_HEAD {
          NoHead();
          TakesStuck(st, c, k);
          return Stuck;
        }
        LastShown();
        FullCovers();
        StartEvictKeeps(st, c, k);
        TakesStartEvict(st, c, k);
        var victim := EvictLeastRecent(c, k);
        r := Busy(victim);
      } else {
        var slot := InsertNew(c, k);
        IdleInsertKeeps(old(st), c, k, slot);
        TakesInsert(old(st), c, k, slot);
        r := Start(slot);
      }
    }

    lemma NoHead()
      requires Shaped() && |st.slots| >= st.cap && head == NO_HEAD
      ensures st.ring == []
    {
      if st.ring != [] {
        TailOfHead();
        TabFacts();
      }
    }

    /** A full cache has a load limit that covers it. */
    lemma FullCovers()
      requires Shaped() && |st.slots| >= st.cap
      ensures |st.slots| == st.cap <= tab.maxload
    {
      TabFacts();
      StageFull(st.cap, |tab.bucket|);
    }

    lemma LastShown()
      requires Valid() && st.ring != []
      ensures Last(st.ring) in st.ring && Last(st.ring) in st.slots && st.slots[Last(st.ring)].phase == InRing
    {
      assert Last(st.ring) == st.ring[|st.ring| - 1];
      assert EntryOk(st, Last(st.ring));
    }

    /** `evict_least_recent` up to the unlock. */
    method EvictLeastRecent(ghost c: nat, ghost k: K) returns (victim: nat)
      requires Shaped() && Entries(st) && st.ring != [] && c !in st.clients && st.cap <= tab.maxload
      requires Last(st.ring) in st.ring && Last(st.ring) in st.slots && st.slots[Last(st.ring)].phase == InRing
      modifies this, tab
      ensures Shaped() && victim == old(Last(st.ring)) && st == old(AfterStartEvict(st, c, k))
    {
      hide Table.Wf, Coupled, Entries, Removed, EvictSet;
      TailOfHead();
      victim := tab.data[head].val.prev;
      RingHead(victim);
      ShownIsLinked(victim);
      RemoveNode(victim);
      ghost var d1 := tab.data;
      tab.WriteVal(victim, tab.data[victim].val.(prev := IN_PROGRESS));
      tab.RiskUnlink(victim);
      numEvicting := numEvicting + 1;
      st := AfterStartEvict(st, c, k);
      CoupledStartEvict(old(tab.data), old(st), c, k, victim, d1, tab.data, st);
      EvictCounts(old(st), st, c, k, victim);
    }

    lemma EvictCounts(a: State<K, V>, b: State<K, V>, c: nat, k: K, v: nat)
      requires a.ring != [] && v == Last(a.ring) && v in a.slots && a.slots[v].phase == InRing
        && b == AfterStartEvict(a, c, k)
      requires NoDup(a.ring)
      ensures |b.slots| == |a.slots| && EvictSet(b) == EvictSet(a) + {v} && |EvictSet(b)| == |EvictSet(a)| + 1
      ensures b.ring == Drop(a.ring, v) && b.cap == a.cap
    {
      DropLast(a.ring);
      assert b.slots.Keys == a.slots.Keys;
    }

    lemma TailOfHead()
      requires Shaped() && st.ring != []
      ensures head < |tab.data| && IsNode(tab.data, head) && tab.data[head].val.prev == Last(st.ring)
      ensures NoDup(st.ring)
    {
      assert tab.data[st.ring[0]].val.prev == RingPrev(st.ring, 0);
    }

    /** The insertion proper. A slot is left, so it does not grow the nodes. It rehashes only
        while no victim is unlinked: a rehash would hook it in again. */
    method InsertNew(ghost c: nat, k: K) returns (slot: nat)
      requires Shaped() && RingOk(st) && |st.slots| < st.cap
      modifies this`st, tab
      ensures Shaped() && st == old(AfterInsert(st, c, k, slot))
      ensures slot !in old(st.slots) && slot < st.cap
      ensures tab.unlinked == old(tab.unlinked) && (tab.unlinked != {} ==> |tab.bucket| == old(|tab.bucket|))
    {
      hide Table.Wf, Coupled, OnTheWay, Roomy, EvictSet;
      TabFacts();
      CheckLoad();
      slot := tab.InsertOnNewSlot(k, Node(1, IN_PROGRESS, IN_PROGRESS, None), Home(tab.hash, k, |tab.bucket|));
      st := AfterInsert(st, c, k, slot);
      NotThere(old(tab.data), old(st), slot);
      CoupledInsert(old(tab.data), tab.data, old(st), c, k, slot, st);
      InsertCounts(old(st), st, c, k, slot);
      TabFacts();
    }

    /** The load check of an insertion. */
    method CheckLoad()
      requires Shaped() && |st.slots| < st.cap
      modifies tab`bucket, tab`link, tab`chains, tab`unlinked, tab`maxload
      ensures tab.Wf() && |tab.bucket| > 1 && tab.unlinked == old(tab.unlinked)
      ensures tab.unlinked != {} ==> |tab.bucket| == old(|tab.bucket|)
      ensures OnTheWay(st.cap, |tab.bucket|, |st.slots| + 1) && (st.cap <= tab.maxload || EvictSet(st) == {})
    {
      hide Table.Wf, Coupled, OnTheWay, Roomy, EvictSet;
      TabFacts();
      StageStep(st.cap, |tab.bucket|, |st.slots|);
      if |tab.data| - tab.freeSize >= tab.maxload {
        var nb := tab.Rehash(|tab.bucket| + 1);
      }
    }

    lemma TabFacts()
      requires tab.Wf()
      ensures |tab.data| <= tab.maxElem && tab.freeSize <= |tab.data|
      ensures |tab.bucket| > 1 ==> tab.maxload == MaxLoad(|tab.bucket|, tab.loadFactor)
    {
      NoDupFits(tab.free, |tab.data|);
    }

    lemma NotThere(data: Cells<K, V>, st: State<K, V>, slot: nat)
      requires Coupled(data, st) && (slot < |data| ==> data[slot].FreeLink?)
      ensures slot !in st.slots
    {
      assert !IsNode(data, slot);
    }

    lemma InsertCounts(a: State<K, V>, b: State<K, V>, c: nat, k: K, s: nat)
      requires s !in a.slots && b == AfterInsert(a, c, k, s)
      ensures |b.slots| == |a.slots| + 1 && EvictSet(b) == EvictSet(a)
    {
      PutCounts(a, b, s);
    }

    lemma PutCounts(a: State<K, V>, b: State<K, V>, s: nat)
      requires s !in a.slots && s in b.slots && b.slots == a.slots[s := b.slots[s]] && b.slots[s].phase != Evicting
      ensures |b.slots| == |a.slots| + 1 && EvictSet(b) == EvictSet(a)
    {
      assert b.slots.Keys == a.slots.Keys + {s};
    }

    /** Back under the lock after `lru_evict`: the victim is freed, and the insertion
        follows in the same section. */
    method FinishEvict(ghost c: nat, k: K, victim: nat) returns (slot: nat)
      requires Valid() && c in st.clients && st.clients[c] == EvictingFor(k, victim)
      modifies this, tab
      ensures Valid()
      ensures Takes(old(st), InsertAfterEvict(c, slot), st)
    {
      hide Table.Wf, Coupled, Inv, EvictSet, Takes;
      VictimFacts(c);
      FreeSlot(victim);
      slot := InsertNew(c, k);
      EvictKeeps(old(st), c, slot);
      TakesEvict(old(st), c, slot);
    }

    lemma VictimFacts(c: nat)
      requires Inv(st) && c in st.clients && st.clients[c].EvictingFor?
      ensures var v := st.clients[c].victim;
        && v in st.slots && st.slots[v].phase == Evicting && v !in st.ring
        && RingOk(st.(slots := st.slots - {v})) && |st.slots - {v}| < st.cap
    {
      FreeVictim(st, c);
      assert ClientOk(st, c) && EntryOk(st, st.clients[c].victim);
    }

    /** `risk_slot_free` of an evicted victim. */
    method FreeSlot(victim: nat)
      requires Shaped() && victim in st.slots && st.slots[victim].phase == Evicting && victim !in st.ring
      modifies this, tab
      ensures Shaped() && st == old(st).(slots := old(st.slots) - {victim})
    {
      hide Table.Wf, Coupled;
      assert victim in EvictSet(st);
      VictimNode(victim);
      ghost var next := tab.freeHead;
      tab.FastSlotFree(victim);
      numEvicting := numEvicting - 1;
      st := st.(slots := st.slots - {victim});
      CoupledFree(old(tab.data), old(st), victim, next, tab.data, st);
      GoneCounts(old(st), st, victim);
    }

    lemma GoneCounts(a: State<K, V>, b: State<K, V>, s: nat)
      requires s in a.slots && b.slots == a.slots - {s}
      ensures |b.slots| == |a.slots| - 1 && EvictSet(b) == EvictSet(a) - {s}
      ensures |EvictSet(b)| == |EvictSet(a)| - (if a.slots[s].phase == Evicting then 1 else 0)
    {
      assert a.slots.Keys == b.slots.Keys + {s};
    }

    lemma VictimNode(v: nat)
      requires Shaped() && v in st.slots
      ensures v < |tab.data|
    {
      assert IsNode(tab.data, v);
    }

    /** The store of `wake_solve`: outside the lock, by the only solver of the slot. */
    method Solved(ghost c: nat, slot: nat, ok: bool, v: V)
      requires Valid() && c in st.clients && st.clients[c] == Solving(slot)
      modifies this`st, tab
      ensures Valid()
      ensures Takes(old(st), Solve(c, ok, v), st)
    {
      hide Table.Wf, Coupled, Inv, EvictSet, Takes;
      OwnSlot(st, c);
      SolveKeeps(st, c, ok, v);
      TakesOwn(st, c, slot);
      StoreSolved(c, slot, ok, v);
    }

    method StoreSolved(ghost c: nat, slot: nat, ok: bool, v: V)
      requires Shaped() && c in st.clients && st.clients[c] == Solving(slot)
      requires slot in st.slots && slot !in st.ring && st.slots[slot].phase == InProgress
      modifies this`st, tab
      ensures Shaped() && st == old(AfterSolve(st, c, ok, v))
    {
      hide Table.Wf, Coupled;
      NodeOf(slot);
      tab.WriteVal(slot, tab.data[slot].val.(val := Some(v), next := if ok then SOLVE_DONE else SOLVE_FAIL));
      st := AfterSolve(st, c, ok, v);
      CoupledSolve(old(tab.data), old(st), c, ok, v, slot, tab.data, st);
      UpdateKeepsSlots(old(st), st, slot);
    }

    /** What a waiter sees once the solver has stored its result. */
    method Observed(ghost c: nat, slot: nat) returns (ok: bool)
      requires Valid() && c in st.clients && st.clients[c] == Waiting(slot)
      requires slot in st.slots && st.slots[slot].phase != InProgress
      modifies this`st
      ensures Valid()
      ensures Takes(old(st), Observe(c), st)
      ensures ok == st.clients[c].Holding?
    {
      hide Table.Wf, Coupled, Inv, EvictSet, Takes, Entries;
      OwnSlot(st, c);
      EntryFacts(slot);
      ok := tab.data[slot].val.next == SOLVE_DONE;
      ObserveKeeps(st, c);
      TakesOwn(st, c, slot);
      MoveOn(AfterObserve(st, c));
    }

    /** A step that only moves a client. */
    ghost method MoveOn(next: State<K, V>)
      requires Shaped() && next.slots == st.slots && next.ring == st.ring && next.cap == st.cap
      modifies this`st
      ensures Shaped() && st == next
    {
      hide Table.Wf;
      st := next;
    }

    /** Giving up a reference to a failed entry; the last one erases it. */
    method ReleaseFailed(ghost c: nat, slot: nat)
      requires Valid() && c in st.clients && st.clients[c] == Failing(slot)
      modifies this`st, tab
      ensures Valid()
      ensures Takes(old(st), DropFailed(c), st)
    {
      hide Table.Wf, Coupled, Inv, EvictSet, Takes, Entries;
      OwnSlot(st, c);
      HeadNodes(slot);
      DropFailedKeeps(st, c);
      TakesOwn(st, c, slot);
      if tab.data[slot].val.refcnt == 1 {
        EraseFailed(c, slot);
      } else {
        LessRef(slot, AfterDropFailed(st, c));
      }
    }

    method LessRef(slot: nat, ghost next: State<K, V>)
      requires Shaped() && slot in st.slots && slot !in st.ring && st.slots[slot].ref > 0
        && st.slots[slot].phase != Evicting
      requires next.slots == st.slots[slot := st.slots[slot].(ref := st.slots[slot].ref - 1)]
      requires next.ring == st.ring && next.cap == st.cap
      modifies this`st, tab
      ensures Shaped() && st == next
    {
      hide Table.Wf, Coupled;
      NodeOf(slot);
      tab.WriteVal(slot, tab.data[slot].val.(refcnt := tab.data[slot].val.refcnt - 1));
      st := next;
      CoupledLessRef(old(tab.data), old(st), slot, tab.data, st);
      UpdateKeepsSlots(old(st), st, slot);
    }

    lemma LastFailedRef(a: State<K, V>, c: nat)
      requires c in a.clients && a.clients[c].Failing? && a.clients[c].slot in a.slots
        && a.slots[a.clients[c].slot].ref == 1
      ensures var b := AfterDropFailed(a, c);
        b.slots == a.slots - {a.clients[c].slot} && b.ring == a.ring && b.cap == a.cap
    {
    }

    method EraseFailed(ghost c: nat, slot: nat)
      requires Shaped() && c in st.clients && st.clients[c] == Failing(slot)
      requires slot in st.slots && st.slots[slot].phase == Failed && slot !in st.ring && st.slots[slot].ref == 1
      modifies this`st, tab
      ensures Shaped() && st == old(AfterDropFailed(st, c))
    {
      hide Table.Wf, Coupled, OnTheWay, Roomy, EvictSet;
      VictimNode(slot);
      ShownIsLinked(slot);
      StageDown(st.cap, |tab.bucket|, |st.slots|);
      ghost var next := tab.freeHead;
      tab.EraseI(slot);
      LastFailedRef(st, c);
      hide AfterDropFailed;
      st := AfterDropFailed(st, c);
      CoupledFree(old(tab.data), old(st), slot, next, tab.data, st);
      GoneCounts(old(st), st, slot);
    }

    /** `lru_release`. */
    method Release(ghost c: nat, slot: nat)
      requires Valid() && c in st.clients && st.clients[c] == Holding(slot)
      modifies this`st, this`head, this`len, tab
      ensures Valid()
      ensures Takes(old(st), LruProtocol.Release(c), st)
    {
      hide Table.Wf, Coupled, Inv, EvictSet, Takes, Entries;
      OwnSlot(st, c);
      HeadNodes(slot);
      ReleaseKeeps(st, c);
      TakesOwn(st, c, slot);
      if tab.data[slot].val.refcnt == 1 {
        LastRelease(c, slot);
      } else {
        LessRef(slot, AfterRelease(st, c));
      }
    }

    method LastRelease(ghost c: nat, slot: nat)
      requires Shaped() && Entries(st) && c in st.clients && st.clients[c] == Holding(slot)
      requires slot in st.slots && st.slots[slot].phase == Pinned && slot !in st.ring && st.slots[slot].ref == 1
      modifies this`st, this`head, this`len, tab
      ensures Shaped() && st == old(AfterRelease(st, c))
    {
      hide Table.Wf, Coupled, Entries, Pushed;
      TabFacts();
      VictimNode(slot);
      HeadNodes(slot);
      tab.WriteVal(slot, tab.data[slot].val.(refcnt := tab.data[slot].val.refcnt - 1));
      ghost var d := tab.data;
      InsertAsNewHead(slot);
      st := AfterRelease(st, c);
      CoupledToRing(old(tab.data), old(st), slot, d, tab.data, st);
      UpdateKeepsSlots(old(st), st, slot);
    }

    /** Dropping a reference of a pinned slot leaves the ring's ends in place. */
    lemma HeadNodes(slot: nat)
      requires Shaped() && slot in st.slots && slot !in st.ring
      ensures IsNode(tab.data, slot) && tab.data[slot].val.refcnt == st.slots[slot].ref
      ensures st.ring != [] ==>
          head != NO_HEAD && head != slot && IsNode(tab.data, head) && IsNode(tab.data, tab.data[head].val.prev)
    {
      if st.ring != [] {
        TailOfHead();
        assert st.ring[0] in st.ring && st.ring[|st.ring| - 1] in st.ring;
      }
    }
  }

  /** The reserved table after as many insertions as its capacity. */
  method FilledTable<K(==), W>(hash: K -> nat, cap: nat, keys: nat -> K, w: W) returns (t: Table<K, W>)
    requires 0 < cap <= DELMARK
    ensures fresh(t) && t.Wf() && t.reuse && !t.autoGc && t.unlinked == {} && t.freeSize == 0
    ensures t.maxload == Limit(|t.bucket|) && |t.bucket| == Filled(cap, cap)
    ensures |t.data| == cap && forall i :: 0 <= i < cap ==> t.data[i] == Elem(keys(i), w)
  {
    hide Table.Wf, NextPrime, MaxLoad, OnTheWay;
    t := Reserved(hash, cap);
    var i := 0;
    while i < cap
      invariant i <= cap && fresh(t) && t.Wf() && t.reuse && !t.autoGc && t.unlinked == {} && t.freeSize == 0
      invariant t.maxElem == cap && t.loadFactor == DEFAULT_LOAD_FACTOR && |t.bucket| > 1
      invariant t.maxload == Limit(|t.bucket|) && |t.bucket| == Filled(cap, i)
      invariant |t.data| == i && forall j :: 0 <= j < i ==> t.data[j] == Elem(keys(j), w)
    {
      if |t.data| - t.freeSize >= t.maxload {
        var nb := t.Rehash(|t.bucket| + 1);
      }
      var slot := t.InsertOnNewSlot(keys(i), w, Home(t.hash, keys(i), |t.bucket|));
      i := i + 1;
    }
  }

  /** Two clients evict from a full table: each unlinks its victim, slots 0 and 1, and the first
      frees its slot and goes on to insert. The load check of that insertion makes the other
      victim visible again if and only if the capacity is one of the others. */
  method VictimComesBack<K(==), W>(hash: K -> nat, cap: nat, keys: nat -> K, w: W) returns (t: Table<K, W>)
    requires 2 <= cap <= DELMARK
    ensures t.Wf() && |t.data| - t.freeSize == cap - 1 && (t.Linked(1) <==> !Roomy(cap))
  {
    hide Table.Wf, NextPrime, MaxLoad, Roomy, Filled;
    t := FilledTable(hash, cap, keys, w);
    t.RiskUnlink(0);
    t.RiskUnlink(1);
    t.FastSlotFree(0);
    RoomyExactly(cap);
    if |t.data| - t.freeSize >= t.maxload {
      var nb := t.Rehash(|t.bucket| + 1);
    }
  }
}
