/** How the cache's nodes represent the state machine: reference counts, values, the
    solve state packed into `next`, and the ring. One lemma per step says that the field
    writes of the step take a representation of the old state to one of the new state. */
module LruCoupling {
  import opened Basics
  import opened HashChains
  import opened HashSlots
  import opened LruProtocol
  import opened LruRing

  /** What the link fields of a node say about its phase. */
  ghost predicate Tagged<V>(node: Node<V>, phase: Phase) {
    match phase
    case InRing => true
    case Pinned => node.next == SOLVE_DONE
    case InProgress => node.next == IN_PROGRESS
    case Failed => node.next == SOLVE_FAIL
    case Evicting => node.next == SOLVE_DONE && node.prev == IN_PROGRESS
  }

  ghost predicate Matches<K, V>(cell: Cell<K, Node<V>>, e: Entry<K, V>) {
    && cell.Elem? && cell.key == e.key && cell.val.refcnt == e.ref && cell.val.val == e.val
    && Tagged(cell.val, e.phase)
  }

  ghost predicate Coupled<K, V>(data: Cells<K, V>, st: State<K, V>) {
    && (forall s: nat :: s in st.slots <==> IsNode(data, s))
    && (forall s: nat :: s in st.slots ==> Matches(data[s], st.slots[s]))
    && RingLinked(data, st.ring)
  }

  /** The tests on `m_lru_next` tell the phases apart. */
  lemma TagsDecode<K, V>(data: Cells<K, V>, st: State<K, V>, s: nat)
    requires Coupled(data, st) && Entries(st) && |data| <= SOLVE_DONE && Shown(st, s)
    ensures IsNode(data, s)
    ensures data[s].val.next == IN_PROGRESS <==> st.slots[s].phase == InProgress
    ensures data[s].val.next == SOLVE_FAIL <==> st.slots[s].phase == Failed
    ensures data[s].val.next == SOLVE_DONE <==> st.slots[s].phase == Pinned
    ensures data[s].val.refcnt == 0 <==> st.slots[s].phase == InRing
  {
    assert EntryOk(st, s);
    if s in st.ring {
      var i :| 0 <= i < |st.ring| && st.ring[i] == s;
      assert data[st.ring[i]].val.next == RingNext(st.ring, i);
    }
  }

  /** Changing a node outside the ring leaves the ring's links alone. */
  lemma RingFrame<K, V>(data: Cells<K, V>, data': Cells<K, V>, ring: seq<nat>)
    requires RingLinked(data, ring)
    requires forall s :: s in ring ==>
        IsNode(data', s) && data'[s].val.next == data[s].val.next && data'[s].val.prev == data[s].val.prev
    ensures RingLinked(data', ring)
  {
    forall i | 0 <= i < |ring|
      ensures IsNode(data', ring[i]) && data'[ring[i]].val.next == RingNext(ring, i)
        && data'[ring[i]].val.prev == RingPrev(ring, i)
    {
      assert ring[i] in ring;
      assert data[ring[i]].val.next == RingNext(ring, i) && data[ring[i]].val.prev == RingPrev(ring, i);
    }
  }

  /** Two node arrays agree except on link fields. */
  ghost predicate SameButLinks<K, V>(d: Cells<K, V>, d': Cells<K, V>) {
    && |d'| == |d|
    && forall s: nat :: s < |d| ==>
      if d[s].Elem? then d'[s].Elem? && d'[s].key == d[s].key && d'[s].val.refcnt == d[s].val.refcnt
        && d'[s].val.val == d[s].val.val
      else d'[s] == d[s]
  }

  lemma RemovedFrame<K, V>(data: Cells<K, V>, ring: seq<nat>, j: nat)
    requires RingLinked(data, ring) && j < |ring|
    ensures IsNode(data, data[ring[j]].val.prev) && IsNode(data, data[ring[j]].val.next)
    ensures var d := Removed(data, ring[j]);
      && SameButLinks(data, d) && d[ring[j]].val.next == SOLVE_DONE && d[ring[j]].val.prev == SOLVE_DONE
      && forall s: nat :: s < |data| && s !in ring ==> d[s] == data[s]
  {
    RemoveLinks(data, ring, j);
    assert data[ring[j]].val.next == RingNext(ring, j) && data[ring[j]].val.prev == RingPrev(ring, j);
    assert RingNext(ring, j) in ring && RingPrev(ring, j) in ring;
  }

  lemma PushedFrame<K, V>(data: Cells<K, V>, ring: seq<nat>, slot: nat)
    requires RingLinked(data, ring) && slot < |data| < NO_HEAD && data[slot].Elem? && slot !in ring
    ensures |ring| > 0 ==> IsNode(data, data[ring[0]].val.prev)
    ensures var d := Pushed(data, HeadOf(ring), slot);
      && SameButLinks(data, d)
      && forall s: nat :: s < |data| && s !in ring && s != slot ==> d[s] == data[s]
  {
    if |ring| > 0 {
      assert data[ring[0]].val.prev == RingPrev(ring, 0);
      assert RingPrev(ring, 0) in ring;
    }
  }

  lemma CoupledJoin<K, V>(data: Cells<K, V>, st: State<K, V>, c: nat, s: nat, d: Cells<K, V>, st': State<K, V>)
    requires Coupled(data, st) && s in st.slots && s !in st.ring
    requires d == WithNode(data, s, data[s].val.(refcnt := data[s].val.refcnt + 1)) && st' == AfterJoin(st, c, s)
    ensures Coupled(d, st')
  {
    RingFrame(data, d, st.ring);
  }

  lemma CoupledPinnedHit<K, V>(data: Cells<K, V>, st: State<K, V>, c: nat, s: nat, d: Cells<K, V>, st': State<K, V>)
    requires Coupled(data, st) && s in st.slots && st.slots[s].phase == Pinned && s !in st.ring
    requires d == WithNode(data, s, data[s].val.(refcnt := data[s].val.refcnt + 1)) && st' == AfterHit(st, c, s)
    ensures Coupled(d, st')
  {
    RingFrame(data, d, st.ring);
  }

  /** Unthreading a ring node: the others keep what they say. */
  lemma CoupledUnring<K, V>(data: Cells<K, V>, st: State<K, V>, s: nat, d1: Cells<K, V>, d: Cells<K, V>,
                            st': State<K, V>)
    requires Coupled(data, st) && Entries(st) && s in st.ring && s in st.slots
    requires IsNode(data, data[s].val.prev) && IsNode(data, data[s].val.next)
    requires d1 == Removed(data, s)
    requires st'.ring == Drop(st.ring, s) && st'.slots.Keys == st.slots.Keys
    requires forall t :: t in st.slots && t != s ==> st'.slots[t] == st.slots[t]
    requires |d| == |d1| && d == d1[s := d[s]] && Matches(d[s], st'.slots[s])
    ensures Coupled(d, st')
  {
    hide Removed;
    var j := Position(st.ring, s);
    RemoveLinks(data, st.ring, j);
    RemovedFrame(data, st.ring, j);
    WithoutMembers(st.ring, j);
    UnringedOthers(data, st, s, d1, d, st');
  }

  lemma UnringedOthers<K, V>(data: Cells<K, V>, st: State<K, V>, s: nat, d1: Cells<K, V>, d: Cells<K, V>,
                             st': State<K, V>)
    requires Coupled(data, st) && Entries(st) && s in st.slots
    requires SameButLinks(data, d1) && forall t: nat :: t < |data| && t !in st.ring ==> d1[t] == data[t]
    requires RingLinked(d1, st'.ring) && s !in st'.ring
    requires st'.slots.Keys == st.slots.Keys
    requires forall t :: t in st.slots && t != s ==> st'.slots[t] == st.slots[t]
    requires |d| == |d1| && d == d1[s := d[s]] && Matches(d[s], st'.slots[s])
    ensures Coupled(d, st')
  {
    RingFrame(d1, d, st'.ring);
    forall t: nat | t in st'.slots ensures Matches(d[t], st'.slots[t]) {
      if t != s {
        UnringedMatches(data, st, t, d);
      }
    }
  }

  lemma UnringedMatches<K, V>(data: Cells<K, V>, st: State<K, V>, t: nat, d: Cells<K, V>)
    requires Coupled(data, st) && Entries(st) && t in st.slots && t < |d|
    requires d[t].Elem? && d[t].key == data[t].key && d[t].val.refcnt == data[t].val.refcnt
      && d[t].val.val == data[t].val.val
    requires t !in st.ring ==> d[t] == data[t]
    ensures Matches(d[t], st.slots[t])
  {
    assert EntryOk(st, t);
  }

  lemma CoupledRingHit<K, V>(data: Cells<K, V>, st: State<K, V>, c: nat, s: nat, d1: Cells<K, V>, d: Cells<K, V>,
                             st': State<K, V>)
    requires Coupled(data, st) && Entries(st) && s in st.slots && st.slots[s].phase == InRing
    requires IsNode(data, data[s].val.prev) && IsNode(data, data[s].val.next)
    requires d1 == Removed(data, s) && IsNode(d1, s)
    requires d == WithNode(d1, s, d1[s].val.(refcnt := d1[s].val.refcnt + 1)) && st' == AfterHit(st, c, s)
    ensures Coupled(d, st')
  {
    assert EntryOk(st, s);
    RemovedFrame(data, st.ring, Position(st.ring, s));
    hide Removed, RingLinked;
    CoupledUnring(data, st, s, d1, d, st');
  }

  lemma DropLast(ring: seq<nat>)
    requires NoDup(ring) && ring != []
    ensures Last(ring) in ring && Drop(ring, Last(ring)) == ring[..|ring| - 1]
  {
    var v := Last(ring);
    assert v == ring[|ring| - 1];
    assert Position(ring, v) == |ring| - 1;
    assert ring[|ring|..] == [];
  }

  lemma CoupledStartEvict<K, V>(data: Cells<K, V>, st: State<K, V>, c: nat, k: K, v: nat, d1: Cells<K, V>,
                                d: Cells<K, V>, st': State<K, V>)
    requires Coupled(data, st) && Entries(st) && st.ring != [] && v == Last(st.ring) && v in st.slots
    requires IsNode(data, data[v].val.prev) && IsNode(data, data[v].val.next)
    requires d1 == Removed(data, v) && IsNode(d1, v)
    requires d == WithNode(d1, v, d1[v].val.(prev := IN_PROGRESS)) && st' == AfterStartEvict(st, c, k)
    ensures Coupled(d, st')
  {
    DropLast(st.ring);
    assert EntryOk(st, v);
    RemovedFrame(data, st.ring, Position(st.ring, v));
    hide Removed, RingLinked;
    CoupledUnring(data, st, v, d1, d, st');
  }

  /** A slot leaves: its cell becomes a freelist link. */
  lemma CoupledFree<K, V>(data: Cells<K, V>, st: State<K, V>, s: nat, next: nat, d: Cells<K, V>, st': State<K, V>)
    requires Coupled(data, st) && s in st.slots && s !in st.ring && s < |data|
    requires d == data[s := FreeLink(next)]
    requires st'.slots == st.slots - {s} && st'.ring == st.ring
    ensures Coupled(d, st')
  {
    RingFrame(data, d, st.ring);
  }

  /** A slot is taken: over a freelist link, or at the end of the node array. */
  lemma CoupledInsert<K, V>(data: Cells<K, V>, data': Cells<K, V>, st: State<K, V>, c: nat, k: K, s: nat,
                            st': State<K, V>)
    requires st' == AfterInsert(st, c, k, s)
    requires Coupled(data, st) && RingOk(st) && s !in st.slots && s < |data'|
    requires data'[s] == Elem(k, Node(1, IN_PROGRESS, IN_PROGRESS, None))
    requires if s < |data| then data' == data[s := data'[s]] else data' == data + [data'[s]]
    ensures Coupled(data', st')
  {
    assert forall t: nat :: t < |data| && t != s ==> data'[t] == data[t];
    RingFrame(data, data', st.ring);
  }

  lemma CoupledSolve<K, V>(data: Cells<K, V>, st: State<K, V>, c: nat, ok: bool, v: V, s: nat, d: Cells<K, V>,
                           st': State<K, V>)
    requires Coupled(data, st) && c in st.clients && st.clients[c] == Solving(s) && s in st.slots && s !in st.ring
    requires d == WithNode(data, s, data[s].val.(val := Some(v), next := if ok then SOLVE_DONE else SOLVE_FAIL))
    requires st' == AfterSolve(st, c, ok, v)
    ensures Coupled(d, st')
  {
    RingFrame(data, d, st.ring);
  }

  lemma CoupledLessRef<K, V>(data: Cells<K, V>, st: State<K, V>, s: nat, d: Cells<K, V>, st': State<K, V>)
    requires Coupled(data, st) && s in st.slots && s !in st.ring && st.slots[s].ref > 0
    requires d == WithNode(data, s, data[s].val.(refcnt := data[s].val.refcnt - 1))
    requires st'.slots == st.slots[s := st.slots[s].(ref := st.slots[s].ref - 1)] && st'.ring == st.ring
    ensures Coupled(d, st')
  {
    RingFrame(data, d, st.ring);
  }

  /** The last release threads the node in at the front. */
  lemma CoupledToRing<K, V>(data: Cells<K, V>, st: State<K, V>, s: nat, d: Cells<K, V>, d': Cells<K, V>,
                            st': State<K, V>)
    requires Coupled(data, st) && Entries(st) && s in st.slots && s !in st.ring && st.slots[s].ref > 0
      && |data| < NO_HEAD
    requires d == WithNode(data, s, data[s].val.(refcnt := data[s].val.refcnt - 1))
    requires |st.ring| > 0 ==> IsNode(d, st.ring[0]) && IsNode(d, d[st.ring[0]].val.prev)
    requires d' == Pushed(d, HeadOf(st.ring), s)
    requires st'.slots == st.slots[s := st.slots[s].(ref := st.slots[s].ref - 1, phase := InRing)]
      && st'.ring == [s] + st.ring
    ensures Coupled(d', st')
  {
    RingFrame(data, d, st.ring);
    PushLinks(d, st.ring, s);
    PushedFrame(d, st.ring, s);
    forall t: nat | t in st'.slots ensures Matches(d'[t], st'.slots[t]) {
      if t != s {
        UnringedMatches(data, st, t, d');
      }
    }
  }
}
