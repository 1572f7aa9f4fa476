/** The concurrent LRU cache as a state machine. One label is one section that runs
    under the lock (or one atomic store); labels of different clients interleave freely.
    A client is one `lru_get` or `lru_add` call together with the reference it may hand
    to its caller, up to the matching `lru_release`. */
module LruProtocol {
  import opened Basics
  import opened HashChains

  datatype Phase = InRing | Pinned | InProgress | Failed | Evicting

  datatype Entry<K, V> = Entry(key: K, val: Option<V>, ref: nat, phase: Phase)

  datatype Pc<K> =
    | Solving(slot: nat)
    | Waiting(slot: nat)
    | Failing(slot: nat)
    | Holding(slot: nat)
    | EvictingFor(key: K, victim: nat)

  /** `ring` lists the unpinned slots, most recently released first; `released` records
      when each slot was last released, on a clock that only the proofs read. */
  datatype State<K, V> = State(
    cap: nat,
    slots: map<nat, Entry<K, V>>,
    ring: seq<nat>,
    clients: map<nat, Pc<K>>,
    clock: nat,
    released: map<nat, nat>)

  datatype Label<K, V> =
    | Hit(c: nat, k: K, s: nat)
    | Join(c: nat, k: K, s: nat)
    | Insert(c: nat, k: K, s: nat)
    | StartEvict(c: nat, k: K)
    | InsertAfterEvict(c: nat, s: nat)
    | Solve(c: nat, ok: bool, v: V)
    | Observe(c: nat)
    | DropFailed(c: nat)
    | Release(c: nat)

  ghost predicate Refers<K>(pc: Pc<K>, s: nat) {
    !pc.EvictingFor? && pc.slot == s
  }

  ghost function Holders<K>(clients: map<nat, Pc<K>>, s: nat): set<nat> {
    set c | c in clients && Refers(clients[c], s)
  }

  ghost predicate Shown<K, V>(st: State<K, V>, s: nat) {
    s in st.slots && st.slots[s].phase != Evicting
  }

  /** A lookup of `k` may find slot `s`. */
  ghost predicate Finds<K, V>(st: State<K, V>, k: K, s: nat) {
    Shown(st, s) && st.slots[s].key == k
  }

  ghost predicate Absent<K, V>(st: State<K, V>, k: K) {
    forall s :: s in st.slots ==> !Finds(st, k, s)
  }

  function Last(ring: seq<nat>): nat
    requires ring != []
  {
    ring[|ring| - 1]
  }

  // ---- steps

  ghost predicate Enabled<K, V>(st: State<K, V>, l: Label<K, V>) {
    match l
    case Hit(c, k, s) => c !in st.clients && Finds(st, k, s)
      && (st.slots[s].phase == InRing || st.slots[s].phase == Pinned)
    case Join(c, k, s) => c !in st.clients && Finds(st, k, s) && st.slots[s].phase == InProgress
    case Insert(c, k, s) => c !in st.clients && Absent(st, k) && |st.slots| < st.cap && s !in st.slots && s < st.cap
    case StartEvict(c, k) => c !in st.clients && Absent(st, k) && |st.slots| >= st.cap && st.ring != []
      && Last(st.ring) in st.slots
    case InsertAfterEvict(c, s) =>
      && c in st.clients && st.clients[c].EvictingFor?
      && s < st.cap && (s !in st.slots || s == st.clients[c].victim)
    case Solve(c, ok, v) => c in st.clients && st.clients[c].Solving? && st.clients[c].slot in st.slots
    case Observe(c) =>
      && c in st.clients && st.clients[c].Waiting? && st.clients[c].slot in st.slots
      && (st.slots[st.clients[c].slot].phase == Pinned || st.slots[st.clients[c].slot].phase == Failed)
    case DropFailed(c) =>
      && c in st.clients && st.clients[c].Failing?
      && st.clients[c].slot in st.slots && st.slots[st.clients[c].slot].ref > 0
    case Release(c) =>
      && c in st.clients && st.clients[c].Holding?
      && st.clients[c].slot in st.slots && st.slots[st.clients[c].slot].ref > 0
  }

  ghost function Position(ring: seq<nat>, s: nat): (j: nat)
    requires s in ring
    ensures j < |ring| && ring[j] == s
  {
    var j: nat :| j < |ring| && ring[j] == s;
    j
  }

  /** The ring with `s` taken out of its place. */
  ghost function Drop(ring: seq<nat>, s: nat): seq<nat> {
    if s in ring then Without(ring, Position(ring, s)) else ring
  }

  /** A finished entry is found: it leaves the ring if it was there, and is pinned. */
  ghost function AfterHit<K, V>(st: State<K, V>, c: nat, s: nat): State<K, V>
    requires s in st.slots
  {
    var e := st.slots[s];
    st.(slots := st.slots[s := e.(ref := e.ref + 1, phase := Pinned)],
        ring := if e.phase == InRing then Drop(st.ring, s) else st.ring,
        clients := st.clients[c := Holding(s)])
  }

  /** An entry that is still being solved is found: take a reference and wait. */
  ghost function AfterJoin<K, V>(st: State<K, V>, c: nat, s: nat): State<K, V>
    requires s in st.slots
  {
    var e := st.slots[s];
    st.(slots := st.slots[s := e.(ref := e.ref + 1)], clients := st.clients[c := Waiting(s)])
  }

  ghost function AfterInsert<K, V>(st: State<K, V>, c: nat, k: K, s: nat): State<K, V> {
    st.(slots := st.slots[s := Entry(k, None, 1, InProgress)], clients := st.clients[c := Solving(s)])
  }

  /** The cache is full: the ring's last slot is unlinked, and the lock is dropped. */
  ghost function AfterStartEvict<K, V>(st: State<K, V>, c: nat, k: K): State<K, V>
    requires st.ring != [] && Last(st.ring) in st.slots
  {
    var v := Last(st.ring);
    st.(slots := st.slots[v := st.slots[v].(phase := Evicting)],
        ring := st.ring[..|st.ring| - 1],
        clients := st.clients[c := EvictingFor(k, v)])
  }

  /** The lock is taken again: the victim is freed and the new entry goes in at once. */
  ghost function AfterEvict<K, V>(st: State<K, V>, c: nat, s: nat): State<K, V>
    requires c in st.clients && st.clients[c].EvictingFor?
  {
    var pc := st.clients[c];
    AfterInsert(st.(slots := st.slots - {pc.victim}), c, pc.key, s)
  }

  ghost function AfterSolve<K, V>(st: State<K, V>, c: nat, ok: bool, v: V): State<K, V>
    requires c in st.clients && st.clients[c].Solving? && st.clients[c].slot in st.slots
  {
    var s := st.clients[c].slot;
    st.(slots := st.slots[s := st.slots[s].(val := Some(v), phase := if ok then Pinned else Failed)],
        clients := st.clients[c := if ok then Holding(s) else Failing(s)])
  }

  ghost function AfterObserve<K, V>(st: State<K, V>, c: nat): State<K, V>
    requires c in st.clients && st.clients[c].Waiting? && st.clients[c].slot in st.slots
  {
    var s := st.clients[c].slot;
    st.(clients := st.clients[c := if st.slots[s].phase == Pinned then Holding(s) else Failing(s)])
  }

  /** The last reference to a failed entry erases it. */
  ghost function AfterDropFailed<K, V>(st: State<K, V>, c: nat): State<K, V>
    requires c in st.clients && st.clients[c].Failing? && st.clients[c].slot in st.slots
    requires st.slots[st.clients[c].slot].ref > 0
  {
    var s := st.clients[c].slot;
    var e := st.slots[s];
    st.(slots := if e.ref == 1 then st.slots - {s} else st.slots[s := e.(ref := e.ref - 1)],
        clients := st.clients - {c})
  }

  /** The last reference to a finished entry puts it in front of the ring. */
  ghost function AfterRelease<K, V>(st: State<K, V>, c: nat): State<K, V>
    requires c in st.clients && st.clients[c].Holding? && st.clients[c].slot in st.slots
    requires st.slots[st.clients[c].slot].ref > 0
  {
    var s := st.clients[c].slot;
    var e := st.slots[s];
    if e.ref == 1 then
      st.(slots := st.slots[s := e.(ref := 0, phase := InRing)],
          clients := st.clients - {c},
          ring := [s] + st.ring,
          released := st.released[s := st.clock],
          clock := st.clock + 1)
    else
      st.(slots := st.slots[s := e.(ref := e.ref - 1)], clients := st.clients - {c})
  }

  ghost function Apply<K, V>(st: State<K, V>, l: Label<K, V>): State<K, V>
    requires Enabled(st, l)
  {
    match l
    case Hit(c, k, s) => AfterHit(st, c, s)
    case Join(c, k, s) => AfterJoin(st, c, s)
    case Insert(c, k, s) => AfterInsert(st, c, k, s)
    case StartEvict(c, k) => AfterStartEvict(st, c, k)
    case InsertAfterEvict(c, s) => AfterEvict(st, c, s)
    case Solve(c, ok, v) => AfterSolve(st, c, ok, v)
    case Observe(c) => AfterObserve(st, c)
    case DropFailed(c) => AfterDropFailed(st, c)
    case Release(c) => AfterRelease(st, c)
  }

  ghost predicate Initial<K, V>(st: State<K, V>) {
    st.slots == map[] && st.ring == [] && st.clients == map[] && st.released == map[]
  }

  // ---- the invariant

  ghost predicate EntryOk<K, V>(st: State<K, V>, s: nat)
    requires s in st.slots
  {
    var e := st.slots[s];
    && e.ref == |Holders(st.clients, s)|
    && (e.phase == InRing <==> s in st.ring)
    && (e.phase == InRing || e.phase == Evicting <==> e.ref == 0)
  }

  ghost predicate ClientOk<K, V>(st: State<K, V>, c: nat)
    requires c in st.clients
  {
    match st.clients[c]
    case Solving(s) => s in st.slots && st.slots[s].phase == InProgress
    case Waiting(s) => s in st.slots && st.slots[s].phase != InRing && st.slots[s].phase != Evicting
    case Failing(s) => s in st.slots && st.slots[s].phase == Failed
    case Holding(s) => s in st.slots && st.slots[s].phase == Pinned
    case EvictingFor(_, v) => v in st.slots && st.slots[v].phase == Evicting
  }

  ghost predicate Solves<K, V>(st: State<K, V>, c: nat, s: nat) {
    c in st.clients && st.clients[c] == Solving(s)
  }

  ghost predicate Evicts<K, V>(st: State<K, V>, c: nat, s: nat) {
    c in st.clients && st.clients[c].EvictingFor? && st.clients[c].victim == s
  }

  /** At most one client solves a slot, and at most one evicts it. */
  ghost predicate Exclusive<K, V>(st: State<K, V>) {
    && (forall c, d, s :: Solves(st, c, s) && Solves(st, d, s) ==> c == d)
    && (forall c, d, s :: Evicts(st, c, s) && Evicts(st, d, s) ==> c == d)
  }

  /** Somebody is responsible for every slot in progress and for every victim. */
  ghost predicate Attended<K, V>(st: State<K, V>) {
    && (forall s :: s in st.slots && st.slots[s].phase == InProgress ==> exists c :: Solves(st, c, s))
    && (forall s :: s in st.slots && st.slots[s].phase == Evicting ==> exists c :: Evicts(st, c, s))
  }

  /** Ring order is release order, newest first. */
  ghost predicate Recency(ring: seq<nat>, released: map<nat, nat>, clock: nat) {
    && NoDup(ring)
    && (forall s :: s in ring ==> s in released && released[s] < clock)
    && (forall i, j :: 0 <= i < j < |ring| ==> Stamp(released, ring[i]) > Stamp(released, ring[j]))
  }

  ghost function Stamp(released: map<nat, nat>, s: nat): nat {
    if s in released then released[s] else 0
  }

  ghost predicate RingOk<K, V>(st: State<K, V>) {
    && Recency(st.ring, st.released, st.clock)
    && forall s :: s in st.ring ==> s in st.slots
  }

  ghost predicate CapOk<K, V>(st: State<K, V>) {
    |st.slots| <= st.cap && forall s :: s in st.slots ==> s < st.cap
  }

  ghost predicate Inv<K, V>(st: State<K, V>) {
    && CapOk(st)
    && RingOk(st)
    && Exclusive(st)
    && Attended(st)
    && Entries(st)
    && Clients(st)
  }

  ghost predicate Entries<K, V>(st: State<K, V>) {
    forall s :: s in st.slots ==> EntryOk(st, s)
  }

  ghost predicate Clients<K, V>(st: State<K, V>) {
    forall c :: c in st.clients ==> ClientOk(st, c)
  }

  // ---- every step keeps the invariant

  lemma HoldersPut<K>(clients: map<nat, Pc<K>>, c: nat, pc: Pc<K>, s: nat)
    ensures Holders(clients[c := pc], s) == Holders(clients, s) - {c} + (if Refers(pc, s) then {c} else {})
  {
  }

  lemma HoldersTake<K>(clients: map<nat, Pc<K>>, c: nat, s: nat)
    ensures Holders(clients - {c}, s) == Holders(clients, s) - {c}
  {
  }

  lemma DropRecency(ring: seq<nat>, released: map<nat, nat>, clock: nat, s: nat)
    requires Recency(ring, released, clock)
    ensures Recency(Drop(ring, s), released, clock)
    ensures forall t :: t in Drop(ring, s) <==> t in ring && t != s
  {
    if s in ring {
      var j := Position(ring, s);
      WithoutMembers(ring, j);
      var r := Without(ring, j);
      forall i, i' | 0 <= i < i' < |r| ensures Stamp(released, r[i]) > Stamp(released, r[i']) {
        var p := if i < j then i else i + 1;
        var q := if i' < j then i' else i' + 1;
        assert r[i] == ring[p] && r[i'] == ring[q] && p < q;
      }
    }
  }

  /** A client that did not refer to a slot and now does raises its holders by one. */
  lemma HoldersJoin<K>(clients: map<nat, Pc<K>>, c: nat, pc: Pc<K>)
    requires !pc.EvictingFor?
    requires c in clients ==> clients[c].EvictingFor?
    ensures forall s :: |Holders(clients[c := pc], s)| == |Holders(clients, s)| + (if s == pc.slot then 1 else 0)
  {
    forall s ensures |Holders(clients[c := pc], s)| == |Holders(clients, s)| + (if s == pc.slot then 1 else 0) {
      HoldersPut(clients, c, pc, s);
      assert c !in Holders(clients, s);
    }
  }

  /** A client that keeps its slot changes nobody's count. */
  lemma HoldersMove<K>(clients: map<nat, Pc<K>>, c: nat, pc: Pc<K>)
    requires c in clients ==> !clients[c].EvictingFor? && !pc.EvictingFor? && clients[c].slot == pc.slot
    requires c !in clients ==> pc.EvictingFor?
    ensures forall s :: Holders(clients[c := pc], s) == Holders(clients, s)
  {
  }

  lemma HoldersLeave<K>(clients: map<nat, Pc<K>>, c: nat)
    requires c in clients && !clients[c].EvictingFor?
    ensures forall s :: |Holders(clients - {c}, s)| == |Holders(clients, s)| - (if s == clients[c].slot then 1 else 0)
  {
    forall s ensures |Holders(clients - {c}, s)| == |Holders(clients, s)| - (if s == clients[c].slot then 1 else 0) {
      HoldersTake(clients, c, s);
      assert s == clients[c].slot ==> c in Holders(clients, s);
      assert s != clients[c].slot ==> c !in Holders(clients, s);
    }
  }

  /** What stays of exclusiveness and attendance when one client changes. */
  lemma SameClientsBut<K, V>(st: State<K, V>, st': State<K, V>, c: nat)
    requires Exclusive(st) && Attended(st)
    requires c !in st.clients || (!st.clients[c].Solving? && !st.clients[c].EvictingFor?)
    requires c !in st'.clients || (!st'.clients[c].Solving? && !st'.clients[c].EvictingFor?)
    requires forall d :: d != c ==>
        (d in st'.clients <==> d in st.clients) && (d in st.clients ==> st'.clients[d] == st.clients[d])
    requires forall s :: s in st'.slots && (st'.slots[s].phase == InProgress || st'.slots[s].phase == Evicting) ==>
      s in st.slots && st.slots[s].phase == st'.slots[s].phase
    ensures Exclusive(st') && Attended(st')
  {
    assert forall d, s :: Solves(st', d, s) <==> Solves(st, d, s);
    assert forall d, s :: Evicts(st', d, s) <==> Evicts(st, d, s);
  }

  /** Entries other than `s` stay right when only `s` and its holders change. */
  lemma OtherEntries<K, V>(st: State<K, V>, st': State<K, V>, s: nat)
    requires Entries(st)
    requires forall t :: t in st'.slots && t != s ==> t in st.slots && st'.slots[t] == st.slots[t]
    requires forall t :: t in st'.slots && t != s ==> (t in st'.ring <==> t in st.ring)
    requires forall t :: t != s ==> |Holders(st'.clients, t)| == |Holders(st.clients, t)|
    requires s in st'.slots ==> EntryOk(st', s)
    ensures Entries(st')
  {
    forall t | t in st'.slots ensures EntryOk(st', t) {
      if t != s {
        assert EntryOk(st, t);
      }
    }
  }

  /** Clients other than `c` stay right when entry `s` moves to a phase they accept. */
  lemma OtherClients<K, V>(st: State<K, V>, st': State<K, V>, c: nat, s: nat)
    requires Clients(st)
    requires forall d :: d in st'.clients && d != c ==> d in st.clients && st'.clients[d] == st.clients[d]
    requires forall t :: t in st.slots && t != s ==> t in st'.slots && st'.slots[t].phase == st.slots[t].phase
    requires forall d :: d in st'.clients && d != c && Touches(st.clients[d], s) ==> ClientOk(st', d)
    requires c in st'.clients ==> ClientOk(st', c)
    ensures Clients(st')
  {
    forall d | d in st'.clients ensures ClientOk(st', d) {
      if d != c {
        assert ClientOk(st, d);
      }
    }
  }

  ghost predicate Touches<K>(pc: Pc<K>, s: nat) {
    if pc.EvictingFor? then pc.victim == s else pc.slot == s
  }

  lemma HolderExists<K, V>(st: State<K, V>, s: nat, d: nat)
    requires Entries(st) && s in st.slots && d in st.clients && Refers(st.clients[d], s)
    ensures st.slots[s].ref > 0
  {
    assert EntryOk(st, s);
    assert d in Holders(st.clients, s);
  }

  lemma HitKeeps<K, V>(st: State<K, V>, c: nat, s: nat)
    requires Inv(st) && c !in st.clients && s in st.slots
    requires st.slots[s].phase == InRing || st.slots[s].phase == Pinned
    ensures Inv(AfterHit(st, c, s))
  {
    hide NoDup, Exclusive, Attended, Clients, Refers;
    var st' := AfterHit(st, c, s);
    assert Entries(st') && RingOk(st') by {
      assert EntryOk(st, s);
      DropRecency(st.ring, st.released, st.clock, s);
      HoldersJoin(st.clients, c, Holding(s));
      OtherEntries(st, st', s);
    }
    assert Exclusive(st') && Attended(st') by { SameClientsBut(st, st', c); }
    assert Clients(st') by { HitClients(st, c, s); }
  }

  lemma HitClients<K, V>(st: State<K, V>, c: nat, s: nat)
    requires Entries(st) && Clients(st) && c !in st.clients && s in st.slots
    requires st.slots[s].phase == InRing || st.slots[s].phase == Pinned
    ensures Clients(AfterHit(st, c, s))
  {
    assert EntryOk(st, s);
    var st' := AfterHit(st, c, s);
    forall d | d in st.clients && Touches(st.clients[d], s) ensures ClientOk(st', d) {
      assert ClientOk(st, d);
    }
    OtherClients(st, st', c, s);
  }

  lemma JoinKeeps<K, V>(st: State<K, V>, c: nat, s: nat)
    requires Inv(st) && c !in st.clients && s in st.slots && st.slots[s].phase == InProgress
    ensures Inv(AfterJoin(st, c, s))
  {
    var st' := AfterJoin(st, c, s);
    assert EntryOk(st, s);
    HoldersJoin(st.clients, c, Waiting(s));
    OtherEntries(st, st', s);
    SameClientsBut(st, st', c);
    forall d | d in st.clients && Touches(st.clients[d], s) ensures ClientOk(st', d) {
      assert ClientOk(st, d);
    }
    OtherClients(st, st', c, s);
  }

  /** The invariant without what client `c` contributes; `c` holds no reference. */
  ghost predicate InvBut<K, V>(st: State<K, V>, c: nat) {
    && CapOk(st) && RingOk(st) && Exclusive(st) && Entries(st)
    && (c in st.clients ==> st.clients[c].EvictingFor?)
    && (forall d :: d in st.clients && d != c ==> ClientOk(st, d))
    && (forall s :: s in st.slots && st.slots[s].phase == InProgress ==> exists d :: d != c && Solves(st, d, s))
    && (forall s :: s in st.slots && st.slots[s].phase == Evicting ==> exists d :: d != c && Evicts(st, d, s))
  }

  lemma InsertEntries<K, V>(st: State<K, V>, c: nat, k: K, s: nat)
    requires InvBut(st, c) && s !in st.slots
    ensures Entries(AfterInsert(st, c, k, s))
  {
    var st' := AfterInsert(st, c, k, s);
    HoldersJoin(st.clients, c, Solving(s));
    forall d | d in st.clients ensures !Refers(st.clients[d], s) {
      assert d != c ==> ClientOk(st, d);
    }
    assert Holders(st.clients, s) == {};
    OtherEntries(st, st', s);
  }

  lemma InsertExclusive<K, V>(st: State<K, V>, c: nat, k: K, s: nat)
    requires InvBut(st, c) && s !in st.slots
    ensures Exclusive(AfterInsert(st, c, k, s)) && Attended(AfterInsert(st, c, k, s))
  {
    var st' := AfterInsert(st, c, k, s);
    forall d | d != c ensures !Solves(st', d, s) {
      assert d in st.clients ==> ClientOk(st, d);
    }
    assert forall d, t :: d != c ==>
        (Solves(st', d, t) <==> Solves(st, d, t)) && (Evicts(st', d, t) <==> Evicts(st, d, t));
    assert Solves(st', c, s);
    forall t | t in st'.slots && st'.slots[t].phase == InProgress ensures exists d :: Solves(st', d, t) {
      if t != s {
        var d :| d != c && Solves(st, d, t);
        assert Solves(st', d, t);
      }
    }
    forall t | t in st'.slots && st'.slots[t].phase == Evicting ensures exists d :: Evicts(st', d, t) {
      var d :| d != c && Evicts(st, d, t);
      assert Evicts(st', d, t);
    }
  }

  lemma InsertClients<K, V>(st: State<K, V>, c: nat, k: K, s: nat)
    requires InvBut(st, c) && s !in st.slots
    ensures Clients(AfterInsert(st, c, k, s))
  {
    var st' := AfterInsert(st, c, k, s);
    forall d | d in st'.clients ensures ClientOk(st', d) {
      assert d != c ==> ClientOk(st, d);
    }
  }

  lemma InsertKeeps<K, V>(st: State<K, V>, c: nat, k: K, s: nat)
    requires InvBut(st, c) && |st.slots| < st.cap && s !in st.slots && s < st.cap
    ensures Inv(AfterInsert(st, c, k, s))
  {
    InsertEntries(st, c, k, s);
    InsertExclusive(st, c, k, s);
    InsertClients(st, c, k, s);
  }

  lemma IdleInsertKeeps<K, V>(st: State<K, V>, c: nat, k: K, s: nat)
    requires Inv(st) && c !in st.clients && |st.slots| < st.cap && s !in st.slots && s < st.cap
    ensures Inv(AfterInsert(st, c, k, s))
  {
    assert forall d, t :: Solves(st, d, t) || Evicts(st, d, t) ==> d != c;
    InsertKeeps(st, c, k, s);
  }

  lemma StartEvictKeeps<K, V>(st: State<K, V>, c: nat, k: K)
    requires Inv(st) && c !in st.clients && st.ring != [] && Last(st.ring) in st.slots
    ensures Inv(AfterStartEvict(st, c, k))
  {
    var v := Last(st.ring);
    var st' := AfterStartEvict(st, c, k);
    assert st.ring == st'.ring + [v];
    assert v in st.ring && v !in st'.ring;
    assert EntryOk(st, v);
    assert Entries(st') by {
      HoldersMove(st.clients, c, EvictingFor(k, v));
      OtherEntries(st, st', v);
    }
    assert Clients(st') by { StartEvictClients(st, c, k); }
    assert Exclusive(st') && Attended(st') by { StartEvictExclusive(st, c, k); }
  }

  lemma StartEvictClients<K, V>(st: State<K, V>, c: nat, k: K)
    requires Entries(st) && Clients(st) && c !in st.clients && st.ring != [] && Last(st.ring) in st.slots
    ensures Clients(AfterStartEvict(st, c, k))
  {
    var v := Last(st.ring);
    var st' := AfterStartEvict(st, c, k);
    assert v in st.ring;
    assert EntryOk(st, v);
    forall d | d in st'.clients && d != c ensures ClientOk(st', d) {
      assert ClientOk(st, d);
    }
  }

  lemma StartEvictExclusive<K, V>(st: State<K, V>, c: nat, k: K)
    requires Entries(st) && Clients(st) && Exclusive(st) && Attended(st)
    requires c !in st.clients && st.ring != [] && Last(st.ring) in st.slots
    ensures Exclusive(AfterStartEvict(st, c, k)) && Attended(AfterStartEvict(st, c, k))
  {
    var v := Last(st.ring);
    var st' := AfterStartEvict(st, c, k);
    assert v in st.ring;
    assert EntryOk(st, v);
    forall d | d != c ensures !Evicts(st', d, v) {
      assert d in st.clients ==> ClientOk(st, d);
    }
    assert forall d, t :: d != c ==>
        (Solves(st', d, t) <==> Solves(st, d, t)) && (Evicts(st', d, t) <==> Evicts(st, d, t));
    assert Evicts(st', c, v);
    forall t | t in st'.slots && st'.slots[t].phase == InProgress ensures exists d :: Solves(st', d, t) {
      var d :| Solves(st, d, t);
      assert Solves(st', d, t);
    }
    forall t | t in st'.slots && st'.slots[t].phase == Evicting ensures exists d :: Evicts(st', d, t) {
      if t != v {
        var d :| Evicts(st, d, t);
        assert Evicts(st', d, t);
      }
    }
  }

  /** Freeing the victim leaves every other client's view intact. */
  lemma FreeVictim<K, V>(st: State<K, V>, c: nat)
    requires Inv(st) && c in st.clients && st.clients[c].EvictingFor?
    ensures var st0 := st.(slots := st.slots - {st.clients[c].victim});
      InvBut(st0, c) && |st0.slots| == |st.slots| - 1
  {
    var v := st.clients[c].victim;
    var st0 := st.(slots := st.slots - {v});
    assert ClientOk(st, c) && EntryOk(st, v);
    assert st.slots.Keys == st0.slots.Keys + {v};
    OtherEntries(st, st0, v);
    assert forall d, t :: (Solves(st0, d, t) <==> Solves(st, d, t)) && (Evicts(st0, d, t) <==> Evicts(st, d, t));
    assert Evicts(st, c, v);
    forall d | d in st.clients && d != c ensures ClientOk(st0, d) {
      assert ClientOk(st, d);
      assert !Evicts(st, d, v);
    }
    forall t | t in st0.slots && st0.slots[t].phase == Evicting ensures exists d :: d != c && Evicts(st0, d, t) {
      var d :| Evicts(st, d, t);
      assert Evicts(st0, d, t);
    }
    forall t | t in st0.slots && st0.slots[t].phase == InProgress ensures exists d :: d != c && Solves(st0, d, t) {
      var d :| Solves(st, d, t);
      assert Solves(st0, d, t);
    }
  }

  lemma EvictKeeps<K, V>(st: State<K, V>, c: nat, s: nat)
    requires Inv(st) && c in st.clients && st.clients[c].EvictingFor?
    requires s < st.cap && (s !in st.slots || s == st.clients[c].victim)
    ensures Inv(AfterEvict(st, c, s))
  {
    FreeVictim(st, c);
    InsertKeeps(st.(slots := st.slots - {st.clients[c].victim}), c, st.clients[c].key, s);
  }

  lemma SolveExclusive<K, V>(st: State<K, V>, c: nat, ok: bool, v: V)
    requires Clients(st) && Exclusive(st) && Attended(st) && c in st.clients && st.clients[c].Solving?
      && st.clients[c].slot in st.slots
    ensures Exclusive(AfterSolve(st, c, ok, v)) && Attended(AfterSolve(st, c, ok, v))
  {
    var s := st.clients[c].slot;
    var st' := AfterSolve(st, c, ok, v);
    assert Solves(st, c, s);
    assert forall d, t :: d != c ==>
        (Solves(st', d, t) <==> Solves(st, d, t)) && (Evicts(st', d, t) <==> Evicts(st, d, t));
    assert forall t :: !Solves(st', c, t) && !Evicts(st', c, t);
    forall t | t in st'.slots && st'.slots[t].phase == InProgress ensures exists d :: Solves(st', d, t) {
      var d :| Solves(st, d, t);
      assert Solves(st', d, t);
    }
    forall t | t in st'.slots && st'.slots[t].phase == Evicting ensures exists d :: Evicts(st', d, t) {
      var d :| Evicts(st, d, t);
      assert Evicts(st', d, t);
    }
  }

  lemma SolveClients<K, V>(st: State<K, V>, c: nat, ok: bool, v: V)
    requires Clients(st) && Exclusive(st) && c in st.clients && st.clients[c].Solving? && st.clients[c].slot in st.slots
    ensures Clients(AfterSolve(st, c, ok, v))
  {
    var s := st.clients[c].slot;
    var st' := AfterSolve(st, c, ok, v);
    assert ClientOk(st, c) && Solves(st, c, s);
    forall d | d in st'.clients && d != c ensures ClientOk(st', d) {
      assert ClientOk(st, d);
      assert !Solves(st, d, s);
    }
  }

  lemma SolveKeeps<K, V>(st: State<K, V>, c: nat, ok: bool, v: V)
    requires Inv(st) && c in st.clients && st.clients[c].Solving? && st.clients[c].slot in st.slots
    ensures Inv(AfterSolve(st, c, ok, v))
  {
    var s := st.clients[c].slot;
    var st' := AfterSolve(st, c, ok, v);
    assert Entries(st') by {
      assert ClientOk(st, c) && EntryOk(st, s);
      HoldersMove(st.clients, c, if ok then Holding(s) else Failing(s));
      OtherEntries(st, st', s);
    }
    SolveExclusive(st, c, ok, v);
    SolveClients(st, c, ok, v);
  }

  lemma ObserveKeeps<K, V>(st: State<K, V>, c: nat)
    requires Inv(st) && c in st.clients && st.clients[c].Waiting? && st.clients[c].slot in st.slots
    requires st.slots[st.clients[c].slot].phase == Pinned || st.slots[st.clients[c].slot].phase == Failed
    ensures Inv(AfterObserve(st, c))
  {
    var s := st.clients[c].slot;
    var st' := AfterObserve(st, c);
    assert Entries(st') by {
      HoldersMove(st.clients, c, st'.clients[c]);
      forall t | t in st'.slots ensures EntryOk(st', t) {
        assert EntryOk(st, t);
      }
    }
    SameClientsBut(st, st', c);
    assert Clients(st') by {
      forall d | d in st'.clients && d != c ensures ClientOk(st', d) {
        assert ClientOk(st, d);
      }
    }
  }

  /** The last holder of a slot is the only client that touches it. */
  lemma LastHolder<K, V>(st: State<K, V>, c: nat, s: nat)
    requires Entries(st) && Clients(st) && s in st.slots && st.slots[s].ref == 1
    requires c in st.clients && Refers(st.clients[c], s)
    ensures forall d :: d in st.clients && d != c ==> !Touches(st.clients[d], s)
  {
    assert EntryOk(st, s);
    var h := Holders(st.clients, s);
    assert c in h;
    assert |h - {c}| == 0;
    forall d | d in st.clients && d != c ensures !Touches(st.clients[d], s) {
      assert d !in h - {c};
      assert ClientOk(st, d);
    }
  }

  lemma LeaveClients<K, V>(st: State<K, V>, st': State<K, V>, c: nat, s: nat)
    requires Clients(st) && s in st.slots
    requires st'.clients == st.clients - {c}
    requires forall t :: t in st.slots && t != s ==> t in st'.slots && st'.slots[t].phase == st.slots[t].phase
    requires (s in st'.slots && st'.slots[s].phase == st.slots[s].phase)
      || forall d :: d in st.clients && d != c ==> !Touches(st.clients[d], s)
    ensures Clients(st')
  {
    forall d | d in st'.clients ensures ClientOk(st', d) {
      assert ClientOk(st, d);
    }
  }

  lemma DropFailedEntries<K, V>(st: State<K, V>, c: nat)
    requires Entries(st) && ClientsAt(st, c) && st.clients[c].Failing?
    ensures Entries(AfterDropFailed(st, c))
  {
    var s := st.clients[c].slot;
    assert EntryOk(st, s);
    HoldersLeave(st.clients, c);
    OtherEntries(st, AfterDropFailed(st, c), s);
  }

  /** Client `c` holds a live reference and its entry is in the right phase. */
  ghost predicate ClientsAt<K, V>(st: State<K, V>, c: nat) {
    && c in st.clients && !st.clients[c].EvictingFor? && ClientOk(st, c)
    && st.slots[st.clients[c].slot].ref > 0
  }

  lemma DropFailedClients<K, V>(st: State<K, V>, c: nat)
    requires Entries(st) && Clients(st) && ClientsAt(st, c) && st.clients[c].Failing?
    ensures Clients(AfterDropFailed(st, c))
  {
    var s := st.clients[c].slot;
    if st.slots[s].ref == 1 {
      LastHolder(st, c, s);
    }
    LeaveClients(st, AfterDropFailed(st, c), c, s);
  }

  lemma DropFailedExclusive<K, V>(st: State<K, V>, c: nat)
    requires Exclusive(st) && Attended(st) && ClientsAt(st, c) && st.clients[c].Failing?
    ensures Exclusive(AfterDropFailed(st, c)) && Attended(AfterDropFailed(st, c))
  {
    SameClientsBut(st, AfterDropFailed(st, c), c);
  }

  lemma DropFailedKeeps<K, V>(st: State<K, V>, c: nat)
    requires Inv(st) && ClientsAt(st, c) && st.clients[c].Failing?
    ensures Inv(AfterDropFailed(st, c))
  {
    var s := st.clients[c].slot;
    var st' := AfterDropFailed(st, c);
    assert RingOk(st') by { assert EntryOk(st, s); }
    DropFailedEntries(st, c);
    DropFailedExclusive(st, c);
    DropFailedClients(st, c);
    assert CapOk(st') by {
      assert st.slots.Keys == st'.slots.Keys + {s};
      SubsetCount(st'.slots.Keys, st.slots.Keys);
    }
  }

  lemma ReleaseRing<K, V>(st: State<K, V>, c: nat)
    requires RingOk(st) && c in st.clients && st.clients[c].Holding? && st.clients[c].slot in st.slots
    requires st.slots[st.clients[c].slot].ref > 0 && st.clients[c].slot !in st.ring
    ensures RingOk(AfterRelease(st, c))
  {
    var s := st.clients[c].slot;
    if st.slots[s].ref == 1 {
      var st' := AfterRelease(st, c);
      var r := st'.ring;
      forall i, j | 0 <= i < j < |r| ensures Stamp(st'.released, r[i]) > Stamp(st'.released, r[j]) && r[i] != r[j] {
        assert r[j] == st.ring[j - 1] && st.ring[j - 1] in st.ring;
        assert i > 0 ==> r[i] == st.ring[i - 1] && st.ring[i - 1] in st.ring;
      }
    }
  }

  lemma ReleaseEntries<K, V>(st: State<K, V>, c: nat)
    requires Entries(st) && ClientsAt(st, c) && st.clients[c].Holding?
    ensures Entries(AfterRelease(st, c))
  {
    var s := st.clients[c].slot;
    assert EntryOk(st, s);
    HoldersLeave(st.clients, c);
    OtherEntries(st, AfterRelease(st, c), s);
  }

  lemma ReleaseClients<K, V>(st: State<K, V>, c: nat)
    requires Entries(st) && Clients(st) && ClientsAt(st, c) && st.clients[c].Holding?
    ensures Clients(AfterRelease(st, c))
  {
    var s := st.clients[c].slot;
    if st.slots[s].ref == 1 {
      LastHolder(st, c, s);
    }
    LeaveClients(st, AfterRelease(st, c), c, s);
  }

  lemma ReleaseExclusive<K, V>(st: State<K, V>, c: nat)
    requires Exclusive(st) && Attended(st) && ClientsAt(st, c) && st.clients[c].Holding?
    ensures Exclusive(AfterRelease(st, c)) && Attended(AfterRelease(st, c))
  {
    SameClientsBut(st, AfterRelease(st, c), c);
  }

  lemma ReleaseKeeps<K, V>(st: State<K, V>, c: nat)
    requires Inv(st) && ClientsAt(st, c) && st.clients[c].Holding?
    ensures Inv(AfterRelease(st, c))
  {
    var s := st.clients[c].slot;
    var st' := AfterRelease(st, c);
    assert RingOk(st') by {
      assert EntryOk(st, s);
      ReleaseRing(st, c);
    }
    ReleaseEntries(st, c);
    ReleaseExclusive(st, c);
    ReleaseClients(st, c);
    assert st'.slots.Keys == st.slots.Keys;
  }

  /** Every step keeps the invariant. */
  lemma StepKeeps<K, V>(st: State<K, V>, l: Label<K, V>)
    requires Inv(st) && Enabled(st, l)
    ensures Inv(Apply(st, l))
  {
    match l
    case Hit(c, k, s) => HitKeeps(st, c, s);
    case Join(c, k, s) => JoinKeeps(st, c, s);
    case Insert(c, k, s) => IdleInsertKeeps(st, c, k, s);
    case StartEvict(c, k) => StartEvictKeeps(st, c, k);
    case InsertAfterEvict(c, s) => EvictKeeps(st, c, s);
    case Solve(c, ok, v) => SolveKeeps(st, c, ok, v);
    case Observe(c) => ObserveKeeps(st, c);
    case DropFailed(c) => assert ClientOk(st, c); DropFailedKeeps(st, c);
    case Release(c) => assert ClientOk(st, c); ReleaseKeeps(st, c);
  }
}
