/** What the LRU state machine guarantees over every run, and the one thing it does not:
    references are safe, nothing leaks, eviction is by recency, and a key can enter twice
    exactly through the window in which an eviction drops the lock. */
module LruSafety {
  import opened Basics
  import opened HashChains
  import opened LruProtocol

  // ---- runs

  ghost predicate CanRun<K, V>(st: State<K, V>, ls: seq<Label<K, V>>)
    decreases |ls|
  {
    |ls| == 0 || (Enabled(st, ls[0]) && CanRun(Apply(st, ls[0]), ls[1..]))
  }

  ghost function Exec<K, V>(st: State<K, V>, ls: seq<Label<K, V>>): State<K, V>
    requires CanRun(st, ls)
    decreases |ls|
  {
    if |ls| == 0 then st else Exec(Apply(st, ls[0]), ls[1..])
  }

  lemma InitialInv<K, V>(st: State<K, V>)
    requires Initial(st)
    ensures Inv(st)
  {
  }

  /** Every interleaving of steps keeps the invariant. */
  lemma {:induction false} RunKeeps<K, V>(st: State<K, V>, ls: seq<Label<K, V>>)
    requires Inv(st) && CanRun(st, ls)
    ensures Inv(Exec(st, ls))
    decreases |ls|
  {
    if |ls| > 0 {
      StepKeeps(st, ls[0]);
      RunKeeps(Apply(st, ls[0]), ls[1..]);
    }
  }

  /** The steps by which client `c` gives its reference back. */
  ghost predicate GivesBack<K, V>(l: Label<K, V>, c: nat) {
    l == DropFailed(c) || l == Release(c)
  }

  /** A slot that a client refers to keeps its key; one that is held keeps its value. */
  ghost predicate SameFor<K, V>(st: State<K, V>, st': State<K, V>, c: nat, s: nat) {
    && s in st.slots && s in st'.slots && st'.slots[s].key == st.slots[s].key
    && c in st.clients && c in st'.clients && Refers(st.clients[c], s) && Refers(st'.clients[c], s)
    && (st.clients[c].Holding? ==> st'.clients[c] == st.clients[c] && st'.slots[s].val == st.slots[s].val)
  }

  lemma StepHeld<K, V>(st: State<K, V>, l: Label<K, V>, c: nat, s: nat)
    requires Inv(st) && Enabled(st, l) && !GivesBack(l, c)
    requires c in st.clients && Refers(st.clients[c], s)
    ensures SameFor(st, Apply(st, l), c, s)
  {
    assert ClientOk(st, c);
    HolderExists(st, s, c);
    assert EntryOk(st, s);
    match l
    case InsertAfterEvict(d, t) =>
      assert ClientOk(st, d);
      assert EntryOk(st, st.clients[d].victim);
    case Solve(d, ok, v) =>
      assert ClientOk(st, d);
    case DropFailed(d) =>
      assert ClientOk(st, d);
      if st.clients[d].slot == s && st.slots[s].ref == 1 {
        LastHolder(st, d, s);
      }
    case _ =>
  }

  /** Safety of references over every run: until client `c` gives it back, the slot it
      refers to is neither evicted, freed nor given another key, and once the client
      holds it, its value does not change either. */
  lemma {:induction false} RunHeld<K, V>(st: State<K, V>, ls: seq<Label<K, V>>, c: nat, s: nat)
    requires Inv(st) && CanRun(st, ls)
    requires forall i :: 0 <= i < |ls| ==> !GivesBack(ls[i], c)
    requires c in st.clients && Refers(st.clients[c], s)
    ensures SameFor(st, Exec(st, ls), c, s)
    decreases |ls|
  {
    if |ls| == 0 {
      assert ClientOk(st, c);
    } else {
      var st1 := Apply(st, ls[0]);
      StepHeld(st, ls[0], c, s);
      StepKeeps(st, ls[0]);
      RunHeld(st1, ls[1..], c, s);
    }
  }

  /** A referenced slot is never in the ring, never a victim and never free. */
  lemma ReferencedIsPinned<K, V>(st: State<K, V>, c: nat, s: nat)
    requires Inv(st) && c in st.clients && Refers(st.clients[c], s)
    ensures s in st.slots && s !in st.ring && Shown(st, s) && st.slots[s].ref > 0
  {
    assert ClientOk(st, c);
    HolderExists(st, s, c);
    assert EntryOk(st, s);
  }

  /** The victim is the least recently released of all unpinned slots. */
  lemma VictimIsOldest<K, V>(st: State<K, V>, c: nat, k: K)
    requires Inv(st) && Enabled(st, StartEvict(c, k))
    ensures var v := Last(st.ring);
      && st.slots[v].phase == InRing && st.slots[v].ref == 0
      && forall s :: s in st.slots && st.slots[s].phase == InRing ==> st.released[v] <= Stamp(st.released, s)
  {
    var v := Last(st.ring);
    assert v in st.ring;
    assert EntryOk(st, v);
    forall s | s in st.slots && st.slots[s].phase == InRing ensures st.released[v] <= Stamp(st.released, s) {
      assert EntryOk(st, s);
      var i :| 0 <= i < |st.ring| && st.ring[i] == s;
    }
  }

  /** Nothing leaks: when no call is in flight and nothing is held, every slot is in the ring. */
  lemma QuiescentIsAllCached<K, V>(st: State<K, V>)
    requires Inv(st) && st.clients == map[]
    ensures forall s :: s in st.slots ==> st.slots[s].phase == InRing && st.slots[s].ref == 0
    ensures |st.ring| == |st.slots|
  {
    forall s | s in st.slots ensures st.slots[s].phase == InRing && st.slots[s].ref == 0 {
      assert EntryOk(st, s);
      assert Holders(st.clients, s) == {};
      assert forall c :: !Evicts(st, c, s);
    }
    NoDupCount(st.ring);
    forall s | s in st.slots ensures s in st.ring {
      assert EntryOk(st, s);
    }
    assert Members(st.ring) == st.slots.Keys;
  }

  /** The cache gives up (it is full and the ring is empty) only when every slot is
      referenced or already on its way out. */
  lemma StuckMeansAllBusy<K, V>(st: State<K, V>)
    requires Inv(st) && st.ring == []
    ensures forall s :: s in st.slots ==> st.slots[s].ref > 0 || st.slots[s].phase == Evicting
  {
    forall s | s in st.slots ensures st.slots[s].ref > 0 || st.slots[s].phase == Evicting {
      assert EntryOk(st, s);
    }
  }

  // ---- key uniqueness

  ghost predicate Unique<K, V>(st: State<K, V>) {
    forall s, t :: Shown(st, s) && Shown(st, t) && st.slots[s].key == st.slots[t].key ==> s == t
  }

  lemma UniqueAfterInsert<K, V>(st: State<K, V>, c: nat, k: K, s: nat)
    requires Unique(st) && s !in st.slots
    ensures Unique(AfterInsert(st, c, k, s)) <==> Absent(st, k)
  {
    var st' := AfterInsert(st, c, k, s);
    assert forall t :: t != s ==> (Shown(st', t) <==> Shown(st, t)) && (t in st.slots ==> st'.slots[t] == st.slots[t]);
    assert Shown(st', s);
    if !Absent(st, k) {
      var t :| t in st.slots && Finds(st, k, t);
      assert Shown(st', t);
    } else {
      forall t | Shown(st, t) ensures st.slots[t].key != k {
        assert !Finds(st, k, t);
      }
    }
  }

  lemma UniqueFrame<K, V>(st: State<K, V>, st': State<K, V>)
    requires Unique(st)
    requires forall t :: Shown(st', t) ==> Shown(st, t) && st'.slots[t].key == st.slots[t].key
    ensures Unique(st')
  {
  }

  lemma UniqueAfterEvict<K, V>(st: State<K, V>, c: nat, s: nat)
    requires Inv(st) && Unique(st) && c in st.clients && st.clients[c].EvictingFor?
    requires s !in st.slots || s == st.clients[c].victim
    ensures Unique(AfterEvict(st, c, s)) <==> Absent(st, st.clients[c].key)
  {
    assert ClientOk(st, c);
    var v, k := st.clients[c].victim, st.clients[c].key;
    var st0 := st.(slots := st.slots - {v});
    assert forall t :: Shown(st0, t) <==> Shown(st, t);
    UniqueFrame(st, st0);
    UniqueAfterInsert(st0, c, k, s);
    assert forall t :: Finds(st0, k, t) <==> Finds(st, k, t);
  }

  /** A step can put a key in twice exactly when an insertion that dropped the lock to
      evict finds, on return, that its key has come in meanwhile. */
  lemma UniqueUnless<K, V>(st: State<K, V>, l: Label<K, V>)
    requires Inv(st) && Unique(st) && Enabled(st, l)
    ensures Unique(Apply(st, l)) <==> !(l.InsertAfterEvict? && !Absent(st, st.clients[l.c].key))
  {
    match l
    case Insert(c, k, s) => UniqueAfterInsert(st, c, k, s);
    case InsertAfterEvict(c, s) => UniqueAfterEvict(st, c, s);
    case _ => ShownFrame(st, l); UniqueFrame(st, Apply(st, l));
  }

  /** The step that can break uniqueness. */
  ghost predicate Racy<K, V>(st: State<K, V>, l: Label<K, V>)
    requires Enabled(st, l)
  {
    l.InsertAfterEvict? && !Absent(st, st.clients[l.c].key)
  }

  /** No step of the run is of that kind. */
  ghost predicate NeverRacy<K, V>(st: State<K, V>, ls: seq<Label<K, V>>)
    requires CanRun(st, ls)
    decreases |ls|
  {
    ls == [] || (!Racy(st, ls[0]) && NeverRacy(Apply(st, ls[0]), ls[1..]))
  }

  ghost predicate AlwaysUnique<K, V>(st: State<K, V>, ls: seq<Label<K, V>>)
    requires CanRun(st, ls)
    decreases |ls|
  {
    Unique(st) && (ls == [] || AlwaysUnique(Apply(st, ls[0]), ls[1..]))
  }

  /** Keys stay unique throughout a run exactly when the run has no such step. */
  lemma {:induction false} RunUnique<K, V>(st: State<K, V>, ls: seq<Label<K, V>>)
    requires Inv(st) && Unique(st) && CanRun(st, ls)
    ensures AlwaysUnique(st, ls) <==> NeverRacy(st, ls)
    decreases |ls|
  {
    if ls != [] {
      UniqueUnless(st, ls[0]);
      StepKeeps(st, ls[0]);
      if !Racy(st, ls[0]) {
        RunUnique(Apply(st, ls[0]), ls[1..]);
      }
    }
  }

  lemma ShownFrame<K, V>(st: State<K, V>, l: Label<K, V>)
    requires Enabled(st, l) && !l.Insert? && !l.InsertAfterEvict?
    requires l.Hit? ==> Shown(st, l.s)
    requires l.Solve? ==> Clients(st)
    requires l.Release? ==> Clients(st)
    ensures forall t :: Shown(Apply(st, l), t) ==> Shown(st, t) && Apply(st, l).slots[t].key == st.slots[t].key
  {
    match l
    case Solve(c, ok, v) => assert ClientOk(st, c);
    case Release(c) => assert ClientOk(st, c);
    case _ =>
  }

  lemma RunStep<K, V>(st: State<K, V>, l: Label<K, V>, ls: seq<Label<K, V>>)
    requires Enabled(st, l) && CanRun(Apply(st, l), ls)
    ensures CanRun(st, [l] + ls) && Exec(st, [l] + ls) == Exec(Apply(st, l), ls)
  {
    assert ([l] + ls)[1..] == ls;
  }

  lemma BothEvicting<K, V>(st: State<K, V>, c: nat, d: nat, k: K)
    requires Inv(st) && c != d && c !in st.clients && d !in st.clients
    requires Absent(st, k) && |st.slots| == st.cap && |st.ring| >= 2
    ensures Enabled(st, StartEvict(c, k))
    ensures var st1 := AfterStartEvict(st, c, k);
      && Enabled(st1, StartEvict(d, k)) && Inv(st1)
      && Last(st1.ring) != Last(st.ring)
  {
    assert Last(st.ring) in st.ring;
    var st1 := AfterStartEvict(st, c, k);
    StartEvictKeeps(st, c, k);
    assert Last(st1.ring) in st1.ring;
    assert forall t :: Finds(st1, k, t) ==> Finds(st, k, t);
    assert st1.slots.Keys == st.slots.Keys;
    assert EntryOk(st1, Last(st1.ring)) && EntryOk(st1, Last(st.ring));
  }

  lemma BothInserted<K, V>(st: State<K, V>, c: nat, d: nat, k: K, v: nat, w: nat)
    requires v != w && c != d && v < st.cap && w < st.cap
    requires c in st.clients && st.clients[c] == EvictingFor(k, v)
    requires d in st.clients && st.clients[d] == EvictingFor(k, w)
    ensures Enabled(st, InsertAfterEvict(c, v))
    ensures var st1 := AfterEvict(st, c, v);
      Enabled(st1, InsertAfterEvict(d, w)) && !Unique(AfterEvict(st1, d, w))
  {
    var st1 := AfterEvict(st, c, v);
    var st2 := AfterEvict(st1, d, w);
    assert Shown(st2, v) && Shown(st2, w);
  }

  function Race<K, V>(c: nat, d: nat, k: K, v: nat, w: nat): seq<Label<K, V>> {
    [StartEvict(c, k)] + ([StartEvict(d, k)] + ([InsertAfterEvict(c, v)] + ([InsertAfterEvict(d, w)] + [])))
  }

  /** Two insertions of one key that both had to evict leave the key in twice. */
  lemma RacingInsertionsDuplicate<K, V>(st: State<K, V>, c: nat, d: nat, k: K)
    requires Inv(st) && c != d && c !in st.clients && d !in st.clients
    requires Absent(st, k) && |st.slots| == st.cap && |st.ring| >= 2
    ensures var ls := Race(c, d, k, st.ring[|st.ring| - 1], st.ring[|st.ring| - 2]);
      CanRun(st, ls) && !Unique(Exec(st, ls))
  {
    hide CanRun, Exec, Unique, Race;
    BothEvicting(st, c, d, k);
    RaceFrom(st, c, d, k, Last(st.ring), Last(AfterStartEvict(st, c, k).ring));
  }

  lemma RaceFrom<K, V>(st: State<K, V>, c: nat, d: nat, k: K, v: nat, w: nat)
    requires c != d && v != w && Enabled(st, StartEvict(c, k)) && v == Last(st.ring)
    requires v < st.cap && w < st.cap
    requires var st1 := AfterStartEvict(st, c, k); Enabled(st1, StartEvict(d, k)) && w == Last(st1.ring)
    ensures CanRun(st, Race(c, d, k, v, w)) && !Unique(Exec(st, Race(c, d, k, v, w)))
  {
    var st2 := AfterStartEvict(AfterStartEvict(st, c, k), d, k);
    BothInserted(st2, c, d, k, v, w);
    Run4(st, StartEvict(c, k), StartEvict(d, k), InsertAfterEvict(c, v), InsertAfterEvict(d, w));
  }

  lemma Run4<K, V>(st: State<K, V>, l1: Label<K, V>, l2: Label<K, V>, l3: Label<K, V>, l4: Label<K, V>)
    requires Enabled(st, l1)
    requires Enabled(Apply(st, l1), l2)
    requires Enabled(Apply(Apply(st, l1), l2), l3)
    requires Enabled(Apply(Apply(Apply(st, l1), l2), l3), l4)
    ensures var ls := [l1] + ([l2] + ([l3] + ([l4] + [])));
      CanRun(st, ls) && Exec(st, ls) == Apply(Apply(Apply(Apply(st, l1), l2), l3), l4)
  {
    var st1 := Apply(st, l1);
    var st2 := Apply(st1, l2);
    var st3 := Apply(st2, l3);
    RunStep(st3, l4, []);
    RunStep(st2, l3, [l4] + []);
    RunStep(st1, l2, [l3] + ([l4] + []));
    RunStep(st, l1, [l2] + ([l3] + ([l4] + [])));
  }

  lemma {:induction false} RunAppend<K, V>(st: State<K, V>, ls: seq<Label<K, V>>, ms: seq<Label<K, V>>)
    requires CanRun(st, ls) && CanRun(Exec(st, ls), ms)
    ensures CanRun(st, ls + ms) && Exec(st, ls + ms) == Exec(Exec(st, ls), ms)
    decreases |ls|
  {
    hide Enabled, Apply;
    if |ls| == 0 {
      assert ls + ms == ms;
    } else {
      RunAppend(Apply(st, ls[0]), ls[1..], ms);
      assert (ls + ms)[1..] == ls[1..] + ms;
    }
  }

  function Empty<K, V>(cap: nat): State<K, V> {
    State(cap, map[], [], map[], 0, map[])
  }

  /** The keys 0, 1, ... have each been added, solved and released by client 0. */
  ghost predicate Filled<V>(st: State<nat, V>, cap: nat, n: nat) {
    && st.cap == cap && st.clients == map[] && |st.ring| == n && |st.slots| == n
    && (forall s :: s in st.slots ==> s < n && st.slots[s].key < n)
  }

  lemma FillOne<V>(st: State<nat, V>, cap: nat, n: nat, v: V) returns (ls: seq<Label<nat, V>>)
    requires Filled(st, cap, n) && n < cap
    ensures CanRun(st, ls) && Filled(Exec(st, ls), cap, n + 1)
  {
    var l1: Label<nat, V>, l2: Label<nat, V>, l3: Label<nat, V> := Insert(0, n, n), Solve(0, true, v), Release(0);
    FillSteps(st, cap, n, v);
    Run3(st, l1, l2, l3);
    ls := [l1] + ([l2] + ([l3] + []));
  }

  lemma FillSteps<V>(st: State<nat, V>, cap: nat, n: nat, v: V)
    requires Filled(st, cap, n) && n < cap
    ensures Enabled(st, Insert(0, n, n))
    ensures var st1 := Apply(st, Insert(0, n, n));
      Enabled(st1, Solve(0, true, v)) &&
      var st2 := Apply(st1, Solve(0, true, v));
      Enabled(st2, Release(0)) && Filled(Apply(st2, Release(0)), cap, n + 1)
  {
    var st1 := AfterInsert(st, 0, n, n);
    var st2 := AfterSolve(st1, 0, true, v);
    FillSlots(st, cap, n, v);
    assert Enabled(st, Insert(0, n, n)) && Apply(st, Insert(0, n, n)) == st1;
    assert Enabled(st1, Solve(0, true, v)) && Apply(st1, Solve(0, true, v)) == st2;
  }

  lemma FillSlots<V>(st: State<nat, V>, cap: nat, n: nat, v: V)
    requires Filled(st, cap, n) && n < cap
    ensures Absent(st, n) && n !in st.slots && 0 !in st.clients
    ensures var st2 := AfterSolve(AfterInsert(st, 0, n, n), 0, true, v);
      Filled(AfterRelease(st2, 0), cap, n + 1)
  {
    var st1 := AfterInsert(st, 0, n, n);
    assert st1.clients[0] == Solving(n) && st1.slots[n] == Entry(n, None, 1, InProgress);
    var st2 := AfterSolve(st1, 0, true, v);
    assert st2.clients[0] == Holding(n) && st2.slots[n] == Entry(n, Some(v), 1, Pinned);
    FilledPush(st, AfterRelease(st2, 0), cap, n, Entry(n, Some(v), 0, InRing));
  }

  lemma FilledPush<V>(st: State<nat, V>, st': State<nat, V>, cap: nat, n: nat, e: Entry<nat, V>)
    requires Filled(st, cap, n) && e.key == n
    requires st'.cap == st.cap && st'.clients == map[] && st'.ring == [n] + st.ring && st'.slots == st.slots[n := e]
    ensures Filled(st', cap, n + 1)
  {
    assert n !in st.slots;
    assert st'.slots.Keys == st.slots.Keys + {n};
  }

  lemma Run3<K, V>(st: State<K, V>, l1: Label<K, V>, l2: Label<K, V>, l3: Label<K, V>)
    requires Enabled(st, l1) && Enabled(Apply(st, l1), l2) && Enabled(Apply(Apply(st, l1), l2), l3)
    ensures var ls := [l1] + ([l2] + ([l3] + []));
      CanRun(st, ls) && Exec(st, ls) == Apply(Apply(Apply(st, l1), l2), l3)
  {
    hide Enabled, Apply;
    RunStep(Apply(Apply(st, l1), l2), l3, []);
    RunStep(Apply(st, l1), l2, [l3] + []);
    RunStep(st, l1, [l2] + ([l3] + []));
  }

  lemma {:induction false} FillRun<V>(cap: nat, n: nat, v: V) returns (ls: seq<Label<nat, V>>)
    requires n <= cap
    ensures CanRun(Empty(cap), ls) && Filled(Exec(Empty(cap), ls), cap, n)
  {
    hide Enabled, Apply;
    if n == 0 {
      ls := [];
    } else {
      var ms := FillRun(cap, n - 1, v);
      var more := FillOne(Exec(Empty(cap), ms), cap, n - 1, v);
      RunAppend(Empty(cap), ms, more);
      ls := ms + more;
    }
  }

  /** Key uniqueness is not an invariant: from the empty cache, at every capacity of at
      least two, some run ends with one key in two visible slots. */
  lemma DuplicateIsReachable<V>(cap: nat, v: V)
    requires 2 <= cap
    ensures exists ls: seq<Label<nat, V>> :: CanRun(Empty(cap), ls) && !Unique(Exec(Empty(cap), ls))
  {
    hide Enabled, Apply, Inv, Unique;
    var fill := FillRun(cap, cap, v);
    var full := Exec(Empty(cap), fill);
    assert Inv(full) by {
      InitialInv<nat, V>(Empty(cap));
      RunKeeps(Empty(cap), fill);
    }
    assert Absent(full, cap);
    RacingInsertionsDuplicate(full, 1, 2, cap);
    var race := Race<nat, V>(1, 2, cap, full.ring[cap - 1], full.ring[cap - 2]);
    RunAppend(Empty(cap), fill, race);
    assert CanRun(Empty(cap), fill + race) && !Unique(Exec(Empty(cap), fill + race));
  }
}
