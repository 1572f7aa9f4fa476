/** How the bucket count of a default table moves while it fills up to a reserved capacity,
    and at which capacities its load limit covers them once they are reached. */
module LruLoad {
  import opened HashSizing

  function Limit(nb: nat): nat {
    MaxLoad(nb, DEFAULT_LOAD_FACTOR)
  }

  /** The bucket count that `reserve(cap)` chooses. */
  function Chosen(cap: nat): nat {
    NextPrime(BucketRequest(cap, DEFAULT_LOAD_FACTOR))
  }

  /** The bucket count that an insertion leaves, `count` slots being taken before it. */
  function Next(nb: nat, count: nat): nat {
    if count >= Limit(nb) then NextPrime(nb + 1) else nb
  }

  /** The largest capacity whose limit is reached by one rehash, and the window above it that
      lies beyond that limit while the truncated limits are still lower. */
  const FIRST_LIMIT: nat := 3422552035
  const WINDOW_END: nat := 3422552040
  /** The highest truncated limit that is ever reached. */
  const LAST_LIMIT: nat := 4294967288

  /** Capacities that the limit covers by the time the table is full. */
  predicate Roomy(cap: nat) {
    cap <= FIRST_LIMIT || WINDOW_END < cap <= LAST_LIMIT
  }

  /** How many slots can be taken at each bucket count on the way. */
  predicate Stage(cap: nat, nb: nat, count: nat) {
    || (nb == 8589934583 && count <= 1711276025)
    || (nb == 17179869143 && count <= FIRST_LIMIT)
    || (cap > FIRST_LIMIT && (
        || (nb == 34359738337 && count <= FIRST_LIMIT + 1)
        || (nb == 68719476731 && count <= FIRST_LIMIT + 2)
        || (nb == 137438953447 && count <= FIRST_LIMIT + 3)
        || (nb == 274877906899 && count <= FIRST_LIMIT + 4)
        || (nb == 549755813881 && count <= FIRST_LIMIT + 5)
        || (nb == 1099511627689 && count <= 4294967235)
        || (nb == 2199023255531 && count <= 4294967281)
        || (nb == 4398046511093 && count <= LAST_LIMIT)))
  }

  /** The table entries and limits met on the way. */
  lemma TableEntries()
    ensures NextPrime(8589934584) == 17179869143 && Limit(8589934583) == 1711276025
    ensures NextPrime(17179869144) == 34359738337 && Limit(17179869143) == FIRST_LIMIT
    ensures NextPrime(34359738338) == 68719476731 && Limit(34359738337) == 2550136810
    ensures NextPrime(68719476732) == 137438953447 && Limit(68719476731) == 805306364
    ensures NextPrime(137438953448) == 274877906899 && Limit(137438953447) == 1610612718
    ensures NextPrime(274877906900) == 549755813881 && Limit(274877906899) == 3221225440
    ensures NextPrime(549755813882) == 1099511627689 && Limit(549755813881) == 2147483643
    ensures NextPrime(1099511627690) == 2199023255531 && Limit(1099511627689) == 4294967235
    ensures NextPrime(2199023255532) == 4398046511093 && Limit(2199023255531) == 4294967281
    ensures NextPrime(4398046511094) == 8796093022151 && Limit(4398046511093) == LAST_LIMIT
  {
  }

  lemma LastTableEntries()
    ensures NextPrime(8796093022152) == 17592186044399 && Limit(8796093022151) == 4294967256
    ensures NextPrime(17592186044400) == 35184372088777 && Limit(17592186044399) == 4294967284
    ensures NextPrime(35184372088778) == 70368744177643 && Limit(35184372088777) == 4294967257
    ensures NextPrime(70368744177644) == 140737488355213 && Limit(70368744177643) == 4294967281
    ensures NextPrime(140737488355214) == 281474976710597 && Limit(140737488355213) == 4294967215
    ensures NextPrime(281474976710598) == 562949953421231 && Limit(281474976710597) == 4294967254
  {
  }

  /** The limit covers the capacity, or the table is still on its way there. */
  ghost predicate OnTheWay(cap: nat, nb: nat, count: nat) {
    cap <= Limit(nb) || Stage(cap, nb, count)
  }

  lemma StageStart(cap: nat)
    requires cap <= DELMARK
    ensures OnTheWay(cap, Chosen(cap), 0)
  {
    DefaultReserveCovers(cap);
    if cap > MAX_COVERED_CAP {
      assert BucketRequest(cap, DEFAULT_LOAD_FACTOR) > 4294967291;
    }
  }

  lemma StageStep(cap: nat, nb: nat, count: nat)
    requires Roomy(cap) && OnTheWay(cap, nb, count) && count < cap
    ensures OnTheWay(cap, Next(nb, count), count + 1)
    ensures cap <= Limit(nb) ==> Next(nb, count) == nb
  {
    hide NextPrime, Limit;
    TableEntries();
  }

  lemma StageDown(cap: nat, nb: nat, count: nat)
    requires OnTheWay(cap, nb, count)
    ensures count > 0 ==> OnTheWay(cap, nb, count - 1)
  {
    hide Limit;
  }

  /** A full table of such a capacity never rehashes again. */
  lemma StageFull(cap: nat, nb: nat)
    requires Roomy(cap) && OnTheWay(cap, nb, cap)
    ensures cap <= Limit(nb)
  {
    hide NextPrime, Limit;
    TableEntries();
  }

  // ---- the other capacities

  /** The bucket count after `n` insertions into the reserved table. */
  ghost function Filled(cap: nat, n: nat): nat {
    if n == 0 then Chosen(cap) else Next(Filled(cap, n - 1), n - 1)
  }

  /** Up to its limit a bucket count stays. */
  lemma {:induction false} Stays(cap: nat, a: nat, b: nat, nb: nat)
    requires a <= b <= Limit(nb) && Filled(cap, a) == nb
    ensures Filled(cap, b) == nb
    decreases b - a
  {
    if a < b {
      Stays(cap, a, b - 1, nb);
    }
  }

  /** The bucket counts at the points where they change. */
  lemma Passes(cap: nat)
    requires FIRST_LIMIT < cap <= DELMARK
    ensures Filled(cap, FIRST_LIMIT) == 17179869143
  {
    assert Chosen(cap) == 8589934583;
    Stays(cap, 0, 1711276025, 8589934583);
    assert Filled(cap, 1711276026) == 17179869143;
    Stays(cap, 1711276026, FIRST_LIMIT, 17179869143);
  }

  lemma PassesWindow(cap: nat)
    requires FIRST_LIMIT < cap <= DELMARK
    ensures Filled(cap, FIRST_LIMIT + 1) == 34359738337 && Filled(cap, FIRST_LIMIT + 2) == 68719476731
    ensures Filled(cap, FIRST_LIMIT + 3) == 137438953447 && Filled(cap, FIRST_LIMIT + 4) == 274877906899
    ensures Filled(cap, WINDOW_END) == 549755813881 && Filled(cap, WINDOW_END + 1) == 1099511627689
  {
    hide NextPrime, Limit, Filled;
    TableEntries();
    Passes(cap);
    Step(cap, FIRST_LIMIT + 1);
    Step(cap, FIRST_LIMIT + 2);
    Step(cap, FIRST_LIMIT + 3);
    Step(cap, FIRST_LIMIT + 4);
    Step(cap, WINDOW_END);
    Step(cap, WINDOW_END + 1);
  }

  lemma Step(cap: nat, n: nat)
    requires n > 0
    ensures Filled(cap, n) == Next(Filled(cap, n - 1), n - 1)
  {
  }

  lemma PassesTop(cap: nat)
    requires LAST_LIMIT < cap <= DELMARK
    ensures Filled(cap, LAST_LIMIT) == 4398046511093
  {
    hide NextPrime, Limit, Filled;
    TableEntries();
    PassesWindow(cap);
    Stays(cap, WINDOW_END + 1, 4294967235, 1099511627689);
    Step(cap, 4294967236);
    Stays(cap, 4294967236, 4294967281, 2199023255531);
    Step(cap, 4294967282);
    Stays(cap, 4294967282, LAST_LIMIT, 4398046511093);
  }

  lemma PassesEnd(cap: nat)
    requires LAST_LIMIT < cap <= DELMARK
    ensures Filled(cap, LAST_LIMIT + 1) == 8796093022151 && Filled(cap, LAST_LIMIT + 2) == 17592186044399
    ensures Filled(cap, LAST_LIMIT + 3) == 35184372088777 && Filled(cap, LAST_LIMIT + 4) == 70368744177643
    ensures Filled(cap, LAST_LIMIT + 5) == 140737488355213 && Filled(cap, LAST_LIMIT + 6) == 281474976710597
  {
    hide NextPrime, Limit, Filled;
    TableEntries();
    LastTableEntries();
    PassesTop(cap);
    Step(cap, LAST_LIMIT + 1);
    Step(cap, LAST_LIMIT + 2);
    Step(cap, LAST_LIMIT + 3);
    Step(cap, LAST_LIMIT + 4);
    Step(cap, LAST_LIMIT + 5);
    Step(cap, LAST_LIMIT + 6);
  }

  lemma {:induction false} FilledOnTheWay(cap: nat, n: nat)
    requires Roomy(cap) && n <= cap
    ensures OnTheWay(cap, Filled(cap, n), n)
  {
    if n == 0 {
      StageStart(cap);
    } else {
      FilledOnTheWay(cap, n - 1);
      StageStep(cap, Filled(cap, n - 1), n - 1);
    }
  }

  /** Filled to the brim, the table has a limit that covers its capacity exactly for these
      capacities; for the others the next insertion takes another bucket count. */
  lemma RoomyExactly(cap: nat)
    requires cap <= DELMARK
    ensures Roomy(cap) <==> cap <= Limit(Filled(cap, cap))
    ensures !Roomy(cap) ==> Next(Filled(cap, cap), cap - 1) != Filled(cap, cap)
  {
    hide NextPrime, Limit, Filled;
    TableEntries();
    LastTableEntries();
    if Roomy(cap) {
      FilledOnTheWay(cap, cap);
      StageFull(cap, Filled(cap, cap));
    } else if cap <= WINDOW_END {
      PassesWindow(cap);
    } else {
      PassesEnd(cap);
    }
  }
}
