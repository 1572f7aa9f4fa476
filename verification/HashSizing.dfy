/** Bucket counts, load limits and node capacity of the chained hash table
    (`gold_hash_tab`): which prime a bucket request is rounded to, how the load
    limit is cached in a 32-bit link, and when a reservation really covers the
    number of elements it was made for. */
module HashSizing {

  // LinkTp is a 32-bit unsigned integer; the two top values are reserved.
  const TAIL: nat := 0xFFFF_FFFF
  const DELMARK: nat := 0xFFFF_FFFE
  const LINK_MOD: nat := 0x1_0000_0000
  const WORD_MOD: nat := 0x1_0000_0000_0000_0000
  const LARGEST_PRIME: nat := 18446744073709551557

  /** The first entry of the prime table that is at least `n`, or the last entry. */
  function NextPrime(n: nat): (p: nat)
    ensures 5 <= p <= LARGEST_PRIME
    ensures n <= LARGEST_PRIME ==> n <= p
    ensures LARGEST_PRIME < n ==> p == LARGEST_PRIME
  {
    if n <= 5 then 5 else
    if n <= 11 then 11 else
    if n <= 19 then 19 else
    if n <= 37 then 37 else
    if n <= 53 then 53 else
    if n <= 97 then 97 else
    if n <= 193 then 193 else
    if n <= 389 then 389 else
    if n <= 769 then 769 else
    if n <= 1543 then 1543 else
    if n <= 3079 then 3079 else
    if n <= 6151 then 6151 else
    if n <= 12289 then 12289 else
    if n <= 24593 then 24593 else
    if n <= 49157 then 49157 else
    if n <= 98317 then 98317 else
    if n <= 196613 then 196613 else
    if n <= 393241 then 393241 else
    if n <= 786433 then 786433 else
    if n <= 1572869 then 1572869 else
    if n <= 3145739 then 3145739 else
    if n <= 6291469 then 6291469 else
    if n <= 12582917 then 12582917 else
    if n <= 25165843 then 25165843 else
    if n <= 50331653 then 50331653 else
    if n <= 100663319 then 100663319 else
    if n <= 201326611 then 201326611 else
    if n <= 402653189 then 402653189 else
    if n <= 805306457 then 805306457 else
    if n <= 1610612741 then 1610612741 else
    if n <= 3221225473 then 3221225473 else
    if n <= 4294967291 then 4294967291 else
    if n <= 8589934583 then 8589934583 else
    if n <= 17179869143 then 17179869143 else
    if n <= 34359738337 then 34359738337 else
    if n <= 68719476731 then 68719476731 else
    if n <= 137438953447 then 137438953447 else
    if n <= 274877906899 then 274877906899 else
    if n <= 549755813881 then 549755813881 else
    if n <= 1099511627689 then 1099511627689 else
    if n <= 2199023255531 then 2199023255531 else
    if n <= 4398046511093 then 4398046511093 else
    if n <= 8796093022151 then 8796093022151 else
    if n <= 17592186044399 then 17592186044399 else
    if n <= 35184372088777 then 35184372088777 else
    if n <= 70368744177643 then 70368744177643 else
    if n <= 140737488355213 then 140737488355213 else
    if n <= 281474976710597 then 281474976710597 else
    if n <= 562949953421231 then 562949953421231 else
    if n <= 1125899906842597 then 1125899906842597 else
    if n <= 2251799813685119 then 2251799813685119 else
    if n <= 4503599627370449 then 4503599627370449 else
    if n <= 9007199254740881 then 9007199254740881 else
    if n <= 18014398509481951 then 18014398509481951 else
    if n <= 36028797018963913 then 36028797018963913 else
    if n <= 72057594037927931 then 72057594037927931 else
    if n <= 144115188075855859 then 144115188075855859 else
    if n <= 288230376151711717 then 288230376151711717 else
    if n <= 576460752303423433 then 576460752303423433 else
    if n <= 1152921504606846883 then 1152921504606846883 else
    if n <= 2305843009213693951 then 2305843009213693951 else
    if n <= 4611686018427387847 then 4611686018427387847 else
    if n <= 9223372036854775783 then 9223372036854775783 else
    18446744073709551557
  }

  /** No table entry is skipped: every request between `n` and its prime gets the same prime. */
  lemma NextPrimeIsLeast(n: nat, m: nat)
    requires n <= m <= NextPrime(n)
    ensures NextPrime(m) == NextPrime(n)
  {
  }

  /** Growing by one bucket moves to a strictly larger prime until the table is exhausted. */
  lemma NextPrimeGrows(n: nat)
    ensures NextPrime(NextPrime(n) + 1) > NextPrime(n) || NextPrime(n) == LARGEST_PRIME
  {
  }

  /** Above 32 bits, consecutive entries at most double (up to a small excess). */
  lemma NextPrimeAtMostDoubles(n: nat)
    requires 4294967291 < n <= 0x400_0000_0000
    ensures NextPrime(n) <= 2 * (n - 1) + 160
  {
  }

  /** `maxload`: the cached limit on live elements, computed in 64 bits and stored in 32. */
  function MaxLoad(nBucket: nat, loadFactor: nat): (m: nat)
    ensures m < LINK_MOD
    ensures nBucket * loadFactor / 256 < LINK_MOD ==> m == nBucket * loadFactor / 256
  {
    nBucket * loadFactor % WORD_MOD / 256 % LINK_MOD
  }

  /** The bucket count that `reserve(cap)` asks for. */
  function BucketRequest(cap: nat, loadFactor: nat): (r: nat)
    requires 0 < loadFactor
  {
    cap * 256 / loadFactor + 1
  }

  /** The load that the bucket array chosen by `reserve(cap)` admits before truncation. */
  function ReservedLoad(cap: nat, loadFactor: nat): nat
    requires 0 < loadFactor
  {
    NextPrime(BucketRequest(cap, loadFactor)) * loadFactor / 256
  }

  lemma DivMul(a: nat, d: nat)
    requires 0 < d
    ensures a - d < a / d * d <= a
  {
  }

  lemma MulMono(a: nat, b: nat, m: nat)
    requires a <= b
    ensures a * m <= b * m
  {
  }

  /** The arithmetic of a reservation for any bucket count `nb` in the range that
      rounding a request up to a prime can give. */
  lemma LoadOfBuckets(cap: nat, loadFactor: nat, nb: nat)
    requires cap <= DELMARK && 1 <= loadFactor <= 255
    requires BucketRequest(cap, loadFactor) <= nb
    requires nb <= 2 * (BucketRequest(cap, loadFactor) - 1) + 160 || nb <= 4294967291
    ensures cap <= nb * loadFactor / 256
    ensures nb * loadFactor / 256 >= LINK_MOD ==> nb * loadFactor / 256 <= 2 * cap + 160
    ensures nb * loadFactor < WORD_MOD
  {
    var d := cap * 256 / loadFactor;
    DivMul(cap * 256, loadFactor);
    assert d <= cap * 256 by { MulMono(1, loadFactor, d); }
    MulMono(d + 1, nb, loadFactor);
    assert (d + 1) * loadFactor == d * loadFactor + loadFactor;
    if nb <= 4294967291 {
      MulMono(nb, 4294967291, loadFactor);
    } else {
      MulMono(nb, 2 * d + 160, loadFactor);
      assert (2 * d + 160) * loadFactor == 2 * (d * loadFactor) + 160 * loadFactor;
    }
  }

  lemma RequestBounds(cap: nat, loadFactor: nat)
    requires cap <= DELMARK && 1 <= loadFactor <= 255
    ensures BucketRequest(cap, loadFactor) <= 0x400_0000_0000
  {
    DivMul(cap * 256, loadFactor);
    MulMono(1, loadFactor, cap * 256 / loadFactor);
  }

  lemma NextPrimeRange(n: nat)
    requires 1 <= n <= 0x400_0000_0000
    ensures n <= NextPrime(n)
    ensures NextPrime(n) <= 2 * (n - 1) + 160 || NextPrime(n) <= 4294967291
  {
    if 4294967291 < n {
      NextPrimeAtMostDoubles(n);
    } else {
      NextPrimeIsLeast(n, NextPrime(n));
    }
  }

  /** Five reservations whose load does not survive the 32-bit truncation, but whose truncated
      load happens to be large enough. */
  predicate Coincides(cap: nat, loadFactor: nat) {
    || (loadFactor == 32 && 4294967293 <= cap <= DELMARK)
    || (loadFactor == 64 && 4294967286 <= cap <= 4294967288)
  }

  /** A reservation raises the cached load limit to `cap` exactly when the load of the
      chosen prime survives the 32-bit truncation, and in five more cases. */
  lemma ReserveCovers(cap: nat, loadFactor: nat)
    requires cap <= DELMARK && 1 <= loadFactor <= 255
    ensures cap <= ReservedLoad(cap, loadFactor)
    ensures MaxLoad(NextPrime(BucketRequest(cap, loadFactor)), loadFactor) >= cap
      <==> ReservedLoad(cap, loadFactor) < LINK_MOD || Coincides(cap, loadFactor)
  {
    hide NextPrime, MaxLoad;
    ReserveFits(cap, loadFactor);
    if cap > 0xFFFF_FE00 {
      if loadFactor in {1, 2, 4, 8, 16, 32, 64, 128} {
        PowerFactor(cap, loadFactor);
      } else {
        OtherFactor(cap, loadFactor);
      }
    }
  }

  lemma ReserveFits(cap: nat, loadFactor: nat)
    requires cap <= DELMARK && 1 <= loadFactor <= 255
    ensures cap <= ReservedLoad(cap, loadFactor)
    ensures var m := MaxLoad(NextPrime(BucketRequest(cap, loadFactor)), loadFactor);
      && (ReservedLoad(cap, loadFactor) < LINK_MOD ==> m >= cap)
      && (LINK_MOD <= ReservedLoad(cap, loadFactor) < LINK_MOD + cap ==> m < cap)
      && (LINK_MOD <= ReservedLoad(cap, loadFactor) && cap <= 0xFFFF_FE00 ==> m < cap)
  {
    hide NextPrime;
    RequestBounds(cap, loadFactor);
    var r := BucketRequest(cap, loadFactor);
    NextPrimeRange(r);
    LoadOfBuckets(cap, loadFactor, NextPrime(r));
    TruncatedLoad(cap, loadFactor, NextPrime(r));
  }

  /** At the top capacities a request is close to a prime for the factors that divide 256: up to
      that prime its load survives the truncation, beyond it the next one is twice as large. */
  lemma PowerFactor(cap: nat, loadFactor: nat)
    requires 0xFFFF_FE00 < cap <= DELMARK && loadFactor in {1, 2, 4, 8, 16, 32, 64, 128}
    ensures MaxLoad(NextPrime(BucketRequest(cap, loadFactor)), loadFactor) >= cap
      <==> ReservedLoad(cap, loadFactor) < LINK_MOD || Coincides(cap, loadFactor)
  {
    hide NextPrime, MaxLoad;
    if loadFactor == 32 {
      Factor32(cap);
    } else if loadFactor == 64 {
      Factor64(cap);
    } else if loadFactor == 128 {
      Factor128(cap);
    } else {
      LowFactor(cap, loadFactor);
      ReserveFits(cap, loadFactor);
    }
  }

  lemma LowFactor(cap: nat, loadFactor: nat)
    requires 0xFFFF_FE00 < cap <= DELMARK && loadFactor in {1, 2, 4, 8, 16}
    ensures ReservedLoad(cap, loadFactor) < LINK_MOD
  {
    hide NextPrime;
    PrimeBounds(BucketRequest(cap, loadFactor));
  }

  lemma PrimeBounds(n: nat)
    ensures n <= 68719476731 ==> NextPrime(n) <= 68719476731
    ensures n <= 137438953447 ==> NextPrime(n) <= 137438953447
    ensures n <= 274877906899 ==> NextPrime(n) <= 274877906899
    ensures n <= 549755813881 ==> NextPrime(n) <= 549755813881
    ensures n <= 1099511627689 ==> NextPrime(n) <= 1099511627689
  {
  }

  lemma Factor32(cap: nat)
    requires 0xFFFF_FE00 < cap <= DELMARK
    ensures MaxLoad(NextPrime(BucketRequest(cap, 32)), 32) >= cap
      <==> ReservedLoad(cap, 32) < LINK_MOD || Coincides(cap, 32)
  {
  }

  lemma Factor64(cap: nat)
    requires 0xFFFF_FE00 < cap <= DELMARK
    ensures MaxLoad(NextPrime(BucketRequest(cap, 64)), 64) >= cap
      <==> ReservedLoad(cap, 64) < LINK_MOD || Coincides(cap, 64)
  {
  }

  lemma Factor128(cap: nat)
    requires 0xFFFF_FE00 < cap <= DELMARK
    ensures MaxLoad(NextPrime(BucketRequest(cap, 128)), 128) >= cap <==> ReservedLoad(cap, 128) < LINK_MOD
  {
  }

  /** For the others it lies well between two primes, so the next one is not twice as large. */
  lemma OtherFactor(cap: nat, loadFactor: nat)
    requires 0xFFFF_FE00 < cap <= DELMARK && 1 <= loadFactor <= 255 && loadFactor !in {1, 2, 4, 8, 16, 32, 64, 128}
    ensures ReservedLoad(cap, loadFactor) < LINK_MOD + cap
  {
    var d := cap * 256 / loadFactor;
    DivMul(cap * 256, loadFactor);
    RequestBounds(cap, loadFactor);
    OtherPrime(cap, loadFactor, d);
  }

  lemma OtherPrime(cap: nat, loadFactor: nat, d: nat)
    requires 0xFFFF_FE00 < cap <= DELMARK && 1 <= loadFactor <= 255 && loadFactor !in {1, 2, 4, 8, 16, 32, 64, 128}
    requires d * loadFactor <= cap * 256 && d < 0x400_0000_0000
    ensures NextPrime(d + 1) * loadFactor < (LINK_MOD + cap) * 256
  {
    if d < 4294967291 {
      MulMono(NextPrime(d + 1), 4294967291, loadFactor);
    } else if d < 8589934583 {
      MulMono(4294967291, d, loadFactor);
    } else if d < 17179869143 {
      MulMono(8589934583, d, loadFactor);
    } else if d < 34359738337 {
      MulMono(17179869143, d, loadFactor);
    } else if d < 68719476731 {
      MulMono(34359738337, d, loadFactor);
    } else if d < 137438953447 {
      MulMono(68719476731, d, loadFactor);
    } else if d < 274877906899 {
      MulMono(137438953447, d, loadFactor);
    } else if d < 549755813881 {
      MulMono(274877906899, d, loadFactor);
    } else {
      MulMono(549755813881, d, loadFactor);
    }
  }

  lemma TruncatedLoad(cap: nat, loadFactor: nat, nb: nat)
    requires cap <= nb * loadFactor / 256
    requires nb * loadFactor / 256 >= LINK_MOD ==> nb * loadFactor / 256 <= 2 * cap + 160
    requires nb * loadFactor < WORD_MOD
    ensures nb * loadFactor / 256 < LINK_MOD ==> MaxLoad(nb, loadFactor) >= cap
    ensures cap <= 0xFFFF_FE00 ==>
      (MaxLoad(nb, loadFactor) >= cap <==> nb * loadFactor / 256 < LINK_MOD)
    ensures LINK_MOD <= nb * loadFactor / 256 < LINK_MOD + cap ==> MaxLoad(nb, loadFactor) < cap
  {
    var load := nb * loadFactor / 256;
    assert MaxLoad(nb, loadFactor) == load % LINK_MOD;
    Truncated(cap, load);
  }

  lemma Truncated(cap: nat, load: nat)
    requires cap <= load && (load >= LINK_MOD ==> load <= 2 * cap + 160)
    ensures load < LINK_MOD ==> load % LINK_MOD >= cap
    ensures cap <= 0xFFFF_FE00 ==> (load % LINK_MOD >= cap <==> load < LINK_MOD)
    ensures LINK_MOD <= load < LINK_MOD + cap ==> load % LINK_MOD < cap
  {
  }

  /** `init` sets the load factor to 0.7 * 256, rounded down. */
  const DEFAULT_LOAD_FACTOR: nat := 179
  /** The largest capacity that a default table can reserve without a later rehash. */
  const MAX_COVERED_CAP: nat := 3003121660

  /** With the default load factor, `reserve(cap)` makes the load limit at least `cap`
      exactly for the capacities up to MAX_COVERED_CAP. */
  lemma DefaultReserveCovers(cap: nat)
    requires cap <= DELMARK
    ensures MaxLoad(NextPrime(BucketRequest(cap, DEFAULT_LOAD_FACTOR)), DEFAULT_LOAD_FACTOR) >= cap
      <==> cap <= MAX_COVERED_CAP
  {
  }
}
