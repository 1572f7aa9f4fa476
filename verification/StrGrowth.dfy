/** How the node array and the pool of the string map grow. */
module StrGrowth {
  import opened Basics
  import opened HashSizing
  import opened StrPieces
  import opened StrBins

  /** All slot numbers stay below this. */
  const MAX_LINK := DELMARK - 1

  /** All offsets, counted in alignment units, stay at or below this. */
  const MAX_POOL := TAIL

  /** The new size of a full node array of `n` slots, computed in 32 bits. */
  function NodeCap(n: nat): nat {
    if n == 0 then 1 else (n + 1) * 103 % LINK_MOD / 64
  }

  function AtMost(x: nat, bound: nat): nat {
    if x > bound then bound else x
  }

  /** Up to this size the product fits. */
  const GROW_LIMIT := 41698711

  /** The new size passes the check of `reserve_nodes` exactly up to there, and then there is
      room for one more slot. */
  lemma NodeCapFits(n: nat)
    requires n < MAX_LINK
    ensures n <= NodeCap(n) <==> n + 1 <= GROW_LIMIT
    ensures n + 1 <= GROW_LIMIT ==> n < NodeCap(n) <= MAX_LINK
  {
  }

  /** The sizes that a node array goes through when it grows by insertion only. */
  ghost function Grown(i: nat): nat {
    if i == 0 then 0 else NodeCap(Grown(i - 1))
  }

  lemma GrownNext(i: nat, v: nat)
    requires Grown(i) == v
    ensures Grown(i + 1) == NodeCap(v)
  {
  }

  lemma GrowthStart()
    ensures Grown(18) == 10259
  {
    assert Grown(0) == 0;
    hide Grown;
    GrownNext(0, 0);
    GrownNext(1, 1);
    GrownNext(2, 3);
    GrownNext(3, 6);
    GrownNext(4, 11);
    GrownNext(5, 19);
    GrownNext(6, 32);
    GrownNext(7, 53);
    GrownNext(8, 86);
    GrownNext(9, 140);
    GrownNext(10, 226);
    GrownNext(11, 365);
    GrownNext(12, 589);
    GrownNext(13, 949);
    GrownNext(14, 1528);
    GrownNext(15, 2460);
    GrownNext(16, 3960);
    GrownNext(17, 6374);
  }

  /** The last size is 53828994, reached in 36 steps: there the next one comes out smaller, and
      the source stops. */
  lemma GrowthStops()
    ensures Grown(36) == 53828994 && NodeCap(53828994) == 19522174
  {
    hide Grown;
    GrowthStart();
    GrownNext(18, 10259);
    GrownNext(19, 16512);
    GrownNext(20, 26575);
    GrownNext(21, 42770);
    GrownNext(22, 68834);
    GrownNext(23, 110781);
    GrownNext(24, 178289);
    GrownNext(25, 286935);
    GrownNext(26, 461787);
    GrownNext(27, 743190);
    GrownNext(28, 1196073);
    GrownNext(29, 1924931);
    GrownNext(30, 3097937);
    GrownNext(31, 4985743);
    GrownNext(32, 8023931);
    GrownNext(33, 12913515);
    GrownNext(34, 20782689);
    GrownNext(35, 33447141);
  }

  lemma {:induction false} FlatWhole(pieces: seq<seq<Byte>>, align: nat) returns (q: nat)
    requires Long(pieces, align)
    ensures |Flat(pieces)| == q * align
  {
    hide Whole;
    q := 0;
    if pieces != [] {
      var k := |pieces| - 1;
      var q0 := FlatWhole(pieces[..k], align);
      q := MoreUnits(q0, |pieces[k]|, align);
    }
  }

  lemma MoreUnits(q0: nat, n: nat, align: nat) returns (q: nat)
    requires Whole(n, align)
    ensures q * align == q0 * align + n
  {
    q := q0 + n / align;
    assert n == n / align * align;
  }

  /** Whole units below a bound are below the whole units of the bound. */
  lemma UnitsBelow(q: nat, align: nat, bound: nat)
    requires align > 0 && q * align <= bound
    ensures q * align <= bound / align * align <= bound
  {
    var b := bound / align;
    assert (q - b) * align == q * align - b * align && (b - q) * align == b * align - q * align;
    P.AtLeast(q - b, align);
    P.AtLeast(b - q, align);
  }

  /** The pool size wanted for `x` bytes. */
  function Wanted(x: nat): (r: nat)
    ensures x <= r
  {
    Grows(x);
    (x * 103 / 64 + 63) / 64 * 64
  }

  lemma NewMaxFits(pieces: seq<seq<Byte>>, len: nat, align: nat, newmax: nat)
    requires Long(pieces, align) && Whole(len, align)
    requires newmax == MAX_POOL * align || (newmax == Wanted(|Flat(pieces)| + len) && newmax < MAX_POOL * align)
    ensures |Flat(pieces)| + len <= newmax <==> |Flat(pieces)| + len <= MAX_POOL * align
    ensures |Flat(pieces)| + len <= newmax ==> |Flat(pieces)| + len <= newmax / align * align <= MAX_POOL * align
  {
    hide Flat, Long, Wanted;
    var q0 := FlatWhole(pieces, align);
    var q := MoreUnits(q0, len, align);
    if q * align <= newmax {
      UnitsBelow(q, align, newmax);
    }
  }

  lemma Grows(n: nat)
    ensures n * 103 / 64 >= n && (n * 103 / 64 + 63) / 64 * 64 >= n
  {
  }
}
