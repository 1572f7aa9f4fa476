/** Three-way comparison by a prefix, and what a sorted sequence of keys looks like through it. */
module StrSearch {
  import opened Basics
  import opened StrKeys

  /** The sign of a comparison that looks at `plen` bytes and at the lengths. */
  function Compare3(x: seq<Byte>, y: seq<Byte>, plen: nat): int {
    if plen == 0 || x == [] || y == [] then
      if plen < |x| && plen < |y| then 0 else |x| - |y|
    else if x[0] != y[0] then x[0] as int - y[0] as int
    else Compare3(x[1..], y[1..], plen - 1)
  }

  type Compare = (seq<Byte>, seq<Byte>) -> int

  function ByPrefix(plen: nat): Compare {
    (x: seq<Byte>, y: seq<Byte>) => Compare3(x, y, plen)
  }

  /** `prefix_compare3`. */
  method PrefixCompare3(x: seq<Byte>, y: seq<Byte>, plen: nat) returns (c: int)
    ensures c == Compare3(x, y, plen)
  {
    var lmin := if |x| < |y| then |x| else |y|;
    var clen := if lmin < plen then lmin else plen;
    var i := 0;
    assert x[0..] == x && y[0..] == y;
    while i < clen
      invariant 0 <= i <= clen && Compare3(x, y, plen) == Compare3(x[i..], y[i..], plen - i)
    {
      if x[i] != y[i] {
        return x[i] as int - y[i] as int;
      }
      assert x[i..][1..] == x[i + 1..] && y[i..][1..] == y[i + 1..];
      i := i + 1;
    }
    return if plen < lmin then 0 else |x| - |y|;
  }

  /** Equal means: the same string, or the same first `plen` bytes of two longer ones. */
  lemma {:induction false} Compare3Zero(x: seq<Byte>, y: seq<Byte>, plen: nat)
    ensures Compare3(x, y, plen) == 0 <==> x == y || (plen < |x| && plen < |y| && x[..plen] == y[..plen])
    decreases plen
  {
    if plen == 0 || x == [] || y == [] {
    } else {
      Compare3Zero(x[1..], y[1..], plen - 1);
      assert x == [x[0]] + x[1..] && y == [y[0]] + y[1..];
      if plen < |x| && plen < |y| {
        assert x[..plen] == [x[0]] + x[1..][..plen - 1] && y[..plen] == [y[0]] + y[1..][..plen - 1];
      }
    }
  }

  /** Along ascending keys the sign never goes back. */
  lemma {:induction false} Compare3Ascends(x: seq<Byte>, z: seq<Byte>, y: seq<Byte>, plen: nat)
    requires Less(x, z)
    ensures Compare3(z, y, plen) < 0 ==> Compare3(x, y, plen) < 0
    ensures Compare3(z, y, plen) <= 0 ==> Compare3(x, y, plen) <= 0
    decreases plen
  {
    if plen > 0 && x != [] && y != [] && z != [] && x[0] == z[0] == y[0] {
      Compare3Ascends(x[1..], z[1..], y[1..], plen - 1);
    }
  }

  /** Signs that never go back: below zero, then zero, then above. */
  ghost predicate Rising(s: seq<int>) {
    forall i, j :: 0 <= i < j < |s| ==> (s[j] < 0 ==> s[i] < 0) && (s[j] <= 0 ==> s[i] <= 0)
  }

  ghost predicate PartedAt(s: seq<int>, lo: nat, hi: nat) {
    && lo <= hi <= |s|
    && (forall i :: 0 <= i < lo ==> s[i] < 0)
    && (forall i :: lo <= i < hi ==> s[i] == 0)
    && (forall i :: hi <= i < |s| ==> s[i] > 0)
  }
}
