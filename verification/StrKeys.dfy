/** Comparing strings by a fixed-size prefix first. */
module StrKeys {
  import opened Basics

  /** Plain byte order; a string comes after its own beginnings. */
  predicate Less(x: seq<Byte>, y: seq<Byte>) {
    if y == [] then false
    else if x == [] then true
    else if x[0] != y[0] then x[0] < y[0]
    else Less(x[1..], y[1..])
  }

  function Byte256(n: nat): (p: nat)
    ensures p > 0
  {
    if n == 0 then 1 else 256 * Byte256(n - 1)
  }

  /** The first `n` bytes as a big-endian number, with zeros for the missing ones. */
  function Prefix(s: seq<Byte>, n: nat): (p: nat)
    ensures p < Byte256(n)
  {
    if n == 0 then 0
    else
      var b: nat := if s == [] then 0 else s[0];
      var rest := Prefix(if s == [] then [] else s[1..], n - 1);
      assert b * Byte256(n - 1) + rest < 256 * Byte256(n - 1) by { Below(b, rest, Byte256(n - 1)); }
      b * Byte256(n - 1) + rest
  }

  lemma Below(b: nat, rest: nat, w: nat)
    requires b < 256 && rest < w
    ensures b * w + rest < 256 * w
  {
    assert (b + 1) * w <= 256 * w;
  }

  /** The higher digit decides, the lower ones only after a tie. */
  lemma Digits(b: nat, c: nat, r: nat, s: nat, w: nat)
    requires r < w && s < w
    ensures b < c ==> b * w + r < c * w + s
    ensures b == c ==> (b * w + r < c * w + s <==> r < s)
  {
    if b < c {
      assert (b + 1) * w <= c * w;
    }
  }

  /** `ByteWiseKeyCompare`, for a prefix of `n` bytes. */
  predicate ByteWiseLess(x: seq<Byte>, y: seq<Byte>, n: nat) {
    var px, py := Prefix(x, n), Prefix(y, n);
    if px < py then true
    else if py < px then false
    else if |x| <= n || |y| <= n then |x| < |y|
    else Less(x[n..], y[n..])
  }

  function Tail(s: seq<Byte>): seq<Byte> { if s == [] then [] else s[1..] }

  /** Comparing by prefix is plain byte order, whatever the strings hold. */
  lemma {:induction false} ByteWiseIsLess(x: seq<Byte>, y: seq<Byte>, n: nat)
    ensures ByteWiseLess(x, y, n) <==> Less(x, y)
    decreases n
  {
    if n == 0 {
      assert x[0..] == x && y[0..] == y;
    } else {
      ByteWiseIsLess(Tail(x), Tail(y), n - 1);
      ByteWiseStep(x, y, n);
    }
  }

  lemma ByteWiseStep(x: seq<Byte>, y: seq<Byte>, n: nat)
    requires n > 0 && (ByteWiseLess(Tail(x), Tail(y), n - 1) <==> Less(Tail(x), Tail(y)))
    ensures ByteWiseLess(x, y, n) <==> Less(x, y)
  {
    var b: nat, c: nat := if x == [] then 0 else x[0], if y == [] then 0 else y[0];
    var r, s := Prefix(Tail(x), n - 1), Prefix(Tail(y), n - 1);
    Digits(b, c, r, s, Byte256(n - 1));
    Digits(c, b, s, r, Byte256(n - 1));
    if x != [] && y != [] && |x| > n && |y| > n {
      assert x[1..][n - 1..] == x[n..] && y[1..][n - 1..] == y[n..];
    }
    if x == [] {
      NoPrefix(n - 1);
    }
    if y == [] {
      NoPrefix(n - 1);
    }
  }

  lemma {:induction false} NoPrefix(n: nat)
    ensures Prefix([], n) == 0
  {
    if n > 0 {
      NoPrefix(n - 1);
    }
  }

  // ---- it is a strict order

  lemma {:induction false} LessAsym(x: seq<Byte>, y: seq<Byte>)
    requires Less(x, y)
    ensures !Less(y, x)
  {
    if x != [] && x[0] == y[0] {
      LessAsym(x[1..], y[1..]);
    }
  }

  lemma {:induction false} LessTrans(x: seq<Byte>, y: seq<Byte>, z: seq<Byte>)
    requires !Less(y, x) && !Less(z, y)
    ensures !Less(z, x)
  {
    if x != [] && y != [] && z != [] && x[0] == y[0] == z[0] {
      LessTrans(x[1..], y[1..], z[1..]);
    }
  }

  lemma {:induction false} LessTotal(x: seq<Byte>, y: seq<Byte>)
    requires !Less(x, y) && !Less(y, x)
    ensures x == y
  {
    if x != [] && y != [] {
      LessTotal(x[1..], y[1..]);
      assert x == [x[0]] + x[1..] && y == [y[0]] + y[1..];
    }
  }
}
