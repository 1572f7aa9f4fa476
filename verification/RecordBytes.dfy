/** Numbers and strings as bytes. */
module RecordBytes {
  import opened Basics

  // ---- little-endian 32-bit integers

  /** The low 32 bits of `x`, lowest byte first. */
  function LE32(x: nat): (b: seq<Byte>)
    ensures |b| == 4
  {
    [x % 256, x / 256 % 256, x / 0x1_0000 % 256, x / 0x100_0000 % 256]
  }

  function FromLE32(b: seq<Byte>): (x: nat)
    requires |b| == 4
  {
    var b0: nat, b1: nat, b2: nat, b3: nat := b[0], b[1], b[2], b[3];
    b0 + 256 * b1 + 0x1_0000 * b2 + 0x100_0000 * b3
  }

  lemma LE32RoundTrip(x: nat)
    requires x < 0x1_0000_0000
    ensures FromLE32(LE32(x)) == x
  {
    var y := x / 256;
    var z := y / 256;
    assert x / 0x1_0000 == z && x / 0x100_0000 == z / 256;
    assert x == 256 * y + x % 256 && y == 256 * z + y % 256 && z == 256 * (z / 256) + z % 256;
  }

  lemma LE32Differ(x: nat, y: nat)
    requires x < 0x1_0000_0000 && y < 0x1_0000_0000 && x != y
    ensures LE32(x) != LE32(y)
  {
    LE32RoundTrip(x);
    LE32RoundTrip(y);
  }

  // ---- variable-length unsigned integers

  /** Seven bits a byte, lowest first, the high bit saying that more follow. */
  function VarUint(x: nat): (b: seq<Byte>)
    ensures |b| > 0
  {
    if x < 128 then [x] else [x % 128 + 128] + VarUint(x / 128)
  }

  method SaveVarUint(x0: nat) returns (buf: seq<Byte>)
    ensures buf == VarUint(x0)
  {
    var x := x0;
    buf := [];
    while true
      invariant VarUint(x0) == buf + VarUint(x)
      decreases x
    {
      var b := x % 128;
      x := x / 128;
      if x == 0 {
        buf := buf + [b];
        return;
      }
      buf := buf + [b + 128];
    }
  }

  /** The weight of byte number `i`. */
  function Weight(i: nat): (w: nat)
    ensures w > 0
  {
    if i == 0 then 1 else 128 * Weight(i - 1)
  }

  /** `s` is what `data` holds from `pos` on. */
  ghost predicate At(data: seq<Byte>, pos: nat, s: seq<Byte>) {
    pos + |s| <= |data| && data[pos..pos + |s|] == s
  }

  lemma AtSplit(data: seq<Byte>, pos: nat, s: seq<Byte>, t: seq<Byte>)
    requires At(data, pos, s + t)
    ensures At(data, pos, s) && At(data, pos + |s|, t)
  {
    var w := s + t;
    assert w[..|s|] == s && w[|s|..] == t && |w| == |s| + |t|;
    assert data[pos..pos + |s|] == data[pos..pos + |w|][..|s|];
    assert data[pos + |s|..pos + |s| + |t|] == data[pos..pos + |w|][|s|..];
  }

  lemma AtHead(data: seq<Byte>, pos: nat, s: seq<Byte>)
    requires At(data, pos, s) && s != []
    ensures pos < |data| && data[pos] == s[0]
  {
    assert data[pos] == data[pos..pos + |s|][0];
  }

  /** Reads at most five bytes; 32 bits are kept. Fails when a fifth byte asks for more,
      or when the bytes run out. */
  method LoadVarUint(data: seq<Byte>, pos0: nat, ghost y: nat) returns (ok: bool, x: nat, pos: nat)
    requires pos0 <= |data|
    ensures pos0 <= pos <= |data| && (ok ==> pos0 < pos)
    ensures At(data, pos0, VarUint(y)) && y < 0x1_0000_0000 ==> ok && x == y && pos == pos0 + |VarUint(y)|
  {
    ok, x, pos := false, 0, pos0;
    var i := 0;
    ghost var rest, known := y, At(data, pos0, VarUint(y)) && y < 0x1_0000_0000;
    while i < 5
      invariant 0 <= i <= 5 && pos == pos0 + i <= |data|
      invariant known ==> Loading(data, pos, x, rest, Weight(i), y)
      invariant known ==> pos + |VarUint(rest)| == pos0 + |VarUint(y)| && (i > 0 ==> rest > 0)
    {
      if known {
        AtHead(data, pos, VarUint(rest));
      }
      if pos >= |data| {
        return;
      }
      var b: int := data[pos];
      if known {
        LoadStep(data, pos, x, rest, b, Weight(i), y);
      }
      x := (x + b % 128 * Weight(i)) % 0x1_0000_0000;
      pos, i := pos + 1, i + 1;
      if b < 128 {
        return true, x, pos;
      }
      rest := rest / 128;
    }
    if known {
      FiveBytes(x, rest, y);
    }
  }

  /** `x` is what has been read of `y`, and `rest`, of the given weight, comes next. */
  ghost predicate Loading(data: seq<Byte>, pos: nat, x: nat, rest: nat, weight: nat, y: nat) {
    x + rest * weight == y < 0x1_0000_0000 && At(data, pos, VarUint(rest))
  }

  lemma LoadStep(data: seq<Byte>, pos: nat, x: nat, rest: nat, b: int, weight: nat, y: nat)
    requires Loading(data, pos, x, rest, weight, y) && pos < |data| && b == data[pos]
    ensures b < 128 <==> rest < 128
    ensures var x' := (x + b % 128 * weight) % 0x1_0000_0000;
            if rest < 128 then x' == y && |VarUint(rest)| == 1
            else Loading(data, pos + 1, x', rest / 128, 128 * weight, y) && |VarUint(rest)| == 1 + |VarUint(rest / 128)|
  {
    AtHead(data, pos, VarUint(rest));
    assert b % 128 == rest % 128;
    LoadSum(x, rest, weight, y);
    if rest >= 128 {
      AtSplit(data, pos, [rest % 128 + 128], VarUint(rest / 128));
    }
  }

  lemma LoadSum(x: nat, rest: nat, weight: nat, y: nat)
    requires x + rest * weight == y < 0x1_0000_0000
    ensures var x' := (x + rest % 128 * weight) % 0x1_0000_0000; x' + rest / 128 * (128 * weight) == y
    ensures rest < 128 ==> (x + rest % 128 * weight) % 0x1_0000_0000 == y
  {
    var q, r := rest / 128, rest % 128;
    assert rest == q * 128 + r;
    Regroup(q, r, weight);
    assert r * weight >= 0 && q * (128 * weight) >= 0;
  }

  lemma Regroup(q: nat, r: nat, w: nat)
    ensures (q * 128 + r) * w == q * (128 * w) + r * w
  {
  }

  /** A 32-bit value never needs a sixth byte. */
  lemma FiveBytes(x: nat, rest: nat, y: nat)
    requires rest > 0 && x + rest * Weight(5) == y
    ensures y >= 0x1_0000_0000
  {
    assert Weight(2) == 16384;
    assert Weight(4) == 268435456;
    assert Weight(5) == 34359738368;
  }
}
