/** Vectors of integers packed at a fixed number of bits each. */
module PackedInts {
  import opened PackedBits

  // ---- reading with one load

  /** An eight-byte load from byte `b`. */
  function Load(row: seq<bool>, b: nat): (w: Word)
    requires 8 * b + WORD <= |row|
  {
    row[8 * b..8 * b + WORD]
  }

  /** `fast_get`: one load, one shift, one mask. */
  function FastGet(row: seq<bool>, bits: nat, pos: nat): (w: Word)
    requires bits <= WORD && 8 * (pos / 8) + WORD <= |row|
  {
    And(Shr(Load(row, pos / 8), pos % 8), Mask(bits))
  }

  lemma FastGetBit(row: seq<bool>, bits: nat, pos: nat, i: nat)
    requires bits <= WORD && 8 * (pos / 8) + WORD <= |row| && i < WORD
    ensures FastGet(row, bits, pos)[i] == (i < bits && i + pos % 8 < WORD && row[pos + i])
  {
    hide And, Shr, Mask;
    var b, o := pos / 8, pos % 8;
    var v := Load(row, b);
    assert Shr(v, o)[i] == (i + o < WORD && v[i + o]);
    if i + o < WORD {
      assert v[i + o] == row[8 * b + (i + o)] && 8 * b + (i + o) == pos + i;
    }
  }

  /** When the field ends inside the loaded bytes, the load finds all of it. */
  lemma FastGetIsField(row: seq<bool>, bits: nat, pos: nat)
    requires bits <= WORD && 8 * (pos / 8) + WORD <= |row| && pos + bits <= |row| && pos % 8 + bits <= WORD
    ensures FastGet(row, bits, pos) == Field(row, pos, bits)
  {
    hide FastGet, Field;
    forall i | 0 <= i < WORD ensures FastGet(row, bits, pos)[i] == Field(row, pos, bits)[i] {
      FastGetBit(row, bits, pos, i);
    }
    WordEq(FastGet(row, bits, pos), Field(row, pos, bits));
  }

  /** When it does not, a row of ones shows the difference. */
  lemma FastGetMisses(row: seq<bool>, bits: nat, pos: nat)
    requires bits <= WORD && 8 * (pos / 8) + WORD <= |row| && pos + bits <= |row| && pos % 8 + bits > WORD
    requires row[pos + bits - 1]
    ensures FastGet(row, bits, pos) != Field(row, pos, bits)
  {
    hide FastGet, Field;
    FastGetBit(row, bits, pos, bits - 1);
    assert Field(row, pos, bits)[bits - 1];
  }

  ghost predicate AlwaysInside(bits: nat) {
    forall idx: nat :: bits * idx % 8 + bits <= WORD
  }

  /** The widths at which every index is safe: up to 58 because such fields of 58 start at
      even bits, and 60 and 64 besides. */
  lemma SafeWidths(bits: nat)
    requires bits <= WORD
    ensures AlwaysInside(bits) <==> bits <= 58 || bits == 60 || bits == 64
  {
    if bits <= 58 || bits == 60 || bits == 64 {
      forall idx: nat ensures bits * idx % 8 + bits <= WORD {
        Inside(bits, idx);
      }
    } else {
      var idx := if bits == 59 then 5 else if bits == 61 then 3 else 1;
      Outside(bits, idx);
      assert !(bits * idx % 8 + bits <= WORD);
    }
  }

  /** A load for item `idx`, and its field, lie inside the row. */
  predicate HasItem(row: seq<bool>, bits: nat, idx: nat) {
    8 * (bits * idx / 8) + WORD <= |row| && bits * idx + bits <= |row|
  }

  ghost predicate ReadsAll(bits: nat)
    requires bits <= WORD
  {
    forall row, idx: nat :: HasItem(row, bits, idx) ==> FastGet(row, bits, bits * idx) == Field(row, bits * idx, bits)
  }

  /** One load reads every item of every row exactly at these widths. */
  lemma FastGetReadsAll(bits: nat)
    requires bits <= WORD
    ensures ReadsAll(bits) <==> bits <= 58 || bits == 60 || bits == 64
  {
    SafeWidths(bits);
    if AlwaysInside(bits) {
      forall row, idx: nat | HasItem(row, bits, idx)
        ensures FastGet(row, bits, bits * idx) == Field(row, bits * idx, bits) {
        FastGetIsField(row, bits, bits * idx);
      }
    } else {
      var idx: nat :| bits * idx % 8 + bits > WORD;
      var row := Fill(true, 8 * (bits * idx / 8) + 2 * WORD);
      FastGetMisses(row, bits, bits * idx);
      assert HasItem(row, bits, idx);
    }
  }

  lemma Inside(bits: nat, idx: nat)
    requires bits <= 58 || bits == 60 || bits == 64
    ensures bits * idx % 8 + bits <= WORD
  {
    if bits == 58 {
      Multiples(29 * idx);
      assert bits * idx == 2 * (29 * idx);
    } else if bits == 60 {
      Multiples(15 * idx);
      assert bits * idx == 4 * (15 * idx);
    } else if bits == 64 {
      Multiples(8 * idx);
      assert bits * idx == 8 * (8 * idx);
    }
  }

  lemma Multiples(q: nat)
    ensures 2 * q % 8 <= 6 && 4 * q % 8 <= 4 && 8 * q % 8 == 0
  {
  }

  lemma Outside(bits: nat, idx: nat)
    requires bits in {59, 61, 62, 63} && idx == if bits == 59 then 5 else if bits == 61 then 3 else 1
    ensures bits * idx % 8 + bits > WORD
  {
    if bits == 59 {
      assert bits * idx == 295;
    } else if bits == 61 {
      assert bits * idx == 183;
    } else {
      assert bits * idx == bits;
    }
  }

  // ---- memory

  /** `compute_mem_size`, in bytes. */
  function MemSize(bits: nat, num: nat): (m: nat) {
    ((bits * num + 7) / 8 + 7 + 15) / 16 * 16
  }

  /** Every load and every word touched lies inside. */
  lemma MemSuffices(bits: nat, num: nat, idx: nat)
    requires bits <= WORD && idx < num
    ensures var pos := bits * idx;
            && pos + bits <= 8 * MemSize(bits, num) && 8 * (pos / 8) + WORD <= 8 * MemSize(bits, num)
            && pos / WORD < MemSize(bits, num) / 8
    ensures MemSize(bits, num) % 8 == 0
  {
    MulStep(bits, idx, num);
    MemBounds(bits * idx, bits, bits * num, MemSize(bits, num));
  }

  lemma MemAligned(bits: nat, num: nat)
    ensures 8 * (MemSize(bits, num) / 8) == MemSize(bits, num)
  {
    Align16((bits * num + 7) / 8 + 7 + 15, MemSize(bits, num));
  }

  lemma MulStep(bits: nat, idx: nat, num: nat)
    requires idx < num
    ensures bits * idx + bits <= bits * num
  {
    assert bits * (idx + 1) <= bits * num;
  }

  lemma MemBounds(pos: nat, bits: nat, all: nat, m: nat)
    requires pos + bits <= all && (bits == 0 ==> all == 0) && m == ((all + 7) / 8 + 7 + 15) / 16 * 16
    ensures pos + bits <= 8 * m && 8 * (pos / 8) + WORD <= 8 * m && pos / WORD < m / 8 && m % 8 == 0
  {
    var u := (all + 7) / 8;
    assert all <= 8 * u <= all + 7;
    Align16(u + 22, m);
    assert m >= u + 7;
    var b := pos / 8;
    assert 8 * b <= pos;
    assert b + 8 <= m;
    WordInside(pos, m);
  }

  lemma Align16(t: nat, m: nat)
    requires m == t / 16 * 16
    ensures m <= t < m + 16 && m % 8 == 0
  {
  }

  lemma WordInside(pos: nat, m: nat)
    requires 8 * (pos / 8) + WORD <= 8 * m && m % 8 == 0
    ensures pos / WORD < m / 8
  {
    assert pos < 8 * m;
    assert m == 8 * (m / 8);
  }

  // ---- numbers

  function Pow2(n: nat): (p: nat)
    ensures p > 0
  {
    if n == 0 then 1 else 2 * Pow2(n - 1)
  }

  /** The low `n` bits of `x`. */
  function BitsOf(x: nat, n: nat): (s: seq<bool>)
    ensures |s| == n
  {
    if n == 0 then [] else [x % 2 == 1] + BitsOf(x / 2, n - 1)
  }

  function Num(s: seq<bool>): (x: nat) {
    if s == [] then 0 else (if s[0] then 1 else 0) + 2 * Num(s[1..])
  }

  lemma {:induction false} NumRoundTrip(x: nat, n: nat)
    requires x < Pow2(n)
    ensures Num(BitsOf(x, n)) == x
  {
    if n > 0 {
      NumRoundTrip(x / 2, n - 1);
      assert BitsOf(x, n)[1..] == BitsOf(x / 2, n - 1);
    }
  }

  lemma {:induction false} HighBitsClear(x: nat, k: nat, n: nat, i: nat)
    requires x < Pow2(k) && k <= i < n
    ensures !BitsOf(x, n)[i]
    decreases n
  {
    if k == 0 {
      ZeroBits(n, i);
    } else {
      HighBitsClear(x / 2, k - 1, n - 1, i - 1);
    }
  }

  lemma {:induction false} ZeroBits(n: nat, i: nat)
    requires i < n
    ensures !BitsOf(0, n)[i]
  {
    if i > 0 {
      ZeroBits(n - 1, i - 1);
    }
  }

  /** How often a value can be halved before it is zero. */
  ghost function Halvings(x: nat): nat {
    if x == 0 then 0 else 1 + Halvings(x / 2)
  }

  lemma {:induction false} HalvingsBits(x: nat)
    ensures x < Pow2(Halvings(x)) && (x > 0 ==> Pow2(Halvings(x) - 1) <= x)
  {
    if x > 0 {
      HalvingsBits(x / 2);
    }
  }

  /** `compute_uintbits`: the fewest bits that hold the value. */
  method UintBits(value: nat) returns (bits: nat)
    ensures value < Pow2(bits) && (bits > 0 ==> Pow2(bits - 1) <= value)
  {
    bits := 0;
    var v := value;
    while v > 0
      invariant bits + Halvings(v) == Halvings(value)
    {
      v, bits := v / 2, bits + 1;
    }
    HalvingsBits(value);
  }

  /** A value as a word. */
  function ToWord(x: nat): (w: Word) {
    BitsOf(x, WORD)
  }

  lemma ToWordFits(x: nat, width: nat)
    requires width <= WORD && x < Pow2(width)
    ensures Fits(ToWord(x), width)
  {
    forall i | width <= i < WORD ensures !ToWord(x)[i] {
      HighBitsClear(x, width, WORD, i);
    }
  }

  lemma {:induction false} Pow2Grows(a: nat, b: nat)
    requires a <= b
    ensures Pow2(a) <= Pow2(b)
    decreases b
  {
    if a < b {
      Pow2Grows(a, b - 1);
    }
  }

  // ---- the vector

  /** A field written is a field read back, and the others stay. */
  lemma PutThenField(row: seq<bool>, pos: nat, width: nat, val: Word, at: nat)
    requires pos + width <= |row| && width <= WORD && Fits(val, width)
    requires at + width <= |row| && (at == pos || at + width <= pos || pos + width <= at)
    ensures Field(Put(row, pos, width, val), at, width) == if at == pos then val else Field(row, at, width)
  {
    hide Field, Put;
    var r, f := Put(row, pos, width, val), Field(Put(row, pos, width, val), at, width);
    var want := if at == pos then val else Field(row, at, width);
    forall i | 0 <= i < WORD ensures f[i] == want[i] {
      if i < width {
        assert r[at + i] == if pos <= at + i < pos + width then val[at + i - pos] else row[at + i];
      }
    }
    WordEq(f, want);
  }

  lemma FieldsApart(bits: nat, i: nat, j: nat)
    requires i != j
    ensures bits * i == bits * j ==> bits == 0
    ensures bits * i + bits <= bits * j || bits * j + bits <= bits * i
  {
    if i < j {
      MulStep(bits, i, j);
    } else {
      MulStep(bits, j, i);
    }
  }

  class UintVec {
    var words: seq<Word>
    var bits: nat
    var size: nat

    ghost predicate Valid()
      reads this
    {
      bits <= WORD && 8 * |words| >= MemSize(bits, size)
    }

    lemma Inside(idx: nat)
      requires Valid() && idx < size
      ensures var pos, all := bits * idx, WORD * |words|;
              pos + bits <= all && 8 * (pos / 8) + WORD <= all && pos / WORD < |words|
    {
      hide MemSize;
      MemSuffices(bits, size, idx);
    }

    ghost function Item(idx: nat): Word
      reads this
      requires Valid() && idx < size
    {
      Inside(idx);
      Field(Row(words), bits * idx, bits)
    }

    constructor (bits: nat, num: nat)
      requires bits <= WORD
      ensures Valid() && this.bits == bits && size == num
    {
      hide MemSize;
      this.bits, size := bits, num;
      words := seq(MemSize(bits, num) / 8, _ => Fill(false, WORD));
      MemAligned(bits, num);
    }

    /** `set_wire`. */
    method SetWire(idx: nat, val: Word)
      requires Valid() && idx < size && Fits(val, bits)
      modifies this`words
      ensures Valid() && Item(idx) == val
      ensures forall j :: 0 <= j < size && j != idx ==> Item(j) == old(Item(j))
    {
      hide Field, Put, Row, MemSize;
      Inside(idx);
      ghost var row := Row(words);
      words := SetUint(words, bits * idx, bits, val);
      PutThenField(row, bits * idx, bits, val, bits * idx);
      forall j | 0 <= j < size && j != idx ensures Item(j) == old(Item(j)) {
        Inside(j);
        FieldsApart(bits, idx, j);
        PutThenField(row, bits * idx, bits, val, bits * j);
        ZeroWidth(row, bits * j, bits, val);
      }
    }

    /** `UintVecMin0::get`. */
    method Get(idx: nat) returns (r: Word)
      requires Valid() && idx < size && bits <= 58
      ensures r == Item(idx)
    {
      hide Field, FastGet, Row;
      Inside(idx);
      SafeWidths(bits);
      assert AlwaysInside(bits);
      FastGetIsField(Row(words), bits, bits * idx);
      r := FastGet(Row(words), bits, bits * idx);
    }

    /** `BigUintVecMin0::get`, for any width. */
    method GetBig(idx: nat) returns (r: Word)
      requires Valid() && idx < size
      ensures r == Item(idx)
    {
      hide Field, GetUint, Row;
      Inside(idx);
      GetIsField(words, bits * idx, bits);
      r := GetUint(words, bits * idx, bits);
    }
  }

  lemma ZeroWidth(row: seq<bool>, pos: nat, width: nat, val: Word)
    requires pos + width <= |row| && width <= WORD && Fits(val, width)
    ensures width == 0 ==> val == Field(row, pos, width)
  {
    if width == 0 {
      WordEq(val, Field(row, pos, 0));
    }
  }

  /** `build_from`: stores the distance of every value to the least one. */
  method Build(src: seq<int>) returns (v: UintVec, least: int)
    requires forall i, j :: 0 <= i < |src| && 0 <= j < |src| ==> src[i] - src[j] < Pow2(WORD)
    ensures fresh(v) && v.Valid() && v.size == |src|
    ensures forall i :: 0 <= i < |src| ==> least + Num(v.Item(i)) == src[i]
    ensures forall width: nat :: (forall i :: 0 <= i < |src| ==> src[i] - least < Pow2(width)) ==> v.bits <= width
  {
    hide Row, Field, Pow2, BitsOf, MemSize;
    if |src| == 0 {
      least := 0;
      v := new UintVec(0, 0);
      return;
    }
    var min, max := src[0], src[0];
    var i := 1;
    while i < |src|
      invariant 1 <= i <= |src| && min in src && max in src
      invariant forall j :: 0 <= j < i ==> min <= src[j] <= max
    {
      if max < src[i] {
        max := src[i];
      }
      if min > src[i] {
        min := src[i];
      }
      i := i + 1;
    }
    var bits := UintBits(max - min);
    EnoughBits(max - min, bits);
    least := min;
    v := new UintVec(bits, |src|);
    i := 0;
    while i < |src|
      invariant 0 <= i <= |src| && v.Valid() && v.bits == bits && v.size == |src| && fresh(v)
      invariant forall j :: 0 <= j < i ==> v.Item(j) == ToWord(src[j] - min)
    {
      ToWordFits(src[i] - min, bits);
      v.SetWire(i, ToWord(src[i] - min));
      i := i + 1;
    }
    forall j | 0 <= j < |src| ensures least + Num(v.Item(j)) == src[j] {
      NumRoundTrip(src[j] - min, WORD);
    }
    forall width: nat | forall i :: 0 <= i < |src| ==> src[i] - least < Pow2(width) ensures bits <= width {
      FewestBits(max - min, bits, width);
    }
  }

  lemma EnoughBits(x: nat, bits: nat)
    requires x < Pow2(WORD) && (bits > 0 ==> Pow2(bits - 1) <= x)
    ensures bits <= WORD
  {
    if bits > WORD {
      Pow2Grows(WORD, bits - 1);
    }
  }

  lemma FewestBits(x: nat, bits: nat, width: nat)
    requires (bits > 0 ==> Pow2(bits - 1) <= x) && x < Pow2(width)
    ensures bits <= width
  {
    if bits > width {
      Pow2Grows(width, bits - 1);
    }
  }
}
