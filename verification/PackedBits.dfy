/** Machine words as rows of 64 bits, lowest first, with the operators of the language. */
module PackedBits {
  const WORD := 64

  type Word = w: seq<bool> | |w| == 64 witness Fill(false, 64)

  function Fill(b: bool, n: nat): (s: seq<bool>)
    ensures |s| == n && forall i :: 0 <= i < n ==> s[i] == b
  {
    seq(n, _ => b)
  }

  function And(x: Word, y: Word): (r: Word)
    ensures forall i {:trigger r[i]} :: 0 <= i < WORD ==> r[i] == (x[i] && y[i])
  {
    seq(WORD, i requires 0 <= i < WORD => x[i] && y[i])
  }

  function Or(x: Word, y: Word): (r: Word)
    ensures forall i {:trigger r[i]} :: 0 <= i < WORD ==> r[i] == (x[i] || y[i])
  {
    seq(WORD, i requires 0 <= i < WORD => x[i] || y[i])
  }

  function Not(x: Word): (r: Word)
    ensures forall i {:trigger r[i]} :: 0 <= i < WORD ==> r[i] == !x[i]
  {
    seq(WORD, i requires 0 <= i < WORD => !x[i])
  }

  /** Shifts by less than a word; bits pushed out are lost. */
  function Shl(x: Word, k: nat): (r: Word)
    requires k < WORD
    ensures forall i {:trigger r[i]} :: 0 <= i < WORD ==> r[i] == (i >= k && x[i - k])
  {
    seq(WORD, i requires 0 <= i < WORD => i >= k && x[i - k])
  }

  function Shr(x: Word, k: nat): (r: Word)
    requires k < WORD
    ensures forall i {:trigger r[i]} :: 0 <= i < WORD ==> r[i] == (i + k < WORD && x[i + k])
  {
    seq(WORD, i requires 0 <= i < WORD => i + k < WORD && x[i + k])
  }

  /** All bits set: `Uint(-1)`. */
  function Ones(): (r: Word)
    ensures forall i {:trigger r[i]} :: 0 <= i < WORD ==> r[i]
  {
    Fill(true, WORD)
  }

  /** The low `width` bits set. */
  function Mask(width: nat): (r: Word)
    requires width <= WORD
    ensures forall i {:trigger r[i]} :: 0 <= i < WORD ==> r[i] == (i < width)
  {
    if width < WORD then Not(Shl(Ones(), width)) else Ones()
  }

  // ---- the words as one row of bits

  function Row(words: seq<Word>): (r: seq<bool>)
    ensures |r| == WORD * |words|
  {
    if words == [] then [] else words[0] + Row(words[1..])
  }

  /** Bit `j` of word `k`. */
  lemma {:induction false} RowAt(words: seq<Word>, k: nat, j: nat)
    requires k < |words| && j < WORD
    ensures Row(words)[WORD * k + j] == words[k][j]
    decreases k
  {
    if k > 0 {
      RowAt(words[1..], k - 1, j);
    }
  }

  /** Bits `pos` to `pos + width`, padded to a word. */
  ghost function Field(row: seq<bool>, pos: nat, width: nat): (w: Word)
    requires pos + width <= |row| && width <= WORD
    ensures forall i {:trigger w[i]} :: 0 <= i < WORD ==> w[i] == (i < width && row[pos + i])
  {
    row[pos..pos + width] + Fill(false, WORD - width)
  }

  /** No bit of `val` above `width`: it is a value of that width. */
  ghost predicate Fits(val: Word, width: nat) {
    forall i :: width <= i < WORD ==> !val[i]
  }

  /** The row with a field overwritten. */
  ghost function Put(row: seq<bool>, pos: nat, width: nat, val: Word): (r: seq<bool>)
    requires pos + width <= |row| && width <= WORD
    ensures |r| == |row|
    ensures forall i {:trigger r[i]} :: 0 <= i < |row| ==>
        r[i] == if pos <= i < pos + width then val[i - pos] else row[i]
  {
    row[..pos] + val[..width] + row[pos + width..]
  }

  lemma WordEq(x: Word, y: Word)
    requires forall i :: 0 <= i < WORD ==> x[i] == y[i]
    ensures x == y
  {
  }

  // ---- reading and writing two words

  /** `s_get_uint`. */
  function GetUint(words: seq<Word>, pos: nat, width: nat): (r: Word)
    requires width <= WORD && pos / WORD < |words|
    requires pos % WORD + width > WORD ==> pos / WORD + 1 < |words|
  {
    GetAcross(words, pos / WORD, pos % WORD, width)
  }

  function GetAcross(words: seq<Word>, p: nat, offset: nat, width: nat): (r: Word)
    requires width <= WORD && p < |words| && offset < WORD && (offset + width > WORD ==> p + 1 < |words|)
  {
    var low := Shr(words[p], offset);
    if offset + width <= WORD then And(Mask(width), low)
    else And(Mask(width), Or(low, Shl(words[p + 1], WORD - offset)))
  }

  /** Two words read what the row holds. */
  lemma GetIsField(words: seq<Word>, pos: nat, width: nat)
    requires width <= WORD && pos + width <= WORD * |words| && pos / WORD < |words|
    ensures pos % WORD + width > WORD ==> pos / WORD + 1 < |words|
    ensures GetUint(words, pos, width) == Field(Row(words), pos, width)
  {
    hide GetAcross, Field, Row;
    GetAcrossIsField(words, pos / WORD, pos % WORD, width);
  }

  lemma GetAcrossIsField(words: seq<Word>, p: nat, offset: nat, width: nat)
    requires width <= WORD && p < |words| && offset < WORD && WORD * p + offset + width <= WORD * |words|
    ensures offset + width > WORD ==> p + 1 < |words|
    ensures GetAcross(words, p, offset, width) == Field(Row(words), WORD * p + offset, width)
  {
    hide Row, GetAcross, Field;
    var g, f := GetAcross(words, p, offset, width), Field(Row(words), WORD * p + offset, width);
    forall i | 0 <= i < WORD ensures g[i] == f[i] {
      GetBit(words, p, offset, width, i);
      if i < width {
        RowAt(words, if offset + i < WORD then p else p + 1,
            if offset + i < WORD then offset + i else offset + i - WORD);
      }
    }
    WordEq(g, f);
  }

  lemma GetBit(words: seq<Word>, p: nat, offset: nat, width: nat, i: nat)
    requires width <= WORD && p < |words| && offset < WORD && (offset + width > WORD ==> p + 1 < |words|) && i < WORD
    ensures var r := GetAcross(words, p, offset, width);
            r[i] == (i < width && if offset + i < WORD then words[p][offset + i] else words[p + 1][offset + i - WORD])
  {
    hide Mask, And, Or, Not, Shl, Shr, Ones, Fill;
    var low := Shr(words[p], offset);
    assert low[i] == (i + offset < WORD && words[p][i + offset]);
    if offset + width > WORD {
      var high := Shl(words[p + 1], WORD - offset);
      assert high[i] == (i >= WORD - offset && words[p + 1][i - (WORD - offset)]);
      assert Or(low, high)[i] == (low[i] || high[i]);
    }
  }

  /** `s_set_uint_tpl`. */
  method SetUint(words: seq<Word>, pos: nat, width: nat, val: Word) returns (r: seq<Word>)
    requires width <= WORD && Fits(val, width) && pos + width <= WORD * |words| && pos / WORD < |words|
    ensures |r| == |words| && Row(r) == Put(Row(words), pos, width, val)
  {
    hide Row, And, Or, Not, Shl, Shr, Ones, Fill, Put;
    var p, offset := pos / WORD, pos % WORD;
    assert pos == WORD * p + offset;
    if offset + width < WORD {
      var keep := Or(Not(Shl(Ones(), offset)), Shl(Ones(), offset + width));
      r := words[p := Or(And(words[p], keep), Shl(val, offset))];
    } else {
      r := words[p := Or(And(words[p], Not(Shl(Ones(), offset))), Shl(val, offset))];
      if offset + width > WORD {
        var off2 := (offset + width) % WORD;
        assert off2 == offset + width - WORD;
        r := r[p + 1 := Or(And(r[p + 1], Shl(Ones(), off2)), Shr(val, WORD - offset))];
      }
    }
    var row, want := Row(r), Put(Row(words), pos, width, val);
    forall i | 0 <= i < |row| ensures row[i] == want[i] {
      SetAt(words, r, pos, width, val, i);
    }
  }

  lemma SetAt(words: seq<Word>, r: seq<Word>, pos: nat, width: nat, val: Word, i: nat)
    requires width <= WORD && pos + width <= WORD * |words| && |r| == |words| && i < WORD * |words|
    requires Written(words, r, pos, width, val)
    ensures Row(r)[i] == Put(Row(words), pos, width, val)[i]
  {
    hide Row, Put;
    var k, j := i / WORD, i % WORD;
    RowAt(words, k, j);
    RowAt(r, k, j);
    assert r[k][j] == if 0 <= WORD * k + j - pos < width && width <= WORD then val[WORD * k + j - pos] else words[k][j];
  }

  /** Word by word, the field holds `val` and the rest is as it was. */
  ghost predicate Written(words: seq<Word>, r: seq<Word>, pos: nat, width: nat, val: Word)
    requires |r| == |words|
  {
    forall k, j {:trigger r[k][j]} :: 0 <= k < |words| && 0 <= j < WORD ==>
      r[k][j] == (if 0 <= WORD * k + j - pos < width && width <= WORD then val[WORD * k + j - pos] else words[k][j])
  }
}
