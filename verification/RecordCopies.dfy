/** The two value types whose bytes are copied from the wrong place: the encoder skips the
    pattern of a regular expression, and the decoder skips four bytes of a database reference.
    Values are taken inside the bytes around them, since those are copied too. */
module RecordCopies {
  import opened Basics
  import opened RecordBytes

  const OID_SIZE := 12

  /** Where the string at `pos` ends: at its NUL, or with the data. */
  function NulFrom(data: seq<Byte>, pos: nat): (i: nat)
    requires pos <= |data|
    ensures pos <= i <= |data|
    decreases |data| - pos
  {
    if pos == |data| || data[pos] == 0 then pos else NulFrom(data, pos + 1)
  }

  lemma {:induction false} NulAt(data: seq<Byte>, pos: nat, s: seq<Byte>, rest: seq<Byte>)
    requires pos <= |data| && data[pos..] == s + [0] + rest && 0 !in s
    ensures NulFrom(data, pos) == pos + |s| < |data| && data[pos + |s| + 1..] == rest
    decreases |s|
  {
    if s == [] {
      assert data[pos] == data[pos..][0];
    } else {
      assert data[pos] == data[pos..][0] == s[0];
      assert data[pos + 1..] == data[pos..][1..] == s[1..] + [0] + rest;
      NulAt(data, pos + 1, s[1..], rest);
    }
  }

  /** A string that ends at a NUL has none before. */
  lemma {:induction false} NulFirst(data: seq<Byte>, pos: nat, i: nat)
    requires pos <= i < |data| && data[i] == 0
    ensures NulFrom(data, pos) <= i
    decreases i - pos
  {
    if pos < i {
      NulFirst(data, pos + 1, i);
    }
  }

  // ---- regular expressions

  /** A pattern and its options, each ended by a NUL. */
  function RegExBytes(pattern: seq<Byte>, options: seq<Byte>): seq<Byte> {
    pattern + [0] + options + [0]
  }

  /** As many bytes as both strings have, from the start of the second. */
  function EncodeRegEx(doc: seq<Byte>, value: nat): Option<seq<Byte>>
    requires value <= |doc|
  {
    var a := NulFrom(doc, value);
    if a == |doc| then None else
    var b := NulFrom(doc, a + 1);
    var end := a + 1 + (b + 1 - value);
    if b == |doc| || end > |doc| then None else Some(doc[a + 1..end])
  }

  /** Both strings, and where they end. */
  function DecodeRegEx(data: seq<Byte>, pos: nat): Option<(seq<Byte>, nat)>
    requires pos <= |data|
  {
    var a := NulFrom(data, pos);
    if a == |data| then None else
    var b := NulFrom(data, a + 1);
    if b == |data| then None else Some((data[pos..b + 1], b + 1))
  }

  /** The value comes back, and the decoder stops where it was written up to. */
  ghost predicate RegExKept(doc: seq<Byte>, value: nat, bytes: seq<Byte>, later: seq<Byte>)
    requires value <= |doc|
  {
    var encoded := EncodeRegEx(doc, value);
    encoded.Some? && DecodeRegEx(encoded.value + later, 0) == Some((bytes, |encoded.value|))
  }

  /** A regular expression survives exactly when its options are its pattern and the document
      goes on with the same string once more. Whatever is encoded later does not matter. */
  lemma RegExSurvives(before: seq<Byte>, pattern: seq<Byte>, options: seq<Byte>, after: seq<Byte>, later: seq<Byte>)
    requires 0 !in pattern && 0 !in options
    ensures RegExKept(before + RegExBytes(pattern, options) + after, |before|, RegExBytes(pattern, options), later)
      <==> pattern == options && options + [0] <= after
  {
    hide EncodeRegEx, DecodeRegEx, RegExBytes, NulFrom;
    var doc, value := before + RegExBytes(pattern, options) + after, |before|;
    assert doc[value..] == RegExBytes(pattern, options) + after;
    RegExEncoded(doc, value, pattern, options, after);
    if |pattern| < |after| {
      var copied := after[..|pattern| + 1];
      assert copied == options + [0] && |pattern| == |options| <==> options + [0] <= after && |pattern| == |options|;
      RegExDecoded(pattern, options, copied, later);
    }
  }

  lemma RegExEncoded(doc: seq<Byte>, value: nat, pattern: seq<Byte>, options: seq<Byte>, after: seq<Byte>)
    requires value <= |doc| && doc[value..] == RegExBytes(pattern, options) + after && 0 !in pattern && 0 !in options
    ensures EncodeRegEx(doc, value) ==
      if |pattern| < |after| then Some(options + [0] + after[..|pattern| + 1]) else None
  {
    hide NulFrom;
    var a := value + |pattern|;
    var rest := options + [0] + after;
    assert doc[value..] == pattern + [0] + rest;
    NulAt(doc, value, pattern, rest);
    NulAt(doc, a + 1, options, after);
    if |pattern| < |after| {
      var len := |pattern| + |options| + 2;
      assert doc[a + 1..a + 1 + len] == doc[a + 1..][..len] == options + [0] + after[..|pattern| + 1];
    }
  }

  /** What comes back are the options and the first string of what was copied after them. */
  lemma RegExDecoded(pattern: seq<Byte>, options: seq<Byte>, copied: seq<Byte>, later: seq<Byte>)
    requires 0 !in pattern && 0 !in options && |copied| == |pattern| + 1
    ensures var encoded := options + [0] + copied;
            DecodeRegEx(encoded + later, 0) == Some((RegExBytes(pattern, options), |encoded|))
            <==> pattern == options && copied == options + [0]
  {
    hide NulFrom;
    var encoded := options + [0] + copied;
    var data := encoded + later;
    assert data[0..] == options + [0] + (copied + later);
    NulAt(data, 0, options, copied + later);
    if DecodeRegEx(data, 0) == Some((RegExBytes(pattern, options), |encoded|)) {
      assert data[0..|encoded|] == encoded;
      TwoStrings(pattern, options, copied);
    }
    if pattern == options && copied == options + [0] {
      assert data[|options| + 1..] == options + [0] + later;
      NulAt(data, |options| + 1, options, later);
      assert data[0..|encoded|] == encoded == RegExBytes(pattern, options);
    }
  }

  lemma TwoStrings(pattern: seq<Byte>, options: seq<Byte>, copied: seq<Byte>)
    requires 0 !in pattern && 0 !in options
    requires options + [0] + copied == RegExBytes(pattern, options)
    ensures pattern == options && copied == options + [0]
  {
    hide NulFrom;
    var s := options + [0] + copied;
    assert s[0..] == s == pattern + [0] + (options + [0]);
    NulAt(s, 0, options, copied);
    NulAt(s, 0, pattern, options + [0]);
    assert s[..|options|] == options && s[..|pattern|] == pattern;
  }

  // ---- database references

  /** The name, its NUL and the object id are stored; the length is not. */
  function DbRefBytes(name: seq<Byte>, oid: seq<Byte>): seq<Byte> {
    name + [0] + oid
  }

  /** The length, and then as many bytes as the value has, from four bytes further on. */
  function DecodeDbRef(data: seq<Byte>, pos: nat): Option<(seq<Byte>, nat)>
    requires pos <= |data|
  {
    var len := NulFrom(data, pos) - pos;
    var size := len + 1 + OID_SIZE;
    if pos + 4 + size > |data| then None else Some((LE32(len + 1) + data[pos + 4..pos + 4 + size], pos + size))
  }

  /** Each of the first `n` bytes is repeated four bytes later. */
  ghost predicate Repeats(data: seq<Byte>, n: nat) {
    n + 4 <= |data| && forall i :: 0 <= i < n ==> data[i + 4] == data[i]
  }

  /** A database reference survives exactly when its bytes and those encoded after it repeat
      every four, and then its name has fewer than four characters. */
  lemma DbRefSurvives(name: seq<Byte>, oid: seq<Byte>, later: seq<Byte>)
    requires |oid| == OID_SIZE
    ensures var bytes := DbRefBytes(name, oid);
            DecodeDbRef(bytes + later, 0) == Some((LE32(|name| + 1) + bytes, |bytes|))
            <==> 0 !in name && Repeats(bytes + later, |bytes|)
    ensures 0 !in name && Repeats(DbRefBytes(name, oid) + later, |name| + 1 + OID_SIZE) ==> |name| < 4
  {
    hide NulFrom;
    var bytes := DbRefBytes(name, oid);
    var data := bytes + later;
    assert data[0..] == name + [0] + (oid + later);
    assert data[..|bytes|] == bytes;
    if 0 !in name {
      NulAt(data, 0, name, oid + later);
      if |later| >= 4 {
        Shifted(data, bytes, LE32(|name| + 1));
      }
      if |name| >= 4 {
        assert data[|name| - 4] == name[|name| - 4] && data[|name| - 4 + 4] == 0;
      }
    } else {
      var i :| 0 <= i < |name| && name[i] == 0;
      NulFirst(data, 0, i);
    }
  }

  lemma Shifted(data: seq<Byte>, bytes: seq<Byte>, head: seq<Byte>)
    requires bytes <= data && |bytes| + 4 <= |data|
    ensures head + data[4..4 + |bytes|] == head + bytes <==> Repeats(data, |bytes|)
  {
    var moved := data[4..4 + |bytes|];
    if head + moved == head + bytes {
      assert moved == (head + moved)[|head|..] == bytes;
      forall i | 0 <= i < |bytes| ensures data[i + 4] == data[i] {
        assert moved[i] == bytes[i];
      }
    }
    if Repeats(data, |bytes|) {
      assert moved == bytes;
    }
  }
}
