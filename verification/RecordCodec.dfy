/** Storing a record and getting it back. */
module RecordCodec {
  import opened Basics
  import opened RecordModel
  import opened RecordEncode
  import opened RecordDecode

  method EncodeRecord(doc: seq<Elem>) returns (encoded: seq<Byte>)
    requires FormedAll(doc)
    ensures encoded == EncBody(doc) + [0]
  {
    var e := new Encoder();
    e.Object(doc);
    encoded := e.encoded;
  }

  /** Fails on bad bytes, and when bytes are left over. */
  method DecodeRecord(data: seq<Byte>, ghost doc: seq<Elem>) returns (ok: bool, out: seq<Byte>)
    ensures FormedAll(doc) && data == EncBody(doc) + [0] ==> (ok && out == BsonVal(Doc(doc)) <==> CanonicalAll(doc))
  {
    hide FormedAll, CanonicalAll, EncBody, BsonVal;
    var d := new Decoder(data);
    assert data[0..|data|] == data;
    ok := d.Object(doc);
    out := d.out;
    assert [] + BsonVal(Doc(doc)) == BsonVal(Doc(doc));
    if ok && d.pos != |data| {
      ok := false;
    }
  }

  /** What the record store checks when it inserts: decoding gives back the very bytes of
      the document. It does so exactly for canonical documents. */
  method RoundTrip(doc: seq<Elem>) returns (same: bool)
    requires FormedAll(doc)
    ensures same <==> CanonicalAll(doc)
  {
    var encoded := EncodeRecord(doc);
    var ok, out := DecodeRecord(encoded, doc);
    same := ok && out == BsonVal(Doc(doc));
  }

  /** A string with a NUL inside, a `MinKey`, a boolean of two, an array item named
      otherwise: documents that do not survive. */
  lemma NotCanonical()
    ensures var doc := [Elem(STRING, [], Text([0]))]; FormedAll(doc) && !CanonicalAll(doc)
    ensures var doc := [Elem(MIN_KEY, [], Raw([]))]; FormedAll(doc) && !CanonicalAll(doc)
    ensures var doc := [Elem(BOOL, [], Raw([2]))]; FormedAll(doc) && !CanonicalAll(doc)
    ensures var doc := [Elem(ARRAY, [], Doc([Elem(NULL, [65], Raw([]))]))]; FormedAll(doc) && !CanonicalAll(doc)
  {
    var item := Elem(NULL, [65], Raw([]));
    OneElement(Elem(STRING, [], Text([0])));
    OneElement(Elem(MIN_KEY, [], Raw([])));
    OneElement(Elem(BOOL, [], Raw([2])));
    OneElement(Elem(ARRAY, [], Doc([item])));
    OneElement(item);
    assert !IndexNames([item], 0) by {
      assert Decimal(0)[0] == 48 && item.name[0] == 65;
      assert [item][0].name != Decimal(0 + 0);
    }
  }

  lemma OneElement(e: Elem)
    ensures FormedAll([e]) <==> 0 !in e.name && Formed(e.kind, e.val)
    ensures CanonicalAll([e]) <==> Canonical(e.kind, e.val)
  {
    assert [e][1..] == [];
  }
}
