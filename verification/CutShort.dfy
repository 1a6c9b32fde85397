/**
 * Messages whose bytes end early. The parser notices at a tag, a value or a length, but not that a nested
 * message is shorter than its length says; so what it accepts depends on where the bytes were cut.
 */
module CutShort {
  import opened Wrappers
  import opened Varint
  import opened WireFormat
  import opened Messages
  import opened MergeLaw

  /**
   * A nested message whose length goes to the end of the input or beyond it, or is negative as a 32-bit
   * number, is accepted if and only if what there is of it parses to its end.
   */
  lemma OverlongLength(schema: Schema, e: Message, i: nat, bytes: seq<byte>, length: nat, depth: nat)
    requires Typed(schema, e) && ShortTags(schema) && i < |schema| && schema[i].Sub?
    requires |bytes| <= length < TWO_32
    ensures TypedField(schema, i, e[i])
    ensures
      var sub, fields := schema[i].schema, e[i].value.fields;
      var r := Parse(schema, e, [TagOf(schema, i)] + (Encode(length) + bytes), depth);
      && (r.AtEnd? <==> depth > 0 && Parse(sub, fields, bytes, depth - 1).AtEnd?)
      && (r.AtEnd? ==> r.m == e[i := Field(true, SubV(Parse(sub, fields, bytes, depth - 1).m))])
  {
    hide Parse, ShortTags, Encode, TagOf, ReadLength;
    TypedAt(schema, e, i);
    var s := Encode(length) + bytes;
    ReadLengthWritten(length, bytes);
    ParseAtTag(schema, e, i, s, depth);
    assert bytes[..|bytes|] == bytes && bytes[|bytes|..] == [];
    if depth > 0 {
      var parsed := Parse(schema[i].schema, e[i].value.fields, bytes, depth - 1);
      if parsed.AtEnd? {
        var f := Field(true, SubV(parsed.m));
        assert ReadField(schema, i, e[i], s, depth) == FieldDone(f, []);
        ParseNothing(schema, e[i := f], depth);
      }
    }
  }

  // ----- where the bytes may be cut -----

  /** The first `k` bytes of the pieces end between two pieces, at every level of nesting they end in. */
  predicate CutBetween(schema: Schema, cs: seq<Chunk>, k: nat)
    requires ShortTags(schema) && Shaped(schema, cs)
    decreases schema, 1, |cs|
  {
    if k == 0 then true
    else if cs == [] then false
    else
      var n := |ChunkBytes(schema, cs[0])|;
      if k < n then CutInside(schema, cs[0], k) else CutBetween(schema, cs[1..], k - n)
  }

  /** The piece is a nested message, its tag and length are there, and it is cut between its own pieces. */
  predicate CutInside(schema: Schema, c: Chunk, k: nat)
    requires ShortTags(schema) && ShapedChunk(schema, c)
    decreases schema, 0, 0
  {
    c.Nested? &&
      var header := 1 + |Encode(|Bytes(schema[c.index].schema, c.inner)|)|;
      k >= header && CutBetween(schema[c.index].schema, c.inner, k - header)
  }

  /** A varint that is cut does not read. */
  lemma DecodeCut(v: nat, j: nat, n: nat)
    requires |Encode(v)| <= n && j < |Encode(v)|
    ensures Decode(Encode(v)[..j], n).None?
  {
    var s, t := Encode(v)[..j], Encode(v)[j..];
    assert s + t == Encode(v) == Encode(v) + [];
    DecodeEncode(v, [], n);
    if Decode(s, n).Some? {
      DecodeAppend(s, t, n);
    }
  }

  /** A value that is cut does not read, whatever its kind. */
  lemma PlainCut(schema: Schema, i: nat, field: Field, v: Value, j: nat, depth: nat)
    requires ShortTags(schema) && i < |schema| && !schema[i].Sub?
    requires TypedField(schema, i, field)
    requires TypedField(schema, i, Field(true, v)) && FieldFits(schema, i, Field(true, v))
    requires j < |Body(schema, i, Field(true, v))|
    ensures ReadField(schema, i, field, Body(schema, i, Field(true, v))[..j], depth).FieldFailed?
  {
    var body := Body(schema, i, Field(true, v));
    match schema[i] {
      case Int32 =>
        Int32RoundTrip(v.number);
        DecodeCut(SignExtended(v.number), j, MAX_VARINT_BYTES);
      case Float =>
      case Str =>
        LengthCut(|v.text|, v.text, j);
    }
  }

  /** After a length, either the length itself is cut or so is what it counts. */
  lemma LengthCut(n: nat, counted: seq<byte>, j: nat)
    requires n < TWO_32 && j <= |Encode(n) + counted|
    ensures j < |Encode(n)| ==> ReadLength((Encode(n) + counted)[..j]).None?
    ensures j >= |Encode(n)| ==> ReadLength((Encode(n) + counted)[..j]) == Some((n, counted[..j - |Encode(n)|]))
  {
    hide Encode;
    EncodeSize64(n);
    if j < |Encode(n)| {
      assert (Encode(n) + counted)[..j] == Encode(n)[..j];
      DecodeCut(n, j, MAX_VARINT_BYTES);
    } else {
      assert (Encode(n) + counted)[..j] == Encode(n) + counted[..j - |Encode(n)|];
      ReadLengthWritten(n, counted[..j - |Encode(n)|]);
    }
  }

  /** An unknown field that is cut does not parse. */
  lemma AlienCut(schema: Schema, e: Message, bytes: seq<byte>, k: nat, depth: nat)
    requires Typed(schema, e) && IsAlien(schema, bytes, depth) && 0 < k < |bytes|
    ensures !Parse(schema, e, bytes[..k], depth).AtEnd?
  {
    hide ReadTag, SkipField, IsOwn, Typed;
    var s, t := bytes[..k], bytes[k..];
    assert s + t == bytes;
    if ReadTag(s).Tag? {
      ReadTagAppend(s, t);
      var tag := ReadTag(s);
      if SkipField(tag.tag, tag.rest, depth).Some? {
        SkipFieldAppend(tag.tag, tag.rest, t, depth);
      }
    }
  }

  lemma {:induction false} PieceCut(schema: Schema, e: Message, c: Chunk, k: nat, depth: nat)
    requires Typed(schema, e) && ShortTags(schema) && ShapedChunk(schema, c) && ReadableChunk(schema, c, depth)
    requires 0 < k < |ChunkBytes(schema, c)|
    ensures Parse(schema, e, ChunkBytes(schema, c)[..k], depth).AtEnd? <==> CutInside(schema, c, k)
    decreases schema, 0, 1
  {
    match c
    case Plain(i, v) =>
      hide Parse, ReadField, Body, TagOf;
      var body := Body(schema, i, Field(true, v));
      assert ChunkBytes(schema, c)[..k] == [TagOf(schema, i)] + body[..k - 1];
      TypedAt(schema, e, i);
      PlainCut(schema, i, e[i], v, k - 1, depth);
      ParseAtTag(schema, e, i, body[..k - 1], depth);
    case Nested(i, inner) =>
      NestedCut(schema, e, i, inner, k, depth);
    case Alien(bytes) =>
      AlienCut(schema, e, bytes, k, depth);
  }

  lemma {:induction false} NestedCut(schema: Schema, e: Message, i: nat, inner: seq<Chunk>, k: nat, depth: nat)
    requires Typed(schema, e) && ShortTags(schema)
    requires ShapedChunk(schema, Nested(i, inner)) && ReadableChunk(schema, Nested(i, inner), depth)
    requires 0 < k < |ChunkBytes(schema, Nested(i, inner))|
    ensures Parse(schema, e, ChunkBytes(schema, Nested(i, inner))[..k], depth).AtEnd? <==>
            CutInside(schema, Nested(i, inner), k)
    decreases schema, 0, 0
  {
    hide Parse, Encode, TagOf, ReadLength, Readable, CutBetween;
    var sub := schema[i].schema;
    var nested := Bytes(sub, inner);
    var n := |Encode(|nested|)|;
    var all := Encode(|nested|) + nested;
    assert ChunkBytes(schema, Nested(i, inner))[..k] == [TagOf(schema, i)] + all[..k - 1];
    TypedAt(schema, e, i);
    ParseAtTag(schema, e, i, all[..k - 1], depth);
    LengthCut(|nested|, nested, k - 1);
    if k - 1 >= n {
      var there := nested[..k - 1 - n];
      assert all[..k - 1] == Encode(|nested|) + there;
      OverlongLength(schema, e, i, there, |nested|, depth);
      ParseCut(sub, e[i].value.fields, inner, k - 1 - n, depth - 1);
    }
  }

  /** The first `k` bytes of well-formed pieces are accepted if and only if the cut falls between pieces. */
  lemma {:induction false} ParseCut(schema: Schema, e: Message, cs: seq<Chunk>, k: nat, depth: nat)
    requires Typed(schema, e) && ShortTags(schema) && Shaped(schema, cs) && Readable(schema, cs, depth)
    requires k <= |Bytes(schema, cs)|
    ensures Parse(schema, e, Bytes(schema, cs)[..k], depth).AtEnd? <==> CutBetween(schema, cs, k)
    decreases schema, 1, |cs|
  {
    if k == 0 {
      ParseNothing(schema, e, depth);
    } else {
      hide Parse, ChunkBytes, ReadableChunk, CutInside, Typed;
      var first, others := ChunkBytes(schema, cs[0]), Bytes(schema, cs[1..]);
      if k < |first| {
        assert Bytes(schema, cs)[..k] == first[..k];
        PieceCut(schema, e, cs[0], k, depth);
      } else {
        assert Bytes(schema, cs)[..k] == first + others[..k - |first|];
        ParsePiece(schema, e, cs[0], others[..k - |first|], depth);
        ParseCut(schema, Apply(schema, e, cs[0]), cs[1..], k - |first|, depth);
      }
    }
  }

  /** So a serialized message of which only `k` bytes arrive is accepted exactly when the cut is between fields. */
  lemma SerializedCut(schema: Schema, e: Message, m: Message, k: nat, depth: nat)
    requires Typed(schema, e) && Typed(schema, m) && ShortTags(schema)
    requires Fits(schema, m) && NestsWithin(schema, m, depth) && k <= |Serialize(schema, m)|
    ensures Parse(schema, e, Serialize(schema, m)[..k], depth).AtEnd?
       <==> CutBetween(schema, PiecesOf(schema, m, |schema|), k)
  {
    PiecesAreWritten(schema, m, |schema|);
    PiecesReadable(schema, m, |schema|, depth);
    ParseCut(schema, e, PiecesOf(schema, m, |schema|), k, depth);
  }
}
