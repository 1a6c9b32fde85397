/** The packets of the game server, and what they get from the generated code. */
module MyPacket {
  import opened Wrappers
  import opened Varint
  import opened WireFormat
  import opened Messages
  import opened MergeLaw
  import opened CutShort
  import CodedStreams

  const LOGIN_REQUEST: Schema := [Int32]
  const POSITION: Schema := [Float, Float, Float]
  const LOGIN_RESULT: Schema := [Int32, Str, Sub(POSITION)]
  const CHAT_REQUEST: Schema := [Int32, Str]
  const CHAT_RESULT: Schema := [Str, Str]
  const MOVE_REQUEST: Schema := [Int32, Sub(POSITION)]
  const MOVE_RESULT: Schema := [Int32, Sub(POSITION)]

  predicate IsPacket(schema: Schema) {
    schema in [LOGIN_REQUEST, POSITION, LOGIN_RESULT, CHAT_REQUEST, CHAT_RESULT, MOVE_REQUEST, MOVE_RESULT]
  }

  /** Tags are single bytes, as the generated code has them, and nesting is one level at most. */
  lemma PacketsAreShallow(schema: Schema, m: Message)
    requires IsPacket(schema) && Typed(schema, m)
    ensures ShortTags(schema) && NestsWithin(schema, m, 1)
  {
  }

  lemma {:induction false} NestsDeeper(schema: Schema, m: Message, depth: nat, more: nat)
    requires Typed(schema, m) && depth <= more && NestsWithin(schema, m, depth)
    ensures NestsWithin(schema, m, more)
    decreases schema
  {
    forall i | 0 <= i < |schema| && m[i].has
      ensures FieldNestsWithin(schema, i, m[i], more)
    {
      TypedAt(schema, m, i);
      assert FieldNestsWithin(schema, i, m[i], depth);
      if schema[i].Sub? {
        NestsDeeper(schema[i].schema, m[i].value.fields, depth - 1, more - 1);
      }
    }
  }

  /**
   * Any packet that fits into a buffer comes back from it, whichever fields are set; read into a packet
   * that is not empty, it is merged. The buffer has the size that was computed.
   */
  lemma PacketsComeBack(schema: Schema, e: Message, m: Message)
    requires IsPacket(schema) && Typed(schema, e) && Typed(schema, m)
    ensures ShortTags(schema) && Typed(schema, Default(schema))
    ensures Fits(schema, m) ==>
              && |Serialize(schema, m)| == ByteSize(schema, m)
              && Parse(schema, Default(schema), Serialize(schema, m), CodedStreams.RECURSION_LIMIT) == AtEnd(m)
              && Parse(schema, e, Serialize(schema, m), CodedStreams.RECURSION_LIMIT)
                 == AtEnd(MergeFrom(schema, e, m))
  {
    PacketsAreShallow(schema, m);
    DefaultIsTyped(schema);
    if Fits(schema, m) {
      SizeIsLength(schema, m);
      NestsDeeper(schema, m, 1, CodedStreams.RECURSION_LIMIT);
      RoundTrip(schema, m, CodedStreams.RECURSION_LIMIT);
      ParseSerialized(schema, e, m, CodedStreams.RECURSION_LIMIT);
    }
  }

  /** The tags of a schema, in the order of its fields. */
  function Tags(schema: Schema): seq<nat> {
    seq(|schema|, i requires 0 <= i < |schema| => TagOf(schema, i))
  }

  /** The tag bytes that the generated code writes and expects; the messages inside are positions. */
  lemma PacketTags()
    ensures Tags(LOGIN_REQUEST) == [8]
    ensures Tags(POSITION) == [13, 21, 29]
    ensures Tags(LOGIN_RESULT) == [8, 18, 26] && LOGIN_RESULT[1] == Str && LOGIN_RESULT[2] == Sub(POSITION)
    ensures Tags(CHAT_REQUEST) == [8, 18] && CHAT_REQUEST[1] == Str
    ensures Tags(CHAT_RESULT) == [10, 18] && CHAT_RESULT[0] == CHAT_RESULT[1] == Str
    ensures Tags(MOVE_REQUEST) == [8, 18] && MOVE_REQUEST[1] == Sub(POSITION)
    ensures Tags(MOVE_RESULT) == [8, 18] && MOVE_RESULT[1] == Sub(POSITION)
  {
  }

  /** In particular, whole pieces behind a length that is too long read as behind the true one. */
  lemma OverlongLengthAccepted(schema: Schema, e: Message, i: nat, inner: seq<Chunk>, length: nat, depth: nat)
    requires Typed(schema, e) && ShortTags(schema) && i < |schema|
    requires ShapedChunk(schema, Nested(i, inner)) && ReadableChunk(schema, Nested(i, inner), depth)
    requires |Bytes(schema[i].schema, inner)| <= length < TWO_32
    ensures Parse(schema, e, [TagOf(schema, i)] + (Encode(length) + Bytes(schema[i].schema, inner)), depth)
         == AtEnd(Apply(schema, e, Nested(i, inner)))
  {
    hide Parse, ShortTags, Encode, TagOf, Bytes, Readable, Apply, ApplyAll;
    ShortTagsInside(schema, i);
    var sub := schema[i].schema;
    OverlongLength(schema, e, i, Bytes(sub, inner), length, depth);
    ApplyNested(schema, e, i, inner);
    ParsePieces(sub, e[i].value.fields, inner, depth - 1);
  }

  lemma ApplyNested(schema: Schema, e: Message, i: nat, inner: seq<Chunk>)
    requires Typed(schema, e) && ShapedChunk(schema, Nested(i, inner))
    ensures e[i].value.SubV? && Typed(schema[i].schema, e[i].value.fields)
    ensures Apply(schema, e, Nested(i, inner))
         == e[i := Field(true, SubV(ApplyAll(schema[i].schema, e[i].value.fields, inner)))]
  {
  }
}
