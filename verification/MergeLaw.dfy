/**
 * What a message looks like on the wire in general: its fields in any order, repeated, nested messages
 * in several pieces, unknown fields anywhere. Parsing any of these merges the message they spell.
 */
module MergeLaw {
  import opened Wrappers
  import opened Varint
  import opened WireFormat
  import opened Messages

  /** A piece of a message on the wire: a value, a nested message in pieces, or an unknown field. */
  datatype Chunk = Plain(index: nat, value: Value) | Nested(index: nat, inner: seq<Chunk>) | Alien(bytes: seq<byte>)

  /** Values and nested messages are of the kinds of their fields. */
  ghost predicate Shaped(schema: Schema, cs: seq<Chunk>)
    decreases schema, 1
  {
    forall c <- cs :: ShapedChunk(schema, c)
  }

  ghost predicate ShapedChunk(schema: Schema, c: Chunk)
    decreases schema, 0
  {
    match c
    case Plain(i, v) => i < |schema| && !schema[i].Sub? && TypedField(schema, i, Field(true, v))
    case Nested(i, inner) => i < |schema| && schema[i].Sub? && Shaped(schema[i].schema, inner)
    case Alien(_) => true
  }

  function Bytes(schema: Schema, cs: seq<Chunk>): (s: seq<byte>)
    requires ShortTags(schema) && Shaped(schema, cs)
    decreases schema, 1, |cs|
  {
    if cs == [] then [] else ChunkBytes(schema, cs[0]) + Bytes(schema, cs[1..])
  }

  function ChunkBytes(schema: Schema, c: Chunk): (s: seq<byte>)
    requires ShortTags(schema) && ShapedChunk(schema, c)
    decreases schema, 0, 0
  {
    match c
    case Plain(i, v) => [TagOf(schema, i)] + Body(schema, i, Field(true, v))
    case Nested(i, inner) =>
      var nested := Bytes(schema[i].schema, inner);
      [TagOf(schema, i)] + (Encode(|nested|) + nested)
    case Alien(bytes) => bytes
  }

  /** Lengths fit, nesting stays within `depth`, and unknown fields are ones that can be skipped. */
  ghost predicate Readable(schema: Schema, cs: seq<Chunk>, depth: nat)
    requires ShortTags(schema) && Shaped(schema, cs)
    decreases schema, 1
  {
    forall c <- cs :: ReadableChunk(schema, c, depth)
  }

  ghost predicate ReadableChunk(schema: Schema, c: Chunk, depth: nat)
    requires ShortTags(schema) && ShapedChunk(schema, c)
    decreases schema, 0
  {
    match c
    case Plain(i, v) => FieldFits(schema, i, Field(true, v))
    case Nested(i, inner) =>
      && depth > 0
      && Readable(schema[i].schema, inner, depth - 1)
      && |Bytes(schema[i].schema, inner)| < TWO_31
    case Alien(bytes) => IsAlien(schema, bytes, depth)
  }

  /** One whole field that the message does not know, not an end-group tag. */
  predicate IsAlien(schema: Schema, bytes: seq<byte>, depth: nat) {
    var t := ReadTag(bytes);
    && t.Tag?
    && !IsOwn(schema, t.tag)
    && t.tag % 8 != END_GROUP
    && SkipField(t.tag, t.rest, depth) == Some([])
  }

  // ----- what the pieces do to a message -----

  function ApplyAll(schema: Schema, e: Message, cs: seq<Chunk>): (r: Message)
    requires Typed(schema, e) && Shaped(schema, cs)
    ensures Typed(schema, r)
    decreases schema, 1, |cs|
  {
    if cs == [] then e else ApplyAll(schema, Apply(schema, e, cs[0]), cs[1..])
  }

  function Apply(schema: Schema, e: Message, c: Chunk): (r: Message)
    requires Typed(schema, e) && ShapedChunk(schema, c)
    ensures Typed(schema, r)
    decreases schema, 0, 0
  {
    match c
    case Plain(i, v) => e[i := Field(true, v)]
    case Nested(i, inner) =>
      assert TypedField(schema, i, e[i]);
      var fields := ApplyAll(schema[i].schema, e[i].value.fields, inner);
      assert TypedField(schema, i, Field(true, SubV(fields)));
      e[i := Field(true, SubV(fields))]
    case Alien(_) => e
  }

  lemma {:induction false} ApplyAllAppend(schema: Schema, e: Message, cs: seq<Chunk>, ds: seq<Chunk>)
    requires Typed(schema, e) && Shaped(schema, cs) && Shaped(schema, ds)
    ensures Shaped(schema, cs + ds)
    ensures ApplyAll(schema, e, cs + ds) == ApplyAll(schema, ApplyAll(schema, e, cs), ds)
    decreases |cs|
  {
    if cs == [] {
      assert cs + ds == ds;
    } else {
      assert (cs + ds)[1..] == cs[1..] + ds;
      ApplyAllAppend(schema, Apply(schema, e, cs[0]), cs[1..], ds);
    }
  }

  // ----- parsing the pieces -----

  /** Behind its tag, a field that can be read is read into the message. */
  lemma {:induction false} ParseOwn(schema: Schema, e: Message, i: nat, s: seq<byte>, f: Field, t: seq<byte>,
                                    depth: nat)
    requires Typed(schema, e) && ShortTags(schema) && i < |schema|
    requires TypedField(schema, i, e[i])
    requires ReadField(schema, i, e[i], s, depth) == FieldDone(f, t)
    ensures Typed(schema, e[i := f])
    ensures Parse(schema, e, [TagOf(schema, i)] + s, depth) == Parse(schema, e[i := f], t, depth)
  {
    hide Parse, ReadField;
    ParseAtTag(schema, e, i, s, depth);
  }

  lemma ReadPlain(schema: Schema, i: nat, field: Field, v: Value, t: seq<byte>, depth: nat)
    requires ShortTags(schema) && i < |schema| && !schema[i].Sub?
    requires TypedField(schema, i, field) && TypedField(schema, i, Field(true, v))
    requires FieldFits(schema, i, Field(true, v))
    ensures ReadField(schema, i, field, Body(schema, i, Field(true, v)) + t, depth)
         == FieldDone(Field(true, v), t)
  {
    var s := Body(schema, i, Field(true, v)) + t;
    match schema[i] {
      case Int32 =>
        Int32RoundTrip(v.number);
        DecodeEncode(SignExtended(v.number), t, MAX_VARINT_BYTES);
        assert s[|Encode(SignExtended(v.number))|..] == t;
      case Float =>
        assert s[..4] == v.bytes && s[4..] == t;
      case Str =>
        assert s == Encode(|v.text|) + (v.text + t);
        ReadLengthWritten(|v.text|, v.text + t);
        assert (v.text + t)[..|v.text|] == v.text && (v.text + t)[|v.text|..] == t;
    }
  }

  lemma {:induction false} ReadNested(schema: Schema, i: nat, field: Field, inner: seq<Chunk>, t: seq<byte>, depth: nat)
    requires ShortTags(schema) && i < |schema| && TypedField(schema, i, field)
    requires ShapedChunk(schema, Nested(i, inner)) && ReadableChunk(schema, Nested(i, inner), depth)
    ensures
      var sub := schema[i].schema;
      var nested := Bytes(sub, inner);
      ReadField(schema, i, field, Encode(|nested|) + nested + t, depth)
      == FieldDone(Field(true, SubV(ApplyAll(sub, field.value.fields, inner))), t)
    decreases schema, 0, 0
  {
    hide Parse, ReadLength, Encode, ApplyAll, Readable, Bytes, Typed, ShortTags;
    ShortTagsInside(schema, i);
    var sub := schema[i].schema;
    var nested := Bytes(sub, inner);
    assert Encode(|nested|) + nested + t == Encode(|nested|) + (nested + t);
    ReadLengthWritten(|nested|, nested + t);
    assert (nested + t)[..|nested|] == nested && (nested + t)[|nested|..] == t;
    ParsePieces(sub, field.value.fields, inner, depth - 1);
  }

  /** A piece is merged and parsing goes on behind it. */
  lemma {:induction false} ParsePiece(schema: Schema, e: Message, c: Chunk, t: seq<byte>, depth: nat)
    requires Typed(schema, e) && ShortTags(schema)
    requires ShapedChunk(schema, c) && ReadableChunk(schema, c, depth)
    ensures Parse(schema, e, ChunkBytes(schema, c) + t, depth) == Parse(schema, Apply(schema, e, c), t, depth)
    decreases schema, 0, 1
  {
    match c
    case Plain(i, v) =>
      hide Parse, ReadField, Body, FieldFits, TagOf;
      var body := Body(schema, i, Field(true, v));
      assert ChunkBytes(schema, c) + t == [TagOf(schema, i)] + (body + t);
      assert TypedField(schema, i, e[i]);
      ReadPlain(schema, i, e[i], v, t, depth);
      ParseOwn(schema, e, i, body + t, Field(true, v), t, depth);
    case Nested(i, inner) =>
      hide Parse, ReadField, Body, FieldFits, TagOf;
      var nested := Bytes(schema[i].schema, inner);
      assert ChunkBytes(schema, c) + t == [TagOf(schema, i)] + (Encode(|nested|) + nested + t);
      assert TypedField(schema, i, e[i]);
      ReadNested(schema, i, e[i], inner, t, depth);
      ParseOwn(schema, e, i, Encode(|nested|) + nested + t,
        Field(true, SubV(ApplyAll(schema[i].schema, e[i].value.fields, inner))), t, depth);
    case Alien(bytes) =>
      ParseAlien(schema, e, bytes, t, depth);
  }

  lemma {:induction false} ParseAlien(schema: Schema, e: Message, bytes: seq<byte>, t: seq<byte>, depth: nat)
    requires Typed(schema, e) && IsAlien(schema, bytes, depth)
    ensures Parse(schema, e, bytes + t, depth) == Parse(schema, e, t, depth)
  {
    hide SkipField, ReadTag, IsOwn, Typed;
    var tag := ReadTag(bytes);
    ReadTagAppend(bytes, t);
    SkipFieldAppend(tag.tag, tag.rest, t, depth);
    assert [] + t == t;
  }

  /** Parsing pieces in any number and order does what the pieces say, one after the other. */
  lemma {:induction false} ParsePieces(schema: Schema, e: Message, cs: seq<Chunk>, depth: nat)
    requires Typed(schema, e) && ShortTags(schema) && Shaped(schema, cs) && Readable(schema, cs, depth)
    ensures Parse(schema, e, Bytes(schema, cs), depth) == AtEnd(ApplyAll(schema, e, cs))
    decreases schema, 1, |cs|
  {
    if cs != [] {
      ParsePiece(schema, e, cs[0], Bytes(schema, cs[1..]), depth);
      ParsePieces(schema, Apply(schema, e, cs[0]), cs[1..], depth);
    }
  }

  // ----- the message that pieces spell -----

  predicate Mentions(cs: seq<Chunk>, i: nat) {
    exists c <- cs :: !c.Alien? && c.index == i
  }

  /** The last value given for field `i`. */
  function LastValue(cs: seq<Chunk>, i: nat): (v: Option<Value>) {
    if cs == [] then None
    else
      var last := cs[|cs| - 1];
      if last.Plain? && last.index == i then Some(last.value) else LastValue(cs[..|cs| - 1], i)
  }

  /** All pieces of nested message `i`, in order. */
  function Inners(cs: seq<Chunk>, i: nat): (ds: seq<Chunk>) {
    if cs == [] then []
    else
      var last := cs[|cs| - 1];
      Inners(cs[..|cs| - 1], i) + (if last.Nested? && last.index == i then last.inner else [])
  }

  lemma JoinShaped(schema: Schema, cs: seq<Chunk>, ds: seq<Chunk>)
    requires Shaped(schema, cs) && Shaped(schema, ds)
    ensures Shaped(schema, cs + ds)
  {
  }

  lemma {:induction false} InnersShaped(schema: Schema, cs: seq<Chunk>, i: nat)
    requires Shaped(schema, cs) && i < |schema| && schema[i].Sub?
    ensures Shaped(schema[i].schema, Inners(cs, i))
    decreases |cs|
  {
    if cs != [] {
      InnersShaped(schema, cs[..|cs| - 1], i);
      var last := cs[|cs| - 1];
      assert ShapedChunk(schema, last);
      var inner := if last.Nested? && last.index == i then last.inner else [];
      assert Shaped(schema[i].schema, inner);
      JoinShaped(schema[i].schema, Inners(cs[..|cs| - 1], i), inner);
    }
  }

  /**
   * The pieces spell the message: they mention exactly the fields that are set, the last value given
   * for a field is its value, and all pieces given for a nested message together spell that message.
   */
  ghost predicate Spells(schema: Schema, m: Message, cs: seq<Chunk>)
    requires Typed(schema, m) && Shaped(schema, cs)
    decreases schema, 1
  {
    forall i :: 0 <= i < |schema| ==> SpellsField(schema, i, m[i], cs)
  }

  ghost predicate SpellsField(schema: Schema, i: nat, f: Field, cs: seq<Chunk>)
    requires i < |schema| && TypedField(schema, i, f) && Shaped(schema, cs)
    decreases schema, 0
  {
    && (f.has <==> Mentions(cs, i))
    && (f.has ==>
          if schema[i].Sub? then
            InnersShaped(schema, cs, i);
            Spells(schema[i].schema, f.value.fields, Inners(cs, i))
          else LastValue(cs, i) == Some(f.value))
  }

  /** What all pieces together do to one field. */
  lemma {:induction false} ApplyAllAt(schema: Schema, e: Message, cs: seq<Chunk>, i: nat)
    requires Typed(schema, e) && Shaped(schema, cs) && i < |schema|
    ensures !Mentions(cs, i) ==> ApplyAll(schema, e, cs)[i] == e[i]
    ensures Mentions(cs, i) && !schema[i].Sub? ==>
              LastValue(cs, i).Some? && ApplyAll(schema, e, cs)[i] == Field(true, LastValue(cs, i).value)
    ensures Mentions(cs, i) && schema[i].Sub? ==>
              && TypedField(schema, i, e[i])
              && Shaped(schema[i].schema, Inners(cs, i))
              && ApplyAll(schema, e, cs)[i]
                 == Field(true, SubV(ApplyAll(schema[i].schema, e[i].value.fields, Inners(cs, i))))
    decreases |cs|
  {
    hide Typed, TypedField, Apply, ApplyAll;
    TypedAt(schema, e, i);
    if cs == [] {
      ApplyNone(schema, e);
    } else {
      var most, last := cs[..|cs| - 1], cs[|cs| - 1];
      assert cs == most + [last];
      ApplyAllAt(schema, e, most, i);
      ApplyOneMore(schema, e, most, last);
      if !last.Alien? && last.index == i {
        MentionsOneMore(most, last, i);
        ApplyOwn(schema, ApplyAll(schema, e, most), last);
        if last.Nested? {
          InnersShaped(schema, cs, i);
          if !Mentions(most, i) {
            NoInners(most, i);
            assert Inners(cs, i) == last.inner;
          } else {
            ApplyAllAppend(schema[i].schema, e[i].value.fields, Inners(most, i), last.inner);
          }
        }
      } else {
        MentionsOneMore(most, last, i);
        ApplyOther(schema, ApplyAll(schema, e, most), last, i);
        assert Inners(cs, i) == Inners(most, i);
        if schema[i].Sub? {
          InnersShaped(schema, cs, i);
        }
      }
    }
  }

  lemma MentionsOneMore(cs: seq<Chunk>, c: Chunk, i: nat)
    ensures Mentions(cs + [c], i) <==> Mentions(cs, i) || (!c.Alien? && c.index == i)
  {
  }

  lemma ApplyNone(schema: Schema, e: Message)
    requires Typed(schema, e)
    ensures Shaped(schema, []) && ApplyAll(schema, e, []) == e
  {
  }

  lemma {:induction false} ApplyOneMore(schema: Schema, e: Message, cs: seq<Chunk>, c: Chunk)
    requires Typed(schema, e) && Shaped(schema, cs + [c])
    ensures Shaped(schema, cs) && ShapedChunk(schema, c)
    ensures ApplyAll(schema, e, cs + [c]) == Apply(schema, ApplyAll(schema, e, cs), c)
  {
    assert c in cs + [c];
    assert forall d <- cs :: d in cs + [c];
    ApplyAllAppend(schema, e, cs, [c]);
    ApplyNone(schema, Apply(schema, ApplyAll(schema, e, cs), c));
  }

  lemma ApplyOwn(schema: Schema, e: Message, c: Chunk)
    requires Typed(schema, e) && ShapedChunk(schema, c) && !c.Alien?
    ensures c.Plain? ==> !schema[c.index].Sub? && Apply(schema, e, c)[c.index] == Field(true, c.value)
    ensures c.Nested? ==>
              && schema[c.index].Sub?
              && Shaped(schema[c.index].schema, c.inner)
              && e[c.index].value.SubV?
              && Typed(schema[c.index].schema, e[c.index].value.fields)
              && Apply(schema, e, c)[c.index]
                 == Field(true, SubV(ApplyAll(schema[c.index].schema, e[c.index].value.fields, c.inner)))
  {
  }

  lemma ApplyOther(schema: Schema, e: Message, c: Chunk, i: nat)
    requires Typed(schema, e) && ShapedChunk(schema, c) && i < |schema|
    requires c.Alien? || c.index != i
    ensures Apply(schema, e, c)[i] == e[i]
  {
  }

  lemma {:induction false} NoInners(cs: seq<Chunk>, i: nat)
    requires !Mentions(cs, i)
    ensures Inners(cs, i) == []
    decreases |cs|
  {
    if cs != [] {
      NoInners(cs[..|cs| - 1], i);
      assert cs[|cs| - 1] in cs;
    }
  }

  /** Applying pieces merges the message they spell, whatever their order and whatever lies between. */
  lemma {:induction false} SpelledIsMerged(schema: Schema, e: Message, m: Message, cs: seq<Chunk>)
    requires Typed(schema, e) && Typed(schema, m) && Shaped(schema, cs) && Spells(schema, m, cs)
    ensures ApplyAll(schema, e, cs) == MergeFrom(schema, e, m)
    decreases schema
  {
    forall i | 0 <= i < |schema|
      ensures ApplyAll(schema, e, cs)[i] == MergeFrom(schema, e, m)[i]
    {
      ApplyAllAt(schema, e, cs, i);
      assert SpellsField(schema, i, m[i], cs);
      if m[i].has && schema[i].Sub? {
        InnersShaped(schema, cs, i);
        SpelledIsMerged(schema[i].schema, e[i].value.fields, m[i].value.fields, Inners(cs, i));
      }
    }
  }

  /** Any pieces spell a message: the one they make of an empty one. */
  lemma {:induction false} PiecesSpell(schema: Schema, cs: seq<Chunk>)
    requires Shaped(schema, cs)
    ensures Typed(schema, Default(schema))
    ensures Spells(schema, ApplyAll(schema, Default(schema), cs), cs)
    decreases schema
  {
    DefaultIsTyped(schema);
    var m := ApplyAll(schema, Default(schema), cs);
    forall i | 0 <= i < |schema|
      ensures SpellsField(schema, i, m[i], cs)
    {
      ApplyAllAt(schema, Default(schema), cs, i);
      assert TypedField(schema, i, m[i]);
      if m[i].has && schema[i].Sub? {
        InnersShaped(schema, cs, i);
        PiecesSpell(schema[i].schema, Inners(cs, i));
        assert Default(schema)[i].value.fields == Default(schema[i].schema);
      }
    }
  }

  // ----- the merge law -----

  /** Whatever spells `m` parses, into any message, to the merge with `m`. */
  lemma {:induction false} ParseMerges(schema: Schema, e: Message, m: Message, cs: seq<Chunk>, depth: nat)
    requires Typed(schema, e) && Typed(schema, m) && ShortTags(schema)
    requires Shaped(schema, cs) && Readable(schema, cs, depth) && Spells(schema, m, cs)
    ensures Parse(schema, e, Bytes(schema, cs), depth) == AtEnd(MergeFrom(schema, e, m))
  {
    ParsePieces(schema, e, cs, depth);
    SpelledIsMerged(schema, e, m, cs);
  }

  /** Parsing into a message is parsing into an empty one and merging the result. */
  lemma {:induction false} ParseThenMerge(schema: Schema, e: Message, cs: seq<Chunk>, depth: nat)
    requires Typed(schema, e) && ShortTags(schema) && Shaped(schema, cs) && Readable(schema, cs, depth)
    ensures Typed(schema, Default(schema))
    ensures
      var alone := Parse(schema, Default(schema), Bytes(schema, cs), depth);
      alone.AtEnd? && Parse(schema, e, Bytes(schema, cs), depth) == AtEnd(MergeFrom(schema, e, alone.m))
  {
    DefaultIsTyped(schema);
    PiecesSpell(schema, cs);
    var m := ApplyAll(schema, Default(schema), cs);
    ParsePieces(schema, Default(schema), cs, depth);
    ParseMerges(schema, e, m, cs, depth);
  }

  // ----- the round trip -----

  /** The pieces that serializing the first `n` fields writes. */
  function PiecesOf(schema: Schema, m: Message, n: nat): (cs: seq<Chunk>)
    requires Typed(schema, m) && n <= |schema|
    ensures Shaped(schema, cs)
    decreases schema, 1, n
  {
    if n == 0 then []
    else PiecesOf(schema, m, n - 1) + (if m[n - 1].has then [PieceOf(schema, n - 1, m[n - 1])] else [])
  }

  function PieceOf(schema: Schema, k: nat, f: Field): (c: Chunk)
    requires k < |schema| && TypedField(schema, k, f) && f.has
    ensures ShapedChunk(schema, c) && !c.Alien? && c.index == k
    decreases schema, 0, 0
  {
    if schema[k].Sub? then
      Nested(k, PiecesOf(schema[k].schema, f.value.fields, |schema[k].schema|))
    else Plain(k, f.value)
  }

  lemma {:induction false} BytesAppend(schema: Schema, cs: seq<Chunk>, c: Chunk)
    requires ShortTags(schema) && Shaped(schema, cs) && ShapedChunk(schema, c)
    ensures Shaped(schema, cs + [c])
    ensures Bytes(schema, cs + [c]) == Bytes(schema, cs) + ChunkBytes(schema, c)
    decreases |cs|
  {
    hide ChunkBytes, ShapedChunk, ShortTags;
    if cs == [] {
      assert cs + [c] == [c];
      assert [c][1..] == [];
    } else {
      assert (cs + [c])[1..] == cs[1..] + [c];
      BytesAppend(schema, cs[1..], c);
    }
  }

  lemma {:induction false} PiecesAreWritten(schema: Schema, m: Message, n: nat)
    requires Typed(schema, m) && ShortTags(schema) && n <= |schema|
    ensures Bytes(schema, PiecesOf(schema, m, n)) == FirstFields(schema, m, n)
    decreases schema, 1, n
  {
    if n > 0 {
      PiecesAreWritten(schema, m, n - 1);
      if m[n - 1].has {
        var c := PieceOf(schema, n - 1, m[n - 1]);
        BytesAppend(schema, PiecesOf(schema, m, n - 1), c);
        PieceIsWritten(schema, n - 1, m[n - 1]);
      } else {
        assert PiecesOf(schema, m, n) == PiecesOf(schema, m, n - 1) + [] == PiecesOf(schema, m, n - 1);
        assert FirstFields(schema, m, n) == FirstFields(schema, m, n - 1) + [] == FirstFields(schema, m, n - 1);
      }
    }
  }

  lemma {:induction false} PieceIsWritten(schema: Schema, k: nat, f: Field)
    requires k < |schema| && TypedField(schema, k, f) && f.has && ShortTags(schema)
    ensures ChunkBytes(schema, PieceOf(schema, k, f)) == WrittenField(schema, k, f)
    decreases schema, 0, 0
  {
    if schema[k].Sub? {
      var sub, fields := schema[k].schema, f.value.fields;
      PiecesAreWritten(sub, fields, |sub|);
      assert Bytes(sub, PiecesOf(sub, fields, |sub|)) == Serialize(sub, fields);
      assert Body(schema, k, f) == Encode(|Serialize(sub, fields)|) + Serialize(sub, fields);
    } else {
      assert Field(true, f.value) == f;
    }
  }

  lemma {:induction false} PiecesReadable(schema: Schema, m: Message, n: nat, depth: nat)
    requires Typed(schema, m) && ShortTags(schema) && Fits(schema, m) && NestsWithin(schema, m, depth) && n <= |schema|
    ensures Readable(schema, PiecesOf(schema, m, n), depth)
    decreases schema, 1, n
  {
    if n > 0 {
      PiecesReadable(schema, m, n - 1, depth);
      if m[n - 1].has {
        PieceReadable(schema, n - 1, m[n - 1], depth);
      }
    }
  }

  lemma {:induction false} PieceReadable(schema: Schema, k: nat, f: Field, depth: nat)
    requires k < |schema| && TypedField(schema, k, f) && f.has && ShortTags(schema)
    requires FieldFits(schema, k, f) && FieldNestsWithin(schema, k, f, depth)
    ensures ReadableChunk(schema, PieceOf(schema, k, f), depth)
    decreases schema, 0, 0
  {
    if schema[k].Sub? {
      PiecesReadable(schema[k].schema, f.value.fields, |schema[k].schema|, depth - 1);
      PiecesAreWritten(schema[k].schema, f.value.fields, |schema[k].schema|);
    } else {
      assert Field(true, f.value) == f;
    }
  }

  /** Each field has at most one piece, and that piece is its own. */
  lemma {:induction false} PiecesMention(schema: Schema, m: Message, n: nat, i: nat)
    requires Typed(schema, m) && n <= |schema| && i < |schema|
    requires TypedField(schema, i, m[i])
    ensures Mentions(PiecesOf(schema, m, n), i) <==> i < n && m[i].has
    ensures i < n && m[i].has ==>
              var c := PieceOf(schema, i, m[i]);
              && (c.Plain? ==> LastValue(PiecesOf(schema, m, n), i) == Some(c.value))
              && (c.Nested? ==> Inners(PiecesOf(schema, m, n), i) == c.inner)
    decreases n
  {
    hide PieceOf, Typed, TypedField, Mentions;
    MentionsNothing(i);
    if n > 0 {
      TypedAt(schema, m, n - 1);
      var most := PiecesOf(schema, m, n - 1);
      PiecesMention(schema, m, n - 1, i);
      if m[n - 1].has {
        var c := PieceOf(schema, n - 1, m[n - 1]);
        assert PiecesOf(schema, m, n) == most + [c];
        MentionsOneMore(most, c, i);
        assert (most + [c])[..|most|] == most;
        if i == n - 1 {
          NoInners(most, i);
        }
      } else {
        assert PiecesOf(schema, m, n) == most + [] == most;
      }
    }
  }

  lemma MentionsNothing(i: nat)
    ensures !Mentions([], i)
  {
  }

  lemma {:induction false} PiecesSpellMessage(schema: Schema, m: Message)
    requires Typed(schema, m)
    ensures Spells(schema, m, PiecesOf(schema, m, |schema|))
    decreases schema
  {
    var cs := PiecesOf(schema, m, |schema|);
    forall i | 0 <= i < |schema|
      ensures SpellsField(schema, i, m[i], cs)
    {
      TypedAt(schema, m, i);
      PiecesMention(schema, m, |schema|, i);
      if m[i].has && schema[i].Sub? {
        PiecesSpellMessage(schema[i].schema, m[i].value.fields);
      }
    }
  }

  /** Parsing what was serialized, into any message, merges it. */
  lemma ParseSerialized(schema: Schema, e: Message, m: Message, depth: nat)
    requires Typed(schema, e) && Typed(schema, m) && ShortTags(schema)
    requires Fits(schema, m) && NestsWithin(schema, m, depth)
    ensures Parse(schema, e, Serialize(schema, m), depth) == AtEnd(MergeFrom(schema, e, m))
  {
    PiecesAreWritten(schema, m, |schema|);
    PiecesReadable(schema, m, |schema|, depth);
    PiecesSpellMessage(schema, m);
    ParseMerges(schema, e, m, PiecesOf(schema, m, |schema|), depth);
  }

  /** What was serialized comes back. */
  lemma RoundTrip(schema: Schema, m: Message, depth: nat)
    requires Typed(schema, m) && ShortTags(schema) && Fits(schema, m) && NestsWithin(schema, m, depth)
    ensures Typed(schema, Default(schema))
    ensures Parse(schema, Default(schema), Serialize(schema, m), depth) == AtEnd(m)
  {
    MergeIntoDefault(schema, m);
    ParseSerialized(schema, Default(schema), m, depth);
  }
}
