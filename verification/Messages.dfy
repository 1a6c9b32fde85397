/** Messages of the generated classes, what they look like on the wire and how they are read back. */
module Messages {
  import opened Wrappers
  import opened Varint
  import opened WireFormat

  // ----- schemas and values -----

  /** Fields are numbered from one in the order of the schema. */
  datatype Kind = Int32 | Float | Str | Sub(schema: seq<Kind>)
  type Schema = seq<Kind>

  datatype Value = IntV(number: int) | FloatV(bytes: seq<byte>) | StrV(text: seq<byte>) | SubV(fields: seq<Field>)
  /** A field carries its value and its "has" bit. */
  datatype Field = Field(has: bool, value: Value)
  type Message = seq<Field>

  /** Every tag fits in one byte, in nested messages too. */
  ghost predicate ShortTags(schema: Schema) {
    |schema| <= 15 && forall i :: 0 <= i < |schema| && schema[i].Sub? ==> ShortTags(schema[i].schema)
  }

  lemma ShortTagsInside(schema: Schema, i: nat)
    requires ShortTags(schema) && i < |schema| && schema[i].Sub?
    ensures ShortTags(schema[i].schema)
  {
  }

  /** The message has the fields of the schema. */
  ghost predicate Typed(schema: Schema, m: Message)
    decreases schema, 1
  {
    |m| == |schema| && forall i :: 0 <= i < |m| ==> TypedField(schema, i, m[i])
  }

  /** The value is of the field's kind; a field that is not set holds its default. */
  ghost predicate TypedField(schema: Schema, i: nat, f: Field)
    requires i < |schema|
    decreases schema, 0
  {
    && (!f.has ==> f.value == DefaultValue(schema[i]))
    && match schema[i]
       case Int32 => f.value.IntV? && IsInt32(f.value.number)
       case Float => f.value.FloatV? && |f.value.bytes| == 4
       case Str => f.value.StrV?
       case Sub(inner) => f.value.SubV? && Typed(inner, f.value.fields)
  }

  lemma TypedAt(schema: Schema, e: Message, i: nat)
    requires Typed(schema, e) && i < |schema|
    ensures |e| == |schema| && TypedField(schema, i, e[i])
    ensures schema[i].Sub? ==> e[i].value.SubV? && Typed(schema[i].schema, e[i].value.fields)
  {
  }

  function DefaultValue(kind: Kind): Value
    decreases kind
  {
    match kind
    case Int32 => IntV(0)
    case Float => FloatV([0, 0, 0, 0])
    case Str => StrV([])
    case Sub(inner) => SubV(seq(|inner|, i requires 0 <= i < |inner| => Field(false, DefaultValue(inner[i]))))
  }

  function Default(schema: Schema): (m: Message) {
    seq(|schema|, i requires 0 <= i < |schema| => Field(false, DefaultValue(schema[i])))
  }

  lemma {:induction false} DefaultIsTyped(schema: Schema)
    ensures Typed(schema, Default(schema))
    decreases schema
  {
    forall i | 0 <= i < |schema| && schema[i].Sub?
      ensures Typed(schema[i].schema, DefaultValue(schema[i]).fields)
    {
      DefaultIsTyped(schema[i].schema);
    }
  }

  function WireTypeOf(kind: Kind): nat {
    match kind
    case Int32 => VARINT
    case Float => FIXED32
    case Str => LENGTH_DELIMITED
    case Sub(_) => LENGTH_DELIMITED
  }

  /** The tag of field `i`, counting from zero. */
  function TagOf(schema: Schema, i: nat): nat
    requires i < |schema|
  {
    MakeTag(i + 1, WireTypeOf(schema[i]))
  }

  /** The tag is one that the message reads itself. */
  predicate IsOwn(schema: Schema, tag: nat) {
    1 <= tag / 8 <= |schema| && tag % 8 == WireTypeOf(schema[tag / 8 - 1])
  }

  // ----- reading: read a tag, dispatch on it, repeat -----

  /** How a parse ends; the message keeps what was merged before a failure. */
  datatype Parsed =
    | Failed(m: Message)
    | AtEnd(m: Message)
    | AtEndGroup(m: Message, tag: nat, rest: seq<byte>)
    | AtBadTag(m: Message)

  datatype FieldRead = FieldFailed(field: Field) | FieldDone(field: Field, rest: seq<byte>)

  function {:induction false} Parse(schema: Schema, m: Message, s: seq<byte>, depth: nat): (r: Parsed)
    requires Typed(schema, m)
    ensures Typed(schema, r.m)
    decreases |s|, 0
  {
    match ReadTag(s)
    case End => AtEnd(m)
    case Bad => AtBadTag(m)
    case Tag(tag, rest) => Dispatch(schema, m, tag, rest, depth)
  }

  function {:induction false} Dispatch(schema: Schema, m: Message, tag: nat, s: seq<byte>, depth: nat): (r: Parsed)
    requires Typed(schema, m)
    ensures Typed(schema, r.m)
    decreases |s|, 3
  {
    if IsOwn(schema, tag) then ParseField(schema, m, tag / 8 - 1, s, depth)
    else if tag % 8 == END_GROUP then AtEndGroup(m, tag, s)
    else
      match SkipField(tag, s, depth)
      case None => Failed(m)
      case Some(rest) => Parse(schema, m, rest, depth)
  }

  /** Reads field `i` and carries on with the next tag. */
  function {:induction false} ParseField(schema: Schema, m: Message, i: nat, s: seq<byte>, depth: nat): (r: Parsed)
    requires Typed(schema, m) && i < |schema|
    ensures Typed(schema, r.m)
    decreases |s|, 2
  {
    match ReadField(schema, i, m[i], s, depth)
    case FieldFailed(field) => Failed(m[i := field])
    case FieldDone(field, rest) => Parse(schema, m[i := field], rest, depth)
  }

  lemma ReadOneByteTag(tag: nat, t: seq<byte>)
    requires 0 < tag < 128
    ensures ReadTag([tag] + t) == Tag(tag, t)
  {
  }

  lemma OwnTag(schema: Schema, i: nat)
    requires ShortTags(schema) && i < |schema|
    ensures 0 < TagOf(schema, i) < 128
    ensures IsOwn(schema, TagOf(schema, i)) && TagOf(schema, i) / 8 - 1 == i
  {
  }

  /** At the tag of a field, parsing goes on with that field. */
  lemma {:induction false} ParseAtTag(schema: Schema, m: Message, i: nat, s: seq<byte>, depth: nat)
    requires Typed(schema, m) && ShortTags(schema) && i < |schema|
    ensures Parse(schema, m, [TagOf(schema, i)] + s, depth) == ParseField(schema, m, i, s, depth)
  {
    hide ReadTag, ReadField, IsOwn, TagOf, SkipField, ShortTags;
    OwnTag(schema, i);
    var tag := TagOf(schema, i);
    ReadOneByteTag(tag, s);
    assert Parse(schema, m, [tag] + s, depth) == Dispatch(schema, m, tag, s, depth);
    assert Dispatch(schema, m, tag, s, depth) == ParseField(schema, m, i, s, depth);
  }

  lemma ParseNothing(schema: Schema, m: Message, depth: nat)
    requires Typed(schema, m)
    ensures Parse(schema, m, [], depth) == AtEnd(m)
  {
  }

  /** Reads one value into a field; a nested message is merged into the one already there. */
  function {:induction false} ReadField(schema: Schema, i: nat, field: Field, s: seq<byte>, depth: nat): (r: FieldRead)
    requires i < |schema| && TypedField(schema, i, field)
    ensures TypedField(schema, i, r.field)
    ensures r.FieldDone? ==> |r.rest| <= |s| && r.field.has
    decreases |s|, 1
  {
    match schema[i]
    case Int32 =>
      (match Decode(s, MAX_VARINT_BYTES)
       case None => FieldFailed(field)
       case Some(d) => FieldDone(Field(true, IntV(ToInt32(d.value))), s[d.length..]))
    case Float =>
      if |s| < 4 then FieldFailed(field) else FieldDone(Field(true, FloatV(s[..4])), s[4..])
    case Str =>
      (match ReadLength(s)
       case None => FieldFailed(Field(true, field.value))
       case Some((length, rest)) =>
         if length >= TWO_31 then FieldFailed(Field(true, field.value))
         else if length > |rest| then FieldFailed(Field(true, StrV(rest)))
         else FieldDone(Field(true, StrV(rest[..length])), rest[length..]))
    case Sub(inner) =>
      (match ReadLength(s)
       case None => FieldFailed(Field(true, field.value))
       case Some((length, rest)) =>
         if depth == 0 then FieldFailed(Field(true, field.value))
         else
           var limit := LimitOf(length, |rest|);
           var parsed := Parse(inner, field.value.fields, rest[..limit], depth - 1);
           if parsed.AtEnd? then FieldDone(Field(true, SubV(parsed.m)), rest[limit..])
           else FieldFailed(Field(true, SubV(parsed.m))))
  }

  /** A length that is negative as a 32-bit number, or too long, stops at the enclosing limit. */
  function LimitOf(length: nat, remaining: nat): (limit: nat)
    ensures limit <= remaining
  {
    if length < TWO_31 && length <= remaining then length else remaining
  }

  // ----- merging -----

  function MergeFrom(schema: Schema, e: Message, m: Message): (r: Message)
    requires Typed(schema, e) && Typed(schema, m)
    ensures Typed(schema, r)
    decreases schema, 1
  {
    seq(|schema|, i requires 0 <= i < |schema| => MergedField(schema, i, e[i], m[i]))
  }

  /** A field that is not set leaves the old one; a nested message is merged into the old one. */
  function MergedField(schema: Schema, i: nat, e: Field, m: Field): (r: Field)
    requires i < |schema| && TypedField(schema, i, e) && TypedField(schema, i, m)
    ensures TypedField(schema, i, r)
    decreases schema, 0
  {
    if !m.has then e
    else if schema[i].Sub? then Field(true, SubV(MergeFrom(schema[i].schema, e.value.fields, m.value.fields)))
    else m
  }

  /** Merging into a message that holds nothing gives the message merged. */
  lemma {:induction false} MergeIntoDefault(schema: Schema, m: Message)
    requires Typed(schema, m)
    ensures Typed(schema, Default(schema)) && MergeFrom(schema, Default(schema), m) == m
    decreases schema
  {
    DefaultIsTyped(schema);
    forall i | 0 <= i < |schema|
      ensures MergeFrom(schema, Default(schema), m)[i] == m[i]
    {
      assert TypedField(schema, i, m[i]);
      if m[i].has && schema[i].Sub? {
        MergeIntoDefault(schema[i].schema, m[i].value.fields);
      }
    }
  }

  // ----- writing -----

  /** The first `n` fields in order, the absent ones left out. */
  function FirstFields(schema: Schema, m: Message, n: nat): (s: seq<byte>)
    requires Typed(schema, m) && ShortTags(schema) && n <= |schema|
    decreases schema, 1, n
  {
    if n == 0 then []
    else FirstFields(schema, m, n - 1) + WrittenField(schema, n - 1, m[n - 1])
  }

  function Serialize(schema: Schema, m: Message): (s: seq<byte>)
    requires Typed(schema, m) && ShortTags(schema)
    decreases schema, 2, 0
  {
    FirstFields(schema, m, |schema|)
  }

  function WrittenField(schema: Schema, k: nat, f: Field): (s: seq<byte>)
    requires k < |schema| && TypedField(schema, k, f) && ShortTags(schema)
    decreases schema, 0, 1
  {
    if f.has then [TagOf(schema, k)] + Body(schema, k, f) else []
  }

  function Body(schema: Schema, k: nat, f: Field): (s: seq<byte>)
    requires k < |schema| && TypedField(schema, k, f) && ShortTags(schema)
    decreases schema, 0, 0
  {
    match schema[k]
    case Int32 => Encode(SignExtended(f.value.number))
    case Float => f.value.bytes
    case Str => Encode(|f.value.text|) + f.value.text
    case Sub(inner) =>
      var nested := Serialize(inner, f.value.fields);
      Encode(|nested|) + nested
  }

  /** Every string and nested message that is set is shorter than 2^31 bytes. */
  ghost predicate Fits(schema: Schema, m: Message)
    requires Typed(schema, m) && ShortTags(schema)
    decreases schema, 1
  {
    forall i :: 0 <= i < |schema| && m[i].has ==> FieldFits(schema, i, m[i])
  }

  ghost predicate FieldFits(schema: Schema, i: nat, f: Field)
    requires i < |schema| && TypedField(schema, i, f) && ShortTags(schema)
    decreases schema, 0
  {
    match schema[i]
    case Int32 => true
    case Float => true
    case Str => |f.value.text| < TWO_31
    case Sub(inner) => Fits(inner, f.value.fields) && |Serialize(inner, f.value.fields)| < TWO_31
  }

  // ----- sizes and required fields -----

  function FirstSizes(schema: Schema, m: Message, n: nat): (size: nat)
    requires Typed(schema, m) && n <= |schema|
    decreases schema, 1, n
  {
    if n == 0 then 0
    else FirstSizes(schema, m, n - 1) + (if m[n - 1].has then 1 + BodySize(schema, n - 1, m[n - 1]) else 0)
  }

  function ByteSize(schema: Schema, m: Message): (size: nat)
    requires Typed(schema, m)
    decreases schema, 2, 0
  {
    FirstSizes(schema, m, |schema|)
  }

  function BodySize(schema: Schema, k: nat, f: Field): (n: nat)
    requires k < |schema| && TypedField(schema, k, f)
    decreases schema, 0, 0
  {
    match schema[k]
    case Int32 => Int32Size(f.value.number)
    case Float => 4
    case Str => VarintSize32(|f.value.text|) + |f.value.text|
    case Sub(inner) =>
      var nested := ByteSize(inner, f.value.fields);
      VarintSize32(nested) + nested
  }

  /** The size computed beforehand is the number of bytes written. */
  lemma {:induction false} SizeIsLength(schema: Schema, m: Message)
    requires Typed(schema, m) && ShortTags(schema) && Fits(schema, m)
    ensures ByteSize(schema, m) == |Serialize(schema, m)|
    decreases schema, 2, 0
  {
    FirstSizesAreLength(schema, m, |schema|);
  }

  lemma {:induction false} FirstSizesAreLength(schema: Schema, m: Message, n: nat)
    requires Typed(schema, m) && ShortTags(schema) && Fits(schema, m) && n <= |schema|
    ensures FirstSizes(schema, m, n) == |FirstFields(schema, m, n)|
    decreases schema, 1, n
  {
    if n > 0 {
      FirstSizesAreLength(schema, m, n - 1);
      if m[n - 1].has {
        BodySizeIsLength(schema, n - 1, m[n - 1]);
      }
    }
  }

  lemma {:induction false} BodySizeIsLength(schema: Schema, k: nat, f: Field)
    requires k < |schema| && TypedField(schema, k, f) && ShortTags(schema) && FieldFits(schema, k, f)
    ensures BodySize(schema, k, f) == |Body(schema, k, f)|
    decreases schema, 0, 0
  {
    match schema[k]
    case Int32 => Int32RoundTrip(f.value.number);
    case Float =>
    case Str => EncodeSize32(|f.value.text|);
    case Sub(inner) =>
      SizeIsLength(inner, f.value.fields);
      EncodeSize32(|Serialize(inner, f.value.fields)|);
  }

  /** Nested messages that are set are at most `depth` deep. */
  ghost predicate NestsWithin(schema: Schema, m: Message, depth: nat)
    requires Typed(schema, m)
    decreases schema, 1
  {
    forall i :: 0 <= i < |schema| && m[i].has ==> FieldNestsWithin(schema, i, m[i], depth)
  }

  ghost predicate FieldNestsWithin(schema: Schema, i: nat, f: Field, depth: nat)
    requires i < |schema| && TypedField(schema, i, f)
    decreases schema, 0
  {
    schema[i].Sub? ==> depth > 0 && NestsWithin(schema[i].schema, f.value.fields, depth - 1)
  }

  /** Every field is required, and a nested message must be complete itself. */
  predicate Initialized(schema: Schema, m: Message)
    requires Typed(schema, m)
    decreases schema, 1
  {
    forall i :: 0 <= i < |schema| ==> FieldInitialized(schema, i, m[i])
  }

  predicate FieldInitialized(schema: Schema, i: nat, f: Field)
    requires i < |schema| && TypedField(schema, i, f)
    decreases schema, 0
  {
    f.has && (schema[i].Sub? ==> Initialized(schema[i].schema, f.value.fields))
  }
}
