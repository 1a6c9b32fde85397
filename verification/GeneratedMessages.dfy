/** The class that is generated for a message: its fields are read, merged and written in place. */
module GeneratedMessages {
  import opened Wrappers
  import opened Varint
  import WireFormat
  import opened Messages
  import opened CodedStreams

  class GeneratedMessage {
    const schema: Schema
    var fields: Message

    ghost predicate Valid()
      reads this
    {
      Typed(schema, fields) && ShortTags(schema)
    }

    constructor (s: Schema)
      requires ShortTags(s)
      ensures Valid() && schema == s && fields == Default(s) && fresh(this)
    {
      schema := s;
      fields := Default(s);
      DefaultIsTyped(s);
    }

    constructor Holding(s: Schema, m: Message)
      requires Typed(s, m) && ShortTags(s)
      ensures Valid() && schema == s && fields == m && fresh(this)
    {
      schema := s;
      fields := m;
    }

    /** The nested message of field `i`, as an object of its own class. */
    method Nested(i: nat) returns (nested: GeneratedMessage)
      requires Valid() && i < |schema| && schema[i].Sub?
      ensures fresh(nested) && nested.Valid() && nested.schema == schema[i].schema
      ensures TypedField(schema, i, fields[i]) && nested.fields == fields[i].value.fields
    {
      assert TypedField(schema, i, fields[i]);
      nested := new GeneratedMessage.Holding(schema[i].schema, fields[i].value.fields);
    }

    /** Puts a field back; only the field changes. */
    method SetField(i: nat, f: Field)
      requires Valid() && i < |schema| && TypedField(schema, i, f)
      modifies this
      ensures Valid() && fields == old(fields)[i := f]
    {
      fields := fields[i := f];
    }

    // ----- reading -----

    /** How the message and the input stand when a parse has gone as `r` says. */
    ghost predicate Shows(r: Parsed, ok: bool, input: CodedInputStream, depth: nat, limit: int)
      requires input.Valid()
      reads this, input
    {
      && fields == r.m
      && ok == !r.Failed?
      && (ok ==> input.recursionDepth == depth && input.currentLimit == limit)
      && match r
         case Failed(_) => true
         case AtEnd(_) => input.Rest() == [] && input.lastTag == 0 && input.legitimateMessageEnd
         case AtEndGroup(_, tag, rest) => input.Rest() == rest && input.lastTag == tag && !input.legitimateMessageEnd
         case AtBadTag(_) => input.lastTag == 0 && !input.legitimateMessageEnd
    }

    /** The message and the input stand before a tag or, if `tag` is not zero, just behind it. */
    ghost predicate Stands(r: Parsed, tag: nat, input: CodedInputStream, depth: nat, limit: int)
      requires input.Valid()
      reads this, input
    {
      && Valid()
      && input.recursionDepth == depth
      && input.currentLimit == limit
      && input.lastTag == tag
      && if tag != 0 then
           && !input.legitimateMessageEnd
           && r == Dispatch(schema, fields, tag, input.Rest(), input.Budget())
         else if input.legitimateMessageEnd then r == AtEnd(fields) && input.Rest() == []
         else r == AtBadTag(fields)
    }

    /**
     * Reads tags and dispatches on them. Behind a field the tag of the next field may be taken at once,
     * and behind the last one the end of the input may be noticed at once.
     */
    method MergePartialFromCodedStream(input: CodedInputStream) returns (ok: bool)
      requires Valid() && input.Valid() && !input.legitimateMessageEnd
      modifies this, input
      ensures Valid() && input.Valid()
      ensures Shows(Parse(schema, old(fields), old(input.Rest()), old(input.Budget())), ok, input,
                old(input.recursionDepth), old(input.currentLimit))
      decreases |input.Rest()|, 0
    {
      hide Parse, Dispatch, ParseField, WireFormat.SkipField, Typed, IsOwn;
      ghost var depth, limit := input.recursionDepth, input.currentLimit;
      ghost var r := Parse(schema, fields, input.Rest(), input.Budget());
      var tag := NextTag(input, r);
      while tag != 0
        invariant input.Valid() && |input.Rest()| <= old(|input.Rest()|)
        invariant Stands(r, tag, input, depth, limit)
        invariant tag != 0 ==> |input.Rest()| < old(|input.Rest()|)
        decreases |input.Rest()|, tag != 0
      {
        DispatchTurns(schema, fields, tag, input.Rest(), input.Budget());
        if IsOwn(schema, tag) {
          OwnIndex(schema, tag);
          var atEnd;
          ok, atEnd := ReadFields(tag / 8 - 1, input, r);
          if !ok || atEnd {
            return;
          }
        } else {
          if tag % 8 == WireFormat.END_GROUP {
            return true;
          }
          ok := input.SkipField(tag);
          if !ok {
            return;
          }
        }
        tag := NextTag(input, r);
      }
      ok := true;
    }

    method NextTag(input: CodedInputStream, ghost r: Parsed) returns (tag: nat)
      requires Valid() && input.Valid() && !input.legitimateMessageEnd
      requires r == Parse(schema, fields, input.Rest(), input.Budget())
      modifies input`position, input`lastTag, input`legitimateMessageEnd
      ensures input.Valid() && Stands(r, tag, input, input.recursionDepth, input.currentLimit)
      ensures |input.Rest()| <= old(|input.Rest()|)
      ensures tag != 0 ==> |input.Rest()| < old(|input.Rest()|)
    {
      hide Dispatch, Typed, WireFormat.ReadTag;
      tag := input.ReadTag();
    }

    /** Field `i` and, as long as the next tag is seen to follow, the fields behind it. */
    method ReadFields(i: nat, input: CodedInputStream, ghost r: Parsed) returns (ok: bool, atEnd: bool)
      requires Valid() && i < |schema| && input.Valid() && !input.legitimateMessageEnd
      requires r == ParseField(schema, fields, i, input.Rest(), input.Budget())
      modifies this, input
      ensures Valid() && input.Valid()
      ensures !ok ==> r == Failed(fields)
      ensures ok ==> input.recursionDepth == old(input.recursionDepth) && input.currentLimit == old(input.currentLimit)
      ensures ok && !atEnd ==>
                && !input.legitimateMessageEnd
                && |input.Rest()| <= old(|input.Rest()|)
                && r == Parse(schema, fields, input.Rest(), input.Budget())
      ensures ok && atEnd ==>
                && r == AtEnd(fields)
                && input.Rest() == []
                && input.lastTag == 0
                && input.legitimateMessageEnd
      decreases |input.Rest()|, 2
    {
      hide Parse, Dispatch, Messages.ReadField, Typed, TagOf, ShortTags;
      var next: nat := i;
      TypedAt(schema, fields, i);
      while next < |schema|
        invariant Valid() && input.Valid() && !input.legitimateMessageEnd
        invariant input.recursionDepth == old(input.recursionDepth) && input.currentLimit == old(input.currentLimit)
        invariant |input.Rest()| <= old(|input.Rest()|)
        invariant r == if next < |schema| then ParseField(schema, fields, next, input.Rest(), input.Budget())
                       else Parse(schema, fields, input.Rest(), input.Budget())
        decreases |input.Rest()|, next < |schema|
      {
        TypedAt(schema, fields, next);
        ok := ReadField(next, input);
        if !ok {
          return false, false;
        }
        if next + 1 < |schema| {
          OwnTag(schema, next + 1);
          var expected := TagOf(schema, next + 1);
          ghost var before := input.Rest();
          var found := input.ExpectTag(expected);
          if found {
            ParseAtTag(schema, fields, next + 1, input.Rest(), input.Budget());
          }
          next := if found then next + 1 else |schema|;
        } else {
          atEnd := input.ExpectAtEnd();
          if atEnd {
            ParseNothing(schema, fields, input.Budget());
            return true, true;
          }
          next := |schema|;
        }
      }
      return true, false;
    }

    /** Reads one value into its field; a nested message is merged into the one already there. */
    method ReadField(i: nat, input: CodedInputStream) returns (ok: bool)
      requires Valid() && i < |schema| && input.Valid() && !input.legitimateMessageEnd
      requires TypedField(schema, i, fields[i])
      modifies this, input
      ensures Valid() && input.Valid()
      ensures ok ==> input.recursionDepth == old(input.recursionDepth) && input.currentLimit == old(input.currentLimit)
      ensures match Messages.ReadField(schema, i, old(fields)[i], old(input.Rest()), old(input.Budget()))
              case FieldFailed(field) => !ok && fields == old(fields)[i := field]
              case FieldDone(field, rest) =>
                && ok
                && fields == old(fields)[i := field]
                && input.Rest() == rest
                && !input.legitimateMessageEnd
      decreases |input.Rest()|, 1
    {
      hide Parse, Typed, WireFormat.ReadLength;
      var value, bytes;
      TypedAt(schema, fields, i);
      match schema[i] {
        case Int32 =>
          ok, value := input.ReadVarint64();
          if ok {
            LowBits(Decode(old(input.Rest()), MAX_VARINT_BYTES).value.value);
            SetField(i, Field(true, IntV(ToInt32(value))));
          }
        case Float =>
          ok, bytes := input.ReadRaw(4);
          if ok {
            SetField(i, Field(true, FloatV(bytes)));
          }
        case Str =>
          SetField(i, fields[i].(has := true));
          ok, value := input.ReadVarint32();
          if ok {
            ok, bytes := input.ReadRaw(value);
            if value < TWO_31 {
              SetField(i, Field(true, StrV(bytes)));
            }
          }
        case Sub(_) =>
          SetField(i, fields[i].(has := true));
          ok, value := input.ReadVarint32();
          if ok {
            ok := ReadMessage(i, value, input);
          }
      }
    }

    /** Reads a nested message of at most `length` bytes. */
    method ReadMessage(i: nat, length: nat, input: CodedInputStream) returns (ok: bool)
      requires Valid() && i < |schema| && schema[i].Sub? && input.Valid() && !input.legitimateMessageEnd
      requires TypedField(schema, i, fields[i]) && fields[i].has && length < TWO_32
      modifies this, input
      ensures Valid() && input.Valid()
      ensures ok ==>
                && input.recursionDepth == old(input.recursionDepth)
                && input.currentLimit == old(input.currentLimit)
                && !input.legitimateMessageEnd
      ensures
        var start, budget := old(input.Rest()), old(input.Budget());
        if budget == 0 then !ok && fields == old(fields)
        else
          var limit := LimitOf(length, |start|);
          var parsed := Parse(schema[i].schema, old(fields)[i].value.fields, start[..limit], budget - 1);
          && ok == parsed.AtEnd?
          && fields == old(fields)[i := Field(true, SubV(parsed.m))]
          && (ok ==> input.Rest() == start[limit..])
      decreases |input.Rest()|, 1
    {
      hide Parse, Typed;
      ok := input.IncrementRecursionDepth();
      if !ok {
        return;
      }
      ghost var start, position := input.Rest(), input.position;
      ghost var limit := LimitOf(length, |start|);
      var oldLimit := input.PushLimit(if length < TWO_31 then length else length - TWO_32);
      assert input.Rest() == start[..limit];
      TypedAt(schema, fields, i);
      var nested := Nested(i);
      ghost var parsed := Parse(nested.schema, nested.fields, start[..limit], input.Budget());
      ok := nested.MergePartialFromCodedStream(input);
      SetField(i, Field(true, SubV(nested.fields)));
      if !ok {
        return;
      }
      ok := input.legitimateMessageEnd;
      if ok {
        input.PopLimit(oldLimit);
        input.DecrementRecursionDepth();
      }
    }

    // ----- clearing, merging, writing -----

    /** Resets the values of the fields that are set, then all "has" bits. */
    method Clear()
      requires Valid()
      modifies this
      ensures Valid() && fields == Default(schema)
    {
      hide ShortTags;
      DefaultIsTyped(schema);
      var i := 0;
      while i < |schema|
        invariant 0 <= i <= |schema| && Valid()
        invariant forall k :: 0 <= k < i ==> fields[k].value == DefaultValue(schema[k])
      {
        TypedAt(schema, fields, i);
        ClearedIsTyped(schema, i, fields[i]);
        if fields[i].has {
          SetField(i, fields[i].(value := DefaultValue(schema[i])));
        }
        i := i + 1;
      }
      var was := fields;
      fields := seq(|was|, k requires 0 <= k < |was| => was[k].(has := false));
      assert fields == Default(schema);
    }

    /** Takes over the fields that are set in `from`; nested messages are merged. */
    method MergeFrom(from: GeneratedMessage)
      requires Valid() && from.Valid() && from.schema == schema && from != this
      modifies this
      ensures Valid() && fields == Messages.MergeFrom(schema, old(fields), from.fields)
      decreases schema
    {
      hide Typed, TypedField, ShortTags;
      var i := 0;
      ghost var e := fields;
      TypedSize(schema, e);
      while i < |schema|
        invariant 0 <= i <= |schema| && Valid() && |fields| == |schema|
        invariant forall k :: 0 <= k < |schema| ==>
                    fields[k] == if k < i then Messages.MergeFrom(schema, e, from.fields)[k] else e[k]
      {
        TypedAt(schema, fields, i);
        TypedAt(schema, from.fields, i);
        if from.fields[i].has {
          if schema[i].Sub? {
            ShortTagsInside(schema, i);
            var mine := Nested(i);
            var theirs := from.Nested(i);
            mine.MergeFrom(theirs);
            SetField(i, MergedField(schema, i, fields[i], from.fields[i]));
          } else {
            SetField(i, from.fields[i]);
          }
        }
        i := i + 1;
      }
    }

    method IsInitialized() returns (initialized: bool)
      requires Valid()
      ensures initialized == Initialized(schema, fields)
      decreases schema
    {
      var i := 0;
      while i < |schema|
        invariant 0 <= i <= |schema|
        invariant forall k :: 0 <= k < i ==> fields[k].has
      {
        if !fields[i].has {
          return false;
        }
        i := i + 1;
      }
      i := 0;
      while i < |schema|
        invariant 0 <= i <= |schema|
        invariant forall k :: 0 <= k < i ==> FieldInitialized(schema, k, fields[k])
      {
        if schema[i].Sub? {
          var nested := Nested(i);
          initialized := nested.IsInitialized();
          if !initialized {
            return;
          }
        }
        i := i + 1;
      }
      return true;
    }

    method ByteSize() returns (size: nat)
      requires Valid()
      ensures size == Messages.ByteSize(schema, fields)
      decreases schema
    {
      size := 0;
      var i := 0;
      while i < |schema|
        invariant 0 <= i <= |schema| && size == FirstSizes(schema, fields, i)
      {
        TypedAt(schema, fields, i);
        if fields[i].has {
          var v := fields[i].value;
          match schema[i] {
            case Int32 =>
              size := size + 1 + Int32Size(v.number);
            case Float =>
              size := size + 1 + 4;
            case Str =>
              size := size + 1 + VarintSize32(|v.text|) + |v.text|;
            case Sub(_) =>
              var nested := Nested(i);
              var inside := nested.ByteSize();
              size := size + 1 + VarintSize32(inside) + inside;
          }
        }
        i := i + 1;
      }
    }

    method SerializeWithCachedSizes(output: CodedOutputStream)
      requires Valid() && Fits(schema, fields)
      modifies output
      ensures output.written == old(output.written) + Serialize(schema, fields)
      decreases schema
    {
      hide WrittenField, Fits, FieldFits, ShortTags, Typed, TypedField;
      var i := 0;
      assert output.written == old(output.written) + FirstFields(schema, fields, 0);
      while i < |schema|
        invariant 0 <= i <= |schema|
        invariant output.written == old(output.written) + FirstFields(schema, fields, i)
      {
        TypedAt(schema, fields, i);
        AbsentWritesNothing(schema, i, fields[i]);
        if fields[i].has {
          FitsAt(schema, fields, i);
          WriteField(i, output);
        }
        assert output.written == old(output.written) +
          (FirstFields(schema, fields, i) + WrittenField(schema, i, fields[i]));
        i := i + 1;
      }
    }

    method WriteField(i: nat, output: CodedOutputStream)
      requires Valid() && i < |schema| && TypedField(schema, i, fields[i]) && fields[i].has
      requires FieldFits(schema, i, fields[i])
      modifies output
      ensures output.written == old(output.written) + WrittenField(schema, i, fields[i])
      decreases schema, 1
    {
      hide Typed, TypedField, ShortTags, FieldFits, TagOf, Encode, Body;
      TypedSize(schema, fields);
      OwnTag(schema, i);
      WrittenParts(schema, i, fields[i]);
      output.WriteVarint(TagOf(schema, i));
      WriteBody(i, output);
    }

    /** What follows the tag; a nested message is preceded by its size. */
    method WriteBody(i: nat, output: CodedOutputStream)
      requires Valid() && i < |schema| && TypedField(schema, i, fields[i]) && fields[i].has
      requires FieldFits(schema, i, fields[i])
      modifies output
      ensures output.written == old(output.written) + Body(schema, i, fields[i])
      decreases schema, 0
    {
      hide Typed, ShortTags, Encode, Body, Fits, Serialize;
      TypedSize(schema, fields);
      var v := fields[i].value;
      BodyMeans(schema, i, fields[i]);
      match schema[i] {
        case Int32 =>
          output.WriteVarint(SignExtended(v.number));
        case Float =>
          output.WriteRaw(v.bytes);
        case Str =>
          output.WriteVarint(|v.text|);
          output.WriteRaw(v.text);
        case Sub(_) =>
          var nested := Nested(i);
          var size := nested.ByteSize();
          SizeIsLength(nested.schema, nested.fields);
          output.WriteVarint(size);
          nested.SerializeWithCachedSizes(output);
      }
    }

    // ----- whole buffers -----

    /** Succeeds if the bytes are one whole message with all required fields set. */
    method ParseFromArray(bytes: seq<byte>) returns (ok: bool)
      requires Valid() && |bytes| <= INT_MAX
      modifies this
      ensures Valid() && Typed(schema, Default(schema))
      ensures
        var r := Parse(schema, Default(schema), bytes, RECURSION_LIMIT);
        fields == r.m && ok == (r.AtEnd? && Initialized(schema, r.m))
    {
      var input := new CodedInputStream(bytes);
      Clear();
      ok := MergePartialFromCodedStream(input);
      if !ok {
        return;
      }
      ok := IsInitialized();
      ok := ok && input.legitimateMessageEnd;
    }

    method SerializeToArray() returns (bytes: seq<byte>)
      requires Valid() && Fits(schema, fields)
      ensures bytes == Serialize(schema, fields) && |bytes| == Messages.ByteSize(schema, fields)
    {
      var output := new CodedOutputStream();
      SerializeWithCachedSizes(output);
      bytes := output.written;
      SizeIsLength(schema, fields);
    }
  }

  lemma ClearedIsTyped(schema: Schema, i: nat, f: Field)
    requires i < |schema| && TypedField(schema, i, f)
    ensures TypedField(schema, i, f.(value := DefaultValue(schema[i])))
  {
    if schema[i].Sub? {
      DefaultIsTyped(schema[i].schema);
      assert DefaultValue(schema[i]).fields == Default(schema[i].schema);
    }
  }

  lemma FitsAt(schema: Schema, m: Message, i: nat)
    requires Typed(schema, m) && ShortTags(schema) && Fits(schema, m) && i < |schema| == |m| && m[i].has
    ensures TypedField(schema, i, m[i]) && FieldFits(schema, i, m[i])
  {
  }

  lemma AbsentWritesNothing(schema: Schema, i: nat, f: Field)
    requires i < |schema| && TypedField(schema, i, f) && ShortTags(schema)
    ensures !f.has ==> WrittenField(schema, i, f) == []
  {
  }

  lemma WrittenParts(schema: Schema, i: nat, f: Field)
    requires i < |schema| && TypedField(schema, i, f) && f.has && ShortTags(schema)
    ensures WrittenField(schema, i, f) == Encode(TagOf(schema, i)) + Body(schema, i, f)
  {
    OwnTag(schema, i);
  }

  lemma BodyMeans(schema: Schema, i: nat, f: Field)
    requires i < |schema| && TypedField(schema, i, f) && ShortTags(schema)
    ensures schema[i].Int32? ==> Body(schema, i, f) == Encode(SignExtended(f.value.number))
    ensures schema[i].Float? ==> Body(schema, i, f) == f.value.bytes
    ensures schema[i].Str? ==> Body(schema, i, f) == Encode(|f.value.text|) + f.value.text
    ensures schema[i].Sub? ==>
              && ShortTags(schema[i].schema)
              && var nested := Serialize(schema[i].schema, f.value.fields);
                 Body(schema, i, f) == Encode(|nested|) + nested
  {
  }

  lemma TypedSize(schema: Schema, m: Message)
    requires Typed(schema, m)
    ensures |m| == |schema|
  {
  }

  // ----- one step of the plain loop -----

  lemma DispatchTurns(schema: Schema, m: Message, tag: nat, s: seq<byte>, depth: nat)
    requires Typed(schema, m)
    ensures Dispatch(schema, m, tag, s, depth)
         == if IsOwn(schema, tag) then
              (OwnIndex(schema, tag); ParseField(schema, m, tag / 8 - 1, s, depth))
            else if tag % 8 == WireFormat.END_GROUP then AtEndGroup(m, tag, s)
            else
              match WireFormat.SkipField(tag, s, depth)
              case None => Failed(m)
              case Some(rest) => Parse(schema, m, rest, depth)
  {
  }

  lemma OwnIndex(schema: Schema, tag: nat)
    requires IsOwn(schema, tag)
    ensures 0 <= tag / 8 - 1 < |schema|
  {
  }
}
