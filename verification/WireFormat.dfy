/** Tags, and passing over fields that a message does not know. */
module WireFormat {
  import opened Wrappers
  import opened Varint

  const VARINT: nat := 0
  const FIXED64: nat := 1
  const LENGTH_DELIMITED: nat := 2
  const START_GROUP: nat := 3
  const END_GROUP: nat := 4
  const FIXED32: nat := 5

  function MakeTag(number: nat, wireType: nat): nat {
    number * 8 + wireType
  }

  /** What reading a tag finds: a tag, the end of the input, or a zero or malformed tag. */
  datatype TagRead = End | Bad | Tag(tag: nat, rest: seq<byte>)

  function ReadTag(s: seq<byte>): (t: TagRead)
    ensures t.Tag? ==> 0 < t.tag < TWO_32 && |t.rest| < |s|
    ensures t.End? <==> s == []
  {
    if s == [] then End
    else
      match Decode(s, MAX_VARINT_BYTES)
      case None => Bad
      case Some(d) =>
        if d.value % TWO_32 == 0 then Bad else Tag(d.value % TWO_32, s[d.length..])
  }

  /** A length is a varint cut to 32 bits. */
  function ReadLength(s: seq<byte>): (r: Option<(nat, seq<byte>)>)
    ensures r.Some? ==> r.value.0 < TWO_32 && |r.value.1| < |s|
  {
    match Decode(s, MAX_VARINT_BYTES)
    case None => None
    case Some(d) => Some((d.value % TWO_32, s[d.length..]))
  }

  function Skip(count: nat, s: seq<byte>): (r: Option<seq<byte>>)
    ensures r.Some? ==> |r.value| <= |s|
  {
    if count < TWO_31 && count <= |s| then Some(s[count..]) else None
  }

  /** What follows the field that `tag` starts; None if the field is malformed or nested too deeply. */
  function SkipField(tag: nat, s: seq<byte>, depth: nat): (r: Option<seq<byte>>)
    ensures r.Some? ==> |r.value| <= |s|
    decreases |s|, 1
  {
    var wireType := tag % 8;
    if wireType == VARINT then
      match Decode(s, MAX_VARINT_BYTES)
      case None => None
      case Some(d) => Some(s[d.length..])
    else if wireType == FIXED64 then Skip(8, s)
    else if wireType == LENGTH_DELIMITED then
      match ReadLength(s)
      case None => None
      case Some((length, rest)) => Skip(length, rest)
    else if wireType == START_GROUP then
      if depth == 0 then None
      else
        match SkipMessage(s, depth - 1)
        case None => None
        case Some((last, rest)) => if last == MakeTag(tag / 8, END_GROUP) then Some(rest) else None
    else if wireType == FIXED32 then Skip(4, s)
    else None
  }

  /** Skips fields up to an end-group tag or the end; the tag that ended it, zero for none. */
  function SkipMessage(s: seq<byte>, depth: nat): (r: Option<(nat, seq<byte>)>)
    ensures r.Some? ==> |r.value.1| <= |s|
    ensures r.Some? && r.value.0 != 0 ==> |r.value.1| < |s|
    decreases |s|, 0
  {
    match ReadTag(s)
    case End => Some((0, []))
    case Bad => Some((0, []))
    case Tag(tag, rest) =>
      if tag % 8 == END_GROUP then Some((tag, rest))
      else
        match SkipField(tag, rest, depth)
        case None => None
        case Some(next) => SkipMessage(next, depth)
  }

  // ----- what has been read does not depend on what follows -----

  lemma {:induction false} ReadTagAppend(s: seq<byte>, t: seq<byte>)
    requires ReadTag(s).Tag?
    ensures ReadTag(s + t) == Tag(ReadTag(s).tag, ReadTag(s).rest + t)
  {
    DecodeAppend(s, t, MAX_VARINT_BYTES);
    var d := Decode(s, MAX_VARINT_BYTES).value;
    assert (s + t)[d.length..] == s[d.length..] + t;
  }

  lemma {:induction false} ReadLengthAppend(s: seq<byte>, t: seq<byte>)
    requires ReadLength(s).Some?
    ensures ReadLength(s + t) == Some((ReadLength(s).value.0, ReadLength(s).value.1 + t))
  {
    DecodeAppend(s, t, MAX_VARINT_BYTES);
    var d := Decode(s, MAX_VARINT_BYTES).value;
    assert (s + t)[d.length..] == s[d.length..] + t;
  }

  lemma SkipAppend(count: nat, s: seq<byte>, t: seq<byte>)
    requires Skip(count, s).Some?
    ensures Skip(count, s + t) == Some(Skip(count, s).value + t)
  {
    assert (s + t)[count..] == s[count..] + t;
  }

  /** A field that can be passed over can be passed over with anything behind it. */
  lemma {:induction false} SkipFieldAppend(tag: nat, s: seq<byte>, t: seq<byte>, depth: nat)
    requires SkipField(tag, s, depth).Some?
    ensures SkipField(tag, s + t, depth) == Some(SkipField(tag, s, depth).value + t)
    decreases |s|, 1
  {
    hide Decode, ReadLength, Skip, SkipMessage;
    var wireType := tag % 8;
    if wireType == VARINT {
      DecodeAppend(s, t, MAX_VARINT_BYTES);
      var d := Decode(s, MAX_VARINT_BYTES).value;
      assert (s + t)[d.length..] == s[d.length..] + t;
    } else if wireType == FIXED64 {
      SkipAppend(8, s, t);
    } else if wireType == LENGTH_DELIMITED {
      ReadLengthAppend(s, t);
      var (length, rest) := ReadLength(s).value;
      SkipAppend(length, rest, t);
    } else if wireType == START_GROUP {
      SkipMessageAppend(s, t, depth - 1);
    } else {
      SkipAppend(4, s, t);
    }
  }

  lemma {:induction false} SkipMessageAppend(s: seq<byte>, t: seq<byte>, depth: nat)
    requires SkipMessage(s, depth).Some? && SkipMessage(s, depth).value.0 != 0
    ensures SkipMessage(s + t, depth)
         == Some((SkipMessage(s, depth).value.0, SkipMessage(s, depth).value.1 + t))
    decreases |s|, 0
  {
    ReadTagAppend(s, t);
    var tag, rest := ReadTag(s).tag, ReadTag(s).rest;
    if tag % 8 != END_GROUP {
      SkipFieldAppend(tag, rest, t, depth);
      SkipMessageAppend(SkipField(tag, rest, depth).value, t, depth);
    }
  }

  /** What a written length reads back as. */
  lemma ReadLengthWritten(n: nat, t: seq<byte>)
    requires n < TWO_32
    ensures ReadLength(Encode(n) + t) == Some((n, t))
  {
    hide Encode, Decode, VarintSize64, SkipField;
    EncodeSize64(n);
    DecodeEncode(n, t, MAX_VARINT_BYTES);
    assert (Encode(n) + t)[|Encode(n)|..] == t;
  }
}
