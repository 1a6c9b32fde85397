/** The bytes themselves: what is written and what is passed over, with the numbers of the format written out. */
module WireBytes {
  import opened Wrappers
  import opened Varint
  import opened WireFormat
  import opened Messages
  import CodedStreams

  // ----- varints -----

  /** The number that seven-bit groups stand for, the low group first. */
  function Base128(s: seq<byte>): nat {
    if s == [] then 0 else s[0] % 128 + 128 * Base128(s[1..])
  }

  /** A varint: its last byte, and only that, is below 128. */
  predicate IsVarint(s: seq<byte>) {
    s != [] && s[|s| - 1] < 128 && forall i | 0 <= i < |s| - 1 :: s[i] >= 128
  }

  /** What is written is a varint of that value, without a group too many. */
  lemma {:induction false} EncodeMeans(v: nat)
    ensures IsVarint(Encode(v)) && Base128(Encode(v)) == v
    ensures |Encode(v)| > 1 ==> Encode(v)[|Encode(v)| - 1] != 0
    decreases v
  {
    if v >= 128 {
      EncodeMeans(v / 128);
      assert Encode(v)[1..] == Encode(v / 128);
      assert forall i | 1 <= i < |Encode(v)| :: Encode(v)[i] == Encode(v / 128)[i - 1];
    } else {
      assert Encode(v)[1..] == [];
    }
  }

  /** What is read is the first varint, if it has at most `n` bytes; groups too many do not matter. */
  lemma {:induction false} DecodeMeans(s: seq<byte>, n: nat)
    ensures forall k | 0 < k <= |s| && IsVarint(s[..k]) ::
              Decode(s, n) == if k <= n then Some(Decoded(Base128(s[..k]), k)) else None
    ensures (forall k | 0 < k <= |s| :: !IsVarint(s[..k])) ==> Decode(s, n) == None
    decreases n
  {
    forall k | 0 < k <= |s| && IsVarint(s[..k])
      ensures Decode(s, n) == if k <= n then Some(Decoded(Base128(s[..k]), k)) else None
    {
      VarintDecodes(s, n, k);
    }
    if Decode(s, n).Some? {
      DecodedIsVarint(s, n);
    }
  }

  lemma {:induction false} VarintDecodes(s: seq<byte>, n: nat, k: nat)
    requires 0 < k <= |s| && IsVarint(s[..k])
    ensures Decode(s, n) == if k <= n then Some(Decoded(Base128(s[..k]), k)) else None
    decreases n
  {
    var w := s[..k];
    if k > 1 {
      assert w[0] >= 128;
      assert w[1..] == s[1..][..k - 1];
      assert forall i | 0 <= i < k - 1 :: w[1..][i] == w[i + 1];
      if n > 0 {
        VarintDecodes(s[1..], n - 1, k - 1);
      }
    } else {
      assert w[1..] == [] && w[0] == s[0];
    }
  }

  lemma {:induction false} DecodedIsVarint(s: seq<byte>, n: nat)
    requires Decode(s, n).Some?
    ensures IsVarint(s[..Decode(s, n).value.length])
    decreases n
  {
    if s[0] >= 128 {
      DecodedIsVarint(s[1..], n - 1);
      var w, k := s[..Decode(s, n).value.length], Decode(s[1..], n - 1).value.length;
      assert w[1..] == s[1..][..k];
      assert forall i | 1 <= i < |w| :: w[i] == s[1..][..k][i - 1];
    }
  }

  /** A negative number is written as its 64-bit two's complement, and of what is read the low 32 bits count. */
  lemma SignsMean(i: int, v: nat)
    ensures IsInt32(i) <==> -2147483648 <= i <= 2147483647
    ensures IsInt32(i) ==> SignExtended(i) == if i >= 0 then i else 18446744073709551616 + i
    ensures -2147483648 <= ToInt32(v) <= 2147483647 && (v - ToInt32(v)) % 4294967296 == 0
  {
    var low := v % 4294967296;
    assert v - low == 4294967296 * (v / 4294967296);
    assert v - ToInt32(v) == 4294967296 * (v / 4294967296) || v - ToInt32(v) == 4294967296 * (v / 4294967296 + 1);
  }

  /** A message that holds nothing: no field is set, numbers are zero, strings empty, and so on inside. */
  lemma DefaultsMean(schema: Schema, i: nat)
    requires i < |schema|
    ensures |Default(schema)| == |schema|
    ensures Default(schema)[i] == Field(false, match schema[i]
                                               case Int32 => IntV(0)
                                               case Float => FloatV([0, 0, 0, 0])
                                               case Str => StrV([])
                                               case Sub(inner) => SubV(Default(inner)))
  {
  }

  // ----- tags -----

  /** Fields are numbered from one; integers have wire type 0, strings and messages 2, floats 5. */
  lemma TagsMean(schema: Schema, i: nat)
    requires i < |schema|
    ensures TagOf(schema, i) == 8 * (i + 1) + match schema[i]
                                                case Int32 => 0
                                                case Float => 5
                                                case Str => 2
                                                case Sub(_) => 2
  {
  }

  /** A message takes a field for its own if number and wire type agree; so a wrong wire type is an unknown field. */
  lemma OwnMeans(schema: Schema, tag: nat)
    ensures IsOwn(schema, tag) <==> exists i | 0 <= i < |schema| :: tag == TagOf(schema, i)
  {
    if IsOwn(schema, tag) {
      assert tag == TagOf(schema, tag / 8 - 1);
    }
  }

  /**
   Reading a varint: the first one of the input, if it has at most ten bytes. A tag and a length keep the low
   32 bits of it, and a tag that is zero then is bad. Without such a varint the input is at its end or malformed.
   */
  lemma ReadsMean(s: seq<byte>)
    ensures forall k | 0 < k <= |s| && IsVarint(s[..k]) ::
              var low := Base128(s[..k]) % 4294967296;
              && ReadTag(s) == (if k > 10 || low == 0 then Bad else Tag(low, s[k..]))
              && ReadLength(s) == (if k > 10 then None else Some((low, s[k..])))
    ensures (forall k | 0 < k <= |s| :: !IsVarint(s[..k])) ==>
              ReadTag(s) == (if s == [] then End else Bad) && ReadLength(s) == None
  {
    DecodeMeans(s, 10);
  }

  /** A number field takes a varint of at most ten bytes, too, and keeps its low 32 bits as a signed number. */
  lemma NumbersMean(schema: Schema, i: nat, f: Field, s: seq<byte>, k: nat, depth: nat)
    requires i < |schema| && schema[i].Int32? && TypedField(schema, i, f)
    requires 0 < k <= |s| && IsVarint(s[..k])
    ensures ReadField(schema, i, f, s, depth) ==
            if k > 10 then FieldFailed(f) else FieldDone(Field(true, IntV(ToInt32(Base128(s[..k])))), s[k..])
  {
    DecodeMeans(s, 10);
  }

  // ----- messages -----

  /** The bytes of a message from field `i` on: those of the fields that are set, in the order of their numbers. */
  function MessageBytes(schema: Schema, m: Message, i: nat): seq<byte>
    requires Typed(schema, m) && ShortTags(schema) && i <= |schema|
    decreases schema, 1, |schema| - i
  {
    if i == |schema| then [] else FieldBytes(schema, m[i], i) + MessageBytes(schema, m, i + 1)
  }

  /** A tag byte, and then a varint, four bytes, or what is counted before it. */
  function FieldBytes(schema: Schema, f: Field, i: nat): seq<byte>
    requires i < |schema| && ShortTags(schema) && TypedField(schema, i, f)
    decreases schema, 0
  {
    if !f.has then []
    else
      match schema[i]
      case Int32 =>
        var n := f.value.number;
        [8 * (i + 1)] + Encode(if n >= 0 then n else 18446744073709551616 + n)
      case Float => [8 * (i + 1) + 5] + f.value.bytes
      case Str => [8 * (i + 1) + 2] + Encode(|f.value.text|) + f.value.text
      case Sub(inner) =>
        var nested := MessageBytes(inner, f.value.fields, 0);
        [8 * (i + 1) + 2] + Encode(|nested|) + nested
  }

  lemma {:induction false} FieldIsWritten(schema: Schema, f: Field, i: nat)
    requires i < |schema| && ShortTags(schema) && TypedField(schema, i, f)
    ensures WrittenField(schema, i, f) == FieldBytes(schema, f, i)
    decreases schema, 0
  {
    hide Encode;
    if f.has && schema[i].Sub? {
      SerializeMeans(schema[i].schema, f.value.fields);
    }
  }

  lemma {:induction false} FirstFieldsAreWritten(schema: Schema, m: Message, n: nat)
    requires Typed(schema, m) && ShortTags(schema) && n <= |schema|
    ensures FirstFields(schema, m, n) + MessageBytes(schema, m, n) == MessageBytes(schema, m, 0)
    decreases schema, 1, n
  {
    hide FieldBytes, WrittenField;
    if n > 0 {
      FirstFieldsAreWritten(schema, m, n - 1);
      FieldIsWritten(schema, m[n - 1], n - 1);
    }
  }

  /** A message is serialized as exactly these bytes. */
  lemma {:induction false} SerializeMeans(schema: Schema, m: Message)
    requires Typed(schema, m) && ShortTags(schema)
    ensures Serialize(schema, m) == MessageBytes(schema, m, 0)
    decreases schema, 2
  {
    FirstFieldsAreWritten(schema, m, |schema|);
  }

  /** A message whose bytes are fewer than 2^31 fits, since nothing inside it is longer than it is itself. */
  lemma {:induction false} ShortMessagesFit(schema: Schema, m: Message)
    requires Typed(schema, m) && ShortTags(schema) && |Serialize(schema, m)| < 2147483648
    ensures Fits(schema, m)
    decreases schema
  {
    forall i | 0 <= i < |schema| && m[i].has
      ensures FieldFits(schema, i, m[i])
    {
      FieldWithin(schema, m, i, |schema|);
      if schema[i].Sub? {
        ShortMessagesFit(schema[i].schema, m[i].value.fields);
      }
    }
  }

  lemma {:induction false} FieldWithin(schema: Schema, m: Message, i: nat, n: nat)
    requires Typed(schema, m) && ShortTags(schema) && i < n <= |schema|
    ensures |WrittenField(schema, i, m[i])| <= |FirstFields(schema, m, n)|
    decreases n
  {
    hide WrittenField;
    if i < n - 1 {
      FieldWithin(schema, m, i, n - 1);
    }
  }

  // ----- unknown fields -----

  /** A field as the format knows it, whatever it means. */
  datatype Unknown =
    | Number(number: nat, value: nat)
    | Eight(number: nat, bytes: seq<byte>)
    | Counted(number: nat, bytes: seq<byte>)
    | Group(number: nat, fields: seq<Unknown>)
    | Four(number: nat, bytes: seq<byte>)

  /** Field numbers have 29 bits, varints 64, and a length fits into a signed 32-bit number. */
  predicate IsWellFormed(u: Unknown) {
    && 1 <= u.number <= 536870911
    && match u
       case Number(_, value) => value < 18446744073709551616
       case Eight(_, bytes) => |bytes| == 8
       case Counted(_, bytes) => |bytes| < 2147483648
       case Group(_, fields) => forall i | 0 <= i < |fields| :: IsWellFormed(fields[i])
       case Four(_, bytes) => |bytes| == 4
  }

  function WireTypeOfUnknown(u: Unknown): nat {
    match u
    case Number(_, _) => 0
    case Eight(_, _) => 1
    case Counted(_, _) => 2
    case Group(_, _) => 3
    case Four(_, _) => 5
  }

  function Written(u: Unknown): seq<byte>
    decreases u, 1
  {
    Encode(8 * u.number + WireTypeOfUnknown(u)) + WrittenBody(u)
  }

  /** What follows the tag; a group ends with a tag of its number and wire type 4. */
  function WrittenBody(u: Unknown): seq<byte>
    decreases u, 0
  {
    match u
    case Number(_, value) => Encode(value)
    case Eight(_, bytes) => bytes
    case Counted(_, bytes) => Encode(|bytes|) + bytes
    case Group(number, fields) => AllWritten(fields) + Encode(8 * number + 4)
    case Four(_, bytes) => bytes
  }

  function AllWritten(us: seq<Unknown>): seq<byte>
    decreases us, 0
  {
    if us == [] then [] else Written(us[0]) + AllWritten(us[1..])
  }

  /** How deep groups are nested. */
  function DepthOf(u: Unknown): nat
    decreases u, 1
  {
    if u.Group? then 1 + DepthOfAll(u.fields) else 0
  }

  function DepthOfAll(us: seq<Unknown>): nat
    decreases us, 0
  {
    if us == [] then 0
    else
      var first, others := DepthOf(us[0]), DepthOfAll(us[1..]);
      if first > others then first else others
  }

  lemma WrittenTag(tag: nat, t: seq<byte>)
    requires 0 < tag < 4294967296
    ensures ReadTag(Encode(tag) + t) == Tag(tag, t)
  {
    hide Encode, Decode, VarintSize64;
    EncodeSize64(tag);
    DecodeEncode(tag, t, MAX_VARINT_BYTES);
    assert (Encode(tag) + t)[|Encode(tag)|..] == t;
  }

  /** A number, and a length, read back; fixed sizes are what they are. */
  lemma PlainSkips(u: Unknown, t: seq<byte>, depth: nat)
    requires IsWellFormed(u) && !u.Group?
    ensures SkipField(8 * u.number + WireTypeOfUnknown(u), WrittenBody(u) + t, depth) == Some(t)
  {
    hide Encode, Decode, VarintSize64, ReadLength, SkipMessage;
    var s := WrittenBody(u) + t;
    match u
    case Number(_, value) =>
      EncodeSize64(value);
      DecodeEncode(value, t, MAX_VARINT_BYTES);
      assert s[|Encode(value)|..] == t;
    case Eight(_, bytes) => assert s[8..] == t;
    case Counted(_, bytes) =>
      assert s == Encode(|bytes|) + (bytes + t);
      ReadLengthWritten(|bytes|, bytes + t);
      assert (bytes + t)[|bytes|..] == t;
    case Four(_, bytes) => assert s[4..] == t;
  }

  /** A group is passed over if what ends its fields is the end-group tag of its number. */
  lemma GroupSkips(number: nat, s: seq<byte>, depth: nat)
    ensures SkipField(8 * number + 3, s, depth) ==
            if depth == 0 then None
            else
              match SkipMessage(s, depth - 1)
              case None => None
              case Some((last, rest)) => if last == 8 * number + 4 then Some(rest) else None
  {
    hide SkipMessage;
  }

  /** A well-formed field is passed over, exactly, if its groups are nested no deeper than allowed, and only then. */
  lemma {:induction false} FieldSkips(u: Unknown, t: seq<byte>, depth: nat)
    requires IsWellFormed(u)
    ensures ReadTag(Written(u) + t) == Tag(8 * u.number + WireTypeOfUnknown(u), WrittenBody(u) + t)
    ensures SkipField(8 * u.number + WireTypeOfUnknown(u), WrittenBody(u) + t, depth)
         == if DepthOf(u) <= depth then Some(t) else None
    decreases u, 1
  {
    hide ReadTag, SkipField, SkipMessage, Encode;
    var tag := 8 * u.number + WireTypeOfUnknown(u);
    assert Written(u) + t == Encode(tag) + (WrittenBody(u) + t);
    WrittenTag(tag, WrittenBody(u) + t);
    if u.Group? {
      GroupSkips(u.number, WrittenBody(u) + t, depth);
      if depth > 0 {
        FieldsSkip(u.fields, u.number, t, depth - 1);
        assert AllWritten(u.fields) + (Encode(8 * u.number + 4) + t) == WrittenBody(u) + t;
      }
    } else {
      PlainSkips(u, t, depth);
    }
  }

  lemma {:induction false} FieldsSkip(us: seq<Unknown>, number: nat, t: seq<byte>, depth: nat)
    requires 1 <= number <= 536870911 && forall i | 0 <= i < |us| :: IsWellFormed(us[i])
    ensures SkipMessage(AllWritten(us) + (Encode(8 * number + 4) + t), depth)
         == if DepthOfAll(us) <= depth then Some((8 * number + 4, t)) else None
    decreases us, 0
  {
    hide ReadTag, SkipField, Encode, Written, WrittenBody;
    var end := Encode(8 * number + 4) + t;
    if us == [] {
      WrittenTag(8 * number + 4, t);
      assert [] + end == end;
    } else {
      var others := AllWritten(us[1..]) + end;
      FieldSkips(us[0], others, depth);
      FieldsSkip(us[1..], number, t, depth);
      assert AllWritten(us) + end == Written(us[0]) + others;
    }
  }

  /** An end-group tag where a field should start, and wire types 6 and 7, cannot be passed over. */
  lemma NeverSkips(tag: nat, s: seq<byte>, depth: nat)
    requires tag % 8 == 4 || tag % 8 == 6 || tag % 8 == 7
    ensures SkipField(tag, s, depth) == None
  {
  }

  /** So a message passes over a well-formed field that is not its own, with groups nested up to a hundred deep. */
  lemma UnknownFieldIsIgnored(schema: Schema, m: Message, u: Unknown, t: seq<byte>)
    requires Typed(schema, m) && IsWellFormed(u)
    requires forall i | 0 <= i < |schema| :: TagOf(schema, i) != 8 * u.number + WireTypeOfUnknown(u)
    ensures DepthOf(u) <= 100 ==>
              Parse(schema, m, Written(u) + t, CodedStreams.RECURSION_LIMIT)
                == Parse(schema, m, t, CodedStreams.RECURSION_LIMIT)
    ensures DepthOf(u) > 100 ==> Parse(schema, m, Written(u) + t, CodedStreams.RECURSION_LIMIT) == Failed(m)
  {
    hide ReadTag, SkipField, IsOwn, TagOf, Written, WrittenBody, DepthOf, IsWellFormed;
    var tag := 8 * u.number + WireTypeOfUnknown(u);
    FieldSkips(u, t, CodedStreams.RECURSION_LIMIT);
    OwnMeans(schema, tag);
  }

  // ----- required fields -----

  /** A way to a field: through nested messages to a field of the last one. */
  predicate IsPath(schema: Schema, path: seq<nat>)
    decreases |path|
  {
    && path != []
    && path[0] < |schema|
    && (|path| > 1 ==> schema[path[0]].Sub? && IsPath(schema[path[0]].schema, path[1..]))
  }

  predicate IsSetAt(schema: Schema, m: Message, path: seq<nat>)
    requires Typed(schema, m) && IsPath(schema, path)
    decreases |path|
  {
    if |path| == 1 then m[path[0]].has
    else
      TypedAt(schema, m, path[0]);
      IsSetAt(schema[path[0]].schema, m[path[0]].value.fields, path[1..])
  }

  /** A message is complete if and only if every field in it is set, those of nested messages at any depth too. */
  lemma {:induction false} InitializedMeans(schema: Schema, m: Message)
    requires Typed(schema, m)
    ensures Initialized(schema, m) <==> forall path | IsPath(schema, path) :: IsSetAt(schema, m, path)
    decreases schema
  {
    if Initialized(schema, m) {
      forall path | IsPath(schema, path)
        ensures IsSetAt(schema, m, path)
      {
        InitializedAt(schema, m, path);
      }
    } else {
      var path := NotInitialized(schema, m);
    }
  }

  lemma {:induction false} InitializedAt(schema: Schema, m: Message, path: seq<nat>)
    requires Typed(schema, m) && Initialized(schema, m) && IsPath(schema, path)
    ensures IsSetAt(schema, m, path)
    decreases |path|
  {
    TypedAt(schema, m, path[0]);
    assert FieldInitialized(schema, path[0], m[path[0]]);
    if |path| > 1 {
      InitializedAt(schema[path[0]].schema, m[path[0]].value.fields, path[1..]);
    }
  }

  lemma {:induction false} NotInitialized(schema: Schema, m: Message) returns (path: seq<nat>)
    requires Typed(schema, m) && !Initialized(schema, m)
    ensures IsPath(schema, path) && !IsSetAt(schema, m, path)
    decreases schema
  {
    var i: nat :| i < |schema| && !FieldInitialized(schema, i, m[i]);
    TypedAt(schema, m, i);
    if m[i].has {
      var rest := NotInitialized(schema[i].schema, m[i].value.fields);
      path := [i] + rest;
      assert path[1..] == rest;
    } else {
      path := [i];
    }
  }
}
