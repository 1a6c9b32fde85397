/** The streams of coded input and output that the generated classes work on. */
module CodedStreams {
  import opened Wrappers
  import opened Varint
  import WireFormat

  const INT_MAX: int := 0x7FFF_FFFF
  const RECURSION_LIMIT: nat := 100

  /** A varint of which `count` bytes have been read, with what the others give. */
  ghost function Resume(value: nat, scale: nat, count: nat, others: Option<Decoded>): Option<Decoded> {
    match others
    case None => None
    case Some(d) => Some(Decoded(value + scale * d.value, count + d.length))
  }

  lemma ResumeEnds(value: nat, scale: nat, count: nat, s: seq<byte>, n: nat)
    ensures s == [] || n == 0 ==> Resume(value, scale, count, Decode(s, n)) == None
    ensures s != [] && n > 0 && s[0] < 128 ==>
              Resume(value, scale, count, Decode(s, n)) == Some(Decoded(value + scale * (s[0] % 128), count + 1))
  {
  }

  lemma ResumeStarts(r: Option<Decoded>)
    ensures Resume(0, 1, 0, r) == r
  {
  }

  lemma {:induction false} ResumeStep(value: nat, scale: nat, count: nat, s: seq<byte>, n: nat)
    requires s != [] && s[0] >= 128 && n > 0
    ensures Resume(value, scale, count, Decode(s, n))
         == Resume(value + scale * (s[0] % 128), scale * 128, count + 1, Decode(s[1..], n - 1))
  {
    match Decode(s[1..], n - 1)
    case None =>
    case Some(d) => Distribute(scale, s[0] - 128, d.value);
  }

  lemma Distribute(scale: nat, low: nat, high: nat)
    ensures scale * (low + 128 * high) == scale * low + scale * 128 * high
  {
  }

  lemma SliceTwice(s: seq<byte>, from: nat, middle: nat, to: nat)
    requires from <= middle <= to <= |s|
    ensures s[from..to][..middle - from] == s[from..middle]
    ensures s[from..to][middle - from..] == s[middle..to]
  {
  }

  class CodedInputStream {
    const data: seq<byte>
    var position: nat
    var currentLimit: int
    var recursionDepth: nat
    var lastTag: nat
    var legitimateMessageEnd: bool

    ghost predicate Valid()
      reads this
    {
      position <= End() && position <= currentLimit <= INT_MAX && |data| <= INT_MAX
    }

    /** Where the readable bytes end: at the limit or at the end of the data. */
    function End(): int
      reads this
    {
      if currentLimit < |data| then currentLimit else |data|
    }

    ghost function Rest(): seq<byte>
      requires Valid()
      reads this
    {
      data[position..End()]
    }

    /** How much deeper messages may nest from here. */
    ghost function Budget(): nat
      reads this
    {
      if recursionDepth < RECURSION_LIMIT then RECURSION_LIMIT - recursionDepth else 0
    }

    constructor (bytes: seq<byte>)
      requires |bytes| <= INT_MAX
      ensures Valid() && Rest() == bytes && Budget() == RECURSION_LIMIT && recursionDepth == 0
      ensures !legitimateMessageEnd && fresh(this)
    {
      data := bytes;
      position := 0;
      currentLimit := |bytes|;
      recursionDepth := 0;
      lastTag := 0;
      legitimateMessageEnd := false;
    }

    /** One byte at a time, seven bits each, ten bytes at most; the result has 64 bits. */
    method ReadVarint64() returns (ok: bool, value: nat)
      requires Valid()
      modifies this`position
      ensures Valid() && old(position) <= position
      ensures match Decode(old(Rest()), MAX_VARINT_BYTES)
              case None => !ok
              case Some(d) => ok && value == d.value % TWO_64 && Rest() == old(Rest())[d.length..]
    {
      hide Decode, Resume;
      value := 0;
      var scale: nat, count: nat := 1, 0;
      ghost var start := Rest();
      ResumeStarts(Decode(start, MAX_VARINT_BYTES));
      while true
        invariant Valid() && count <= MAX_VARINT_BYTES && count <= |start|
        invariant Rest() == start[count..] && old(position) <= position
        invariant Decode(start, MAX_VARINT_BYTES)
               == Resume(value, scale, count, Decode(start[count..], MAX_VARINT_BYTES - count))
        decreases MAX_VARINT_BYTES - count
      {
        ResumeEnds(value, scale, count, start[count..], MAX_VARINT_BYTES - count);
        if count == MAX_VARINT_BYTES || position == End() {
          return false, value;
        }
        var b := data[position];
        ghost var here := start[count..];
        assert b == here[0] && start[count + 1..] == here[1..];
        if b >= 128 {
          ResumeStep(value, scale, count, here, MAX_VARINT_BYTES - count);
        }
        value := value + scale * (b % 128);
        scale := scale * 128;
        position := position + 1;
        count := count + 1;
        if b < 128 {
          return true, value % TWO_64;
        }
      }
    }

    method ReadVarint32() returns (ok: bool, value: nat)
      requires Valid()
      modifies this`position
      ensures Valid() && old(position) <= position
      ensures match WireFormat.ReadLength(old(Rest()))
              case None => !ok
              case Some((length, rest)) => ok && value == length && Rest() == rest
    {
      ok, value := ReadVarint64();
      match Decode(old(Rest()), MAX_VARINT_BYTES) {
        case None =>
        case Some(d) => LowBits(d.value);
      }
      value := value % TWO_32;
    }

    /** A tag, or zero at the end of the input and for a tag that is zero or malformed. */
    method ReadTag() returns (tag: nat)
      requires Valid()
      modifies this`position, this`lastTag, this`legitimateMessageEnd
      ensures Valid() && lastTag == tag && old(position) <= position
      ensures match WireFormat.ReadTag(old(Rest()))
              case End => tag == 0 && legitimateMessageEnd && position == old(position)
              case Bad => tag == 0 && legitimateMessageEnd == old(legitimateMessageEnd)
              case Tag(t, rest) => tag == t && Rest() == rest && legitimateMessageEnd == old(legitimateMessageEnd)
    {
      if position == End() {
        legitimateMessageEnd := true;
        tag := 0;
      } else {
        var ok, value := ReadVarint32();
        tag := if ok then value else 0;
      }
      lastTag := tag;
    }

    /** May take the expected tag if it comes next; it may also decline to look. */
    method ExpectTag(expected: nat) returns (found: bool)
      requires Valid() && expected < 128
      modifies this`position
      ensures Valid()
      ensures found ==> old(Rest()) == [expected] + Rest()
      ensures !found ==> position == old(position)
    {
      var inBuffer: bool := *;
      found := inBuffer && position < End() && data[position] == expected;
      if found {
        position := position + 1;
      }
    }

    /** May notice that the input is at its end; it may also decline to look. */
    method ExpectAtEnd() returns (atEnd: bool)
      requires Valid()
      modifies this`lastTag, this`legitimateMessageEnd
      ensures atEnd ==> Rest() == [] && lastTag == 0 && legitimateMessageEnd
      ensures !atEnd ==> lastTag == old(lastTag) && legitimateMessageEnd == old(legitimateMessageEnd)
    {
      var atLimit: bool := *;
      atEnd := atLimit && position == End();
      if atEnd {
        lastTag := 0;
        legitimateMessageEnd := true;
      }
    }

    /** The next `count` bytes; all that remain, if they are fewer. A count of 2^31 or more reads nothing. */
    method ReadRaw(count: nat) returns (ok: bool, bytes: seq<byte>)
      requires Valid()
      modifies this`position
      ensures Valid()
      ensures ok <==> count < TWO_31 && count <= |old(Rest())|
      ensures ok ==> bytes == old(Rest())[..count] && Rest() == old(Rest())[count..]
      ensures !ok ==> bytes == if count < TWO_31 then old(Rest()) else []
    {
      if count >= TWO_31 {
        return false, [];
      }
      ok := count <= End() - position;
      var next := if ok then position + count else End();
      bytes := data[position..next];
      SliceTwice(data, position, next, End());
      position := next;
    }

    method Skip(count: nat) returns (ok: bool)
      requires Valid()
      modifies this`position
      ensures Valid()
      ensures match WireFormat.Skip(count, old(Rest()))
              case None => !ok
              case Some(rest) => ok && Rest() == rest
    {
      var bytes;
      ok, bytes := ReadRaw(count);
    }

    method IncrementRecursionDepth() returns (ok: bool)
      modifies this`recursionDepth
      ensures recursionDepth == old(recursionDepth) + 1
      ensures ok <==> old(Budget()) > 0
    {
      recursionDepth := recursionDepth + 1;
      ok := recursionDepth <= RECURSION_LIMIT;
    }

    method DecrementRecursionDepth()
      modifies this`recursionDepth
      ensures recursionDepth == if old(recursionDepth) > 0 then old(recursionDepth) - 1 else 0
    {
      if recursionDepth > 0 {
        recursionDepth := recursionDepth - 1;
      }
    }

    /** Narrows what can be read; a length that is negative as an int, or too long, keeps the old limit. */
    method PushLimit(byteLimit: int) returns (oldLimit: int)
      requires Valid()
      modifies this`currentLimit
      ensures Valid() && oldLimit == old(currentLimit)
      ensures currentLimit <= old(currentLimit)
      ensures Rest() == if 0 <= byteLimit <= |old(Rest())| then old(Rest())[..byteLimit] else old(Rest())
    {
      oldLimit := currentLimit;
      ghost var start := Rest();
      currentLimit := if 0 <= byteLimit <= INT_MAX - position then position + byteLimit else INT_MAX;
      if oldLimit < currentLimit {
        currentLimit := oldLimit;
      }
      SliceTwice(data, position, End(), position + |start|);
      assert start[..|start|] == start;
    }

    method PopLimit(oldLimit: int)
      requires Valid() && currentLimit <= oldLimit <= INT_MAX
      modifies this`currentLimit, this`legitimateMessageEnd
      ensures Valid() && currentLimit == oldLimit && !legitimateMessageEnd
    {
      currentLimit := oldLimit;
      legitimateMessageEnd := false;
    }

    /** Passes over the field that a tag starts. */
    method SkipField(tag: nat) returns (ok: bool)
      requires Valid()
      modifies this`position, this`lastTag, this`legitimateMessageEnd, this`recursionDepth
      ensures Valid()
      ensures match WireFormat.SkipField(tag, old(Rest()), old(Budget()))
              case None => !ok
              case Some(rest) =>
                && ok
                && Rest() == rest
                && recursionDepth == old(recursionDepth)
                && legitimateMessageEnd == old(legitimateMessageEnd)
      decreases |Rest()|, 1
    {
      hide Decode, WireFormat.ReadLength, WireFormat.Skip, WireFormat.SkipMessage;
      var wireType, value := tag % 8, 0;
      if wireType == WireFormat.VARINT {
        ok, value := ReadVarint64();
      } else if wireType == WireFormat.FIXED64 {
        ok := Skip(8);
      } else if wireType == WireFormat.LENGTH_DELIMITED {
        ok, value := ReadVarint32();
        if ok {
          ok := Skip(value);
        }
      } else if wireType == WireFormat.START_GROUP {
        ok := IncrementRecursionDepth();
        if !ok {
          return;
        }
        ok := SkipMessage();
        if !ok {
          return;
        }
        DecrementRecursionDepth();
        ok := lastTag == WireFormat.MakeTag(tag / 8, WireFormat.END_GROUP);
      } else if wireType == WireFormat.FIXED32 {
        ok := Skip(4);
      } else {
        ok := false;
      }
    }

    method SkipMessage() returns (ok: bool)
      requires Valid()
      modifies this`position, this`lastTag, this`legitimateMessageEnd, this`recursionDepth
      ensures Valid()
      ensures match WireFormat.SkipMessage(old(Rest()), old(Budget()))
              case None => !ok
              case Some((last, rest)) =>
                && ok
                && lastTag == last
                && recursionDepth == old(recursionDepth)
                && (last != 0 ==> Rest() == rest && legitimateMessageEnd == old(legitimateMessageEnd))
      decreases |Rest()|, 0
    {
      ghost var start, budget := Rest(), Budget();
      while true
        invariant Valid() && recursionDepth == old(recursionDepth)
        invariant legitimateMessageEnd == old(legitimateMessageEnd)
        invariant |Rest()| <= |start|
        invariant WireFormat.SkipMessage(Rest(), budget) == WireFormat.SkipMessage(start, budget)
        decreases |Rest()|
      {
        var tag := ReadTag();
        if tag == 0 {
          return true;
        }
        if tag % 8 == WireFormat.END_GROUP {
          return true;
        }
        ok := SkipField(tag);
        if !ok {
          return;
        }
      }
    }
  }

  class CodedOutputStream {
    var written: seq<byte>

    constructor ()
      ensures written == [] && fresh(this)
    {
      written := [];
    }

    /** Seven bits at a time until what is left fits in a byte. */
    method WriteVarint(v: nat)
      modifies this
      ensures written == old(written) + Encode(v)
    {
      var value := v;
      while value > 0x7F
        invariant written + Encode(value) == old(written) + Encode(v)
      {
        assert written + [value % 128 + 128] + Encode(value / 128) == written + Encode(value);
        written := written + [value % 128 + 128];
        value := value / 128;
      }
      written := written + [value];
    }

    method WriteRaw(bytes: seq<byte>)
      modifies this
      ensures written == old(written) + bytes
    {
      written := written + bytes;
    }
  }
}
