/**
 * The path from a file to one of its elements, as pairs of a field number of the enclosing
 * description and an index, and the way back.
 */
module LocationPaths {
  import opened Wrappers
  import opened Descriptors

  const FILE_MESSAGE: int := 4
  const FILE_ENUM: int := 5
  const FILE_SERVICE: int := 6
  const MESSAGE_FIELD: int := 2
  const MESSAGE_NESTED: int := 3
  const MESSAGE_ENUM: int := 4
  const ENUM_VALUE: int := 2
  const SERVICE_METHOD: int := 2

  /** A message, enum or other element knows its parent and its place among the parent's children. */
  datatype MessageRef = Top(index: nat) | Nested(parent: MessageRef, index: nat)
  datatype EnumRef = TopEnum(index: nat) | NestedEnum(parent: MessageRef, index: nat)
  datatype Element =
    | AMessage(message: MessageRef)
    | AField(parent: MessageRef, index: nat)
    | AnEnum(enum: EnumRef)
    | AValue(owner: EnumRef, index: nat)
    | AService(index: nat)
    | AMethod(service: nat, index: nat)

  // ----- the elements of a file -----

  /** What the file has at a place; None if there is no such place. */
  function MessageAt(file: FileProto, r: MessageRef): Option<MessageProto> {
    match r
    case Top(i) => if i < |file.messages| then Some(file.messages[i]) else None
    case Nested(parent, i) =>
      match MessageAt(file, parent)
      case None => None
      case Some(m) => if i < |m.nested| then Some(m.nested[i]) else None
  }

  function EnumAt(file: FileProto, r: EnumRef): Option<EnumProto> {
    match r
    case TopEnum(i) => if i < |file.enums| then Some(file.enums[i]) else None
    case NestedEnum(parent, i) =>
      match MessageAt(file, parent)
      case None => None
      case Some(m) => if i < |m.enums| then Some(m.enums[i]) else None
  }

  predicate IsIn(file: FileProto, e: Element) {
    match e
    case AMessage(m) => MessageAt(file, m).Some?
    case AField(m, i) => MessageAt(file, m).Some? && i < |MessageAt(file, m).value.fields|
    case AnEnum(r) => EnumAt(file, r).Some?
    case AValue(r, i) => EnumAt(file, r).Some? && i < |EnumAt(file, r).value.values|
    case AService(i) => i < |file.services|
    case AMethod(s, i) => s < |file.services| && i < |file.services[s].methods|
  }

  // ----- from the element up -----

  function MessagePath(r: MessageRef): seq<int> {
    match r
    case Top(i) => [FILE_MESSAGE, i]
    case Nested(parent, i) => MessagePath(parent) + [MESSAGE_NESTED, i]
  }

  function EnumPath(r: EnumRef): seq<int> {
    match r
    case TopEnum(i) => [FILE_ENUM, i]
    case NestedEnum(parent, i) => MessagePath(parent) + [MESSAGE_ENUM, i]
  }

  function LocationPath(e: Element): seq<int> {
    match e
    case AMessage(m) => MessagePath(m)
    case AField(m, i) => MessagePath(m) + [MESSAGE_FIELD, i]
    case AnEnum(r) => EnumPath(r)
    case AValue(r, i) => EnumPath(r) + [ENUM_VALUE, i]
    case AService(i) => [FILE_SERVICE, i]
    case AMethod(s, i) => [FILE_SERVICE, s] + [SERVICE_METHOD, i]
  }

  /** The numbers are those of the fields in the description of descriptions: a file's messages are its field 4. */
  lemma PathsMean(e: Element)
    ensures LocationPath(e) ==
            match e
            case AMessage(Top(i)) => [4, i]
            case AMessage(Nested(parent, i)) => LocationPath(AMessage(parent)) + [3, i]
            case AField(parent, i) => LocationPath(AMessage(parent)) + [2, i]
            case AnEnum(TopEnum(i)) => [5, i]
            case AnEnum(NestedEnum(parent, i)) => LocationPath(AMessage(parent)) + [4, i]
            case AValue(owner, i) => LocationPath(AnEnum(owner)) + [2, i]
            case AService(i) => [6, i]
            case AMethod(s, i) => [6, s, 2, i]
  {
  }

  // ----- from the file down -----

  /** The path starts with the given field number and an index below `size`. */
  predicate Leads(path: seq<int>, number: int, size: nat) {
    |path| >= 2 && path[0] == number && 0 <= path[1] < size
  }

  function Follow(file: FileProto, path: seq<int>): Option<Element> {
    if Leads(path, FILE_MESSAGE, |file.messages|) then
      FollowMessage(file.messages[path[1]], Top(path[1]), path[2..])
    else if Leads(path, FILE_ENUM, |file.enums|) then
      FollowEnum(file.enums[path[1]], TopEnum(path[1]), path[2..])
    else if Leads(path, FILE_SERVICE, |file.services|) then
      FollowService(file.services[path[1]], path[1], path[2..])
    else None
  }

  function FollowMessage(m: MessageProto, here: MessageRef, path: seq<int>): Option<Element>
    decreases |path|
  {
    if path == [] then Some(AMessage(here))
    else if Leads(path, MESSAGE_NESTED, |m.nested|) then
      FollowMessage(m.nested[path[1]], Nested(here, path[1]), path[2..])
    else if Leads(path, MESSAGE_ENUM, |m.enums|) then
      FollowEnum(m.enums[path[1]], NestedEnum(here, path[1]), path[2..])
    else if |path| == 2 && Leads(path, MESSAGE_FIELD, |m.fields|) then Some(AField(here, path[1]))
    else None
  }

  function FollowEnum(e: EnumProto, here: EnumRef, path: seq<int>): Option<Element> {
    if path == [] then Some(AnEnum(here))
    else if |path| == 2 && Leads(path, ENUM_VALUE, |e.values|) then Some(AValue(here, path[1]))
    else None
  }

  function FollowService(s: ServiceProto, here: nat, path: seq<int>): Option<Element> {
    if path == [] then Some(AService(here))
    else if |path| == 2 && Leads(path, SERVICE_METHOD, |s.methods|) then Some(AMethod(here, path[1]))
    else None
  }

  // ----- there and back -----

  /** Below the path of a message, following goes on inside that message. */
  lemma {:induction false} FollowThrough(file: FileProto, r: MessageRef, rest: seq<int>)
    requires MessageAt(file, r).Some?
    ensures Follow(file, MessagePath(r) + rest) == FollowMessage(MessageAt(file, r).value, r, rest)
    decreases r
  {
    match r
    case Top(i) =>
      assert (MessagePath(r) + rest)[2..] == rest;
    case Nested(parent, i) =>
      var step := [MESSAGE_NESTED, i] + rest;
      assert MessagePath(r) + rest == MessagePath(parent) + step;
      FollowThrough(file, parent, step);
      assert step[2..] == rest;
  }

  lemma FollowThroughEnum(file: FileProto, r: EnumRef, rest: seq<int>)
    requires EnumAt(file, r).Some?
    ensures Follow(file, EnumPath(r) + rest) == FollowEnum(EnumAt(file, r).value, r, rest)
  {
    match r
    case TopEnum(i) =>
      assert (EnumPath(r) + rest)[2..] == rest;
    case NestedEnum(parent, i) =>
      var step := [MESSAGE_ENUM, i] + rest;
      assert EnumPath(r) + rest == MessagePath(parent) + step;
      FollowThrough(file, parent, step);
      assert step[2..] == rest;
  }

  /** Following the path of an element of the file leads back to that element. */
  lemma PathLeadsBack(file: FileProto, e: Element)
    requires IsIn(file, e)
    ensures Follow(file, LocationPath(e)) == Some(e)
  {
    match e
    case AMessage(m) =>
      assert MessagePath(m) + [] == MessagePath(m);
      FollowThrough(file, m, []);
    case AField(m, i) => FollowThrough(file, m, [MESSAGE_FIELD, i]);
    case AnEnum(r) =>
      assert EnumPath(r) + [] == EnumPath(r);
      FollowThroughEnum(file, r, []);
    case AValue(r, i) => FollowThroughEnum(file, r, [ENUM_VALUE, i]);
    case AService(i) =>
    case AMethod(s, i) =>
  }

  lemma FirstPair(before: seq<int>, path: seq<int>)
    requires |path| >= 2
    ensures before + [path[0], path[1]] + path[2..] == before + path
  {
  }

  lemma {:induction false} FoundInMessage(file: FileProto, here: MessageRef, path: seq<int>)
    requires MessageAt(file, here).Some?
    requires FollowMessage(MessageAt(file, here).value, here, path).Some?
    ensures
      var e := FollowMessage(MessageAt(file, here).value, here, path).value;
      IsIn(file, e) && LocationPath(e) == MessagePath(here) + path
    decreases |path|
  {
    var m := MessageAt(file, here).value;
    if path == [] {
      assert MessagePath(here) + [] == MessagePath(here);
    } else {
      FirstPair(MessagePath(here), path);
      if Leads(path, MESSAGE_NESTED, |m.nested|) {
        hide IsIn, LocationPath;
        FoundInMessage(file, Nested(here, path[1]), path[2..]);
      } else if Leads(path, MESSAGE_ENUM, |m.enums|) {
        hide IsIn, LocationPath;
        FoundInEnum(file, NestedEnum(here, path[1]), path[2..]);
      } else {
        assert path[2..] == [];
      }
    }
  }

  lemma FoundInEnum(file: FileProto, here: EnumRef, path: seq<int>)
    requires EnumAt(file, here).Some?
    requires FollowEnum(EnumAt(file, here).value, here, path).Some?
    ensures
      var e := FollowEnum(EnumAt(file, here).value, here, path).value;
      IsIn(file, e) && LocationPath(e) == EnumPath(here) + path
  {
  }

  /** Whatever a path leads to is an element of the file, and the path is that element's own. */
  lemma FoundHasThatPath(file: FileProto, path: seq<int>)
    requires Follow(file, path).Some?
    ensures IsIn(file, Follow(file, path).value) && LocationPath(Follow(file, path).value) == path
  {
    assert path == [path[0], path[1]] + path[2..];
    if Leads(path, FILE_MESSAGE, |file.messages|) {
      FoundInMessage(file, Top(path[1]), path[2..]);
    } else if Leads(path, FILE_ENUM, |file.enums|) {
      FoundInEnum(file, TopEnum(path[1]), path[2..]);
    } else if path[2..] != [] {
      assert path == [path[0], path[1]] + [path[2], path[3]];
    }
  }

  /** No two elements of a file have the same path. */
  lemma PathsDiffer(file: FileProto, d: Element, e: Element)
    requires IsIn(file, d) && IsIn(file, e) && d != e
    ensures LocationPath(d) != LocationPath(e)
  {
    PathLeadsBack(file, d);
    PathLeadsBack(file, e);
  }

  // ----- the path as it is pushed onto a vector -----

  class PathBuffer {
    var contents: seq<int>

    method Push(number: int, index: nat)
      modifies this
      ensures contents == old(contents) + [number, index]
    {
      contents := contents + [number];
      contents := contents + [index];
    }
  }

  method GetMessagePath(r: MessageRef, output: PathBuffer)
    modifies output
    ensures output.contents == old(output.contents) + MessagePath(r)
    decreases r
  {
    match r {
      case Top(i) =>
        output.Push(FILE_MESSAGE, i);
      case Nested(parent, i) =>
        GetMessagePath(parent, output);
        output.Push(MESSAGE_NESTED, i);
    }
  }

  method GetEnumPath(r: EnumRef, output: PathBuffer)
    modifies output
    ensures output.contents == old(output.contents) + EnumPath(r)
  {
    match r {
      case TopEnum(i) =>
        output.Push(FILE_ENUM, i);
      case NestedEnum(parent, i) =>
        GetMessagePath(parent, output);
        output.Push(MESSAGE_ENUM, i);
    }
  }

  method GetLocationPath(e: Element, output: PathBuffer)
    modifies output
    ensures output.contents == old(output.contents) + LocationPath(e)
  {
    match e {
      case AMessage(m) =>
        GetMessagePath(m, output);
      case AField(m, i) =>
        GetMessagePath(m, output);
        output.Push(MESSAGE_FIELD, i);
      case AnEnum(r) =>
        GetEnumPath(r, output);
      case AValue(r, i) =>
        GetEnumPath(r, output);
        output.Push(ENUM_VALUE, i);
      case AService(i) =>
        output.Push(FILE_SERVICE, i);
      case AMethod(s, i) =>
        output.Push(FILE_SERVICE, s);
        output.Push(SERVICE_METHOD, i);
    }
  }
}
