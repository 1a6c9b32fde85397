/** Resolving the references of a file, and giving every number one field. */
module Linking {
  import opened Declarations
  import opened Descriptors
  import opened Names
  import opened Resolver
  import opened Wrappers

  /** The message (by full name, "" for none) and number of a field, to the full name of the field. */
  type Numbers = map<(string, int), string>

  /** A reference to resolve: a field or extension of `parent`, or a method. */
  datatype Link =
    | FieldLink(field: FieldProto, fullName: string, parent: string, isExtension: bool)
    | MethodLink(rpc: MethodProto, methodName: string)

  // ----- the references of a file, in the order they are linked -----

  /** `parent` is the message of the fields, or "" for extensions, whose message is not known yet. */
  function FieldLinks(scope: string, parent: string, fs: seq<FieldProto>, isExtension: bool): seq<Link> {
    if fs == [] then []
    else FieldLinks(scope, parent, fs[..|fs| - 1], isExtension) +
         [FieldLink(fs[|fs| - 1], Join(scope, fs[|fs| - 1].name), parent, isExtension)]
  }

  function MessageLinks(scope: string, m: MessageProto): seq<Link>
    decreases m, 1
  {
    var inner := Join(scope, m.name);
    MessagesLinks(inner, m.nested) + FieldLinks(inner, inner, m.fields, false) +
      FieldLinks(inner, "", m.extensions, true)
  }

  function MessagesLinks(scope: string, ms: seq<MessageProto>): seq<Link>
    decreases ms, 0
  {
    if ms == [] then []
    else MessagesLinks(scope, ms[..|ms| - 1]) + MessageLinks(scope, ms[|ms| - 1])
  }

  function MethodLinks(service: string, ms: seq<MethodProto>): seq<Link> {
    if ms == [] then []
    else MethodLinks(service, ms[..|ms| - 1]) + [MethodLink(ms[|ms| - 1], service + "." + ms[|ms| - 1].name)]
  }

  function ServicesLinks(scope: string, ss: seq<ServiceProto>): seq<Link> {
    if ss == [] then []
    else ServicesLinks(scope, ss[..|ss| - 1]) + MethodLinks(Join(scope, ss[|ss| - 1].name), ss[|ss| - 1].methods)
  }

  function FileLinks(f: FileProto): seq<Link> {
    MessagesLinks(f.package, f.messages) + FieldLinks(f.package, "", f.extensions, true) +
    ServicesLinks(f.package, f.services)
  }

  // ----- resolving one reference -----

  /** A reference is dropped at the first unusable name; otherwise the field belongs to `message`, `good` or not. */
  datatype Resolved = Dropped | Kept(message: string, good: bool)

  predicate IsExtensionNumber(ranges: seq<Range>, number: int) {
    exists i | 0 <= i < |ranges| :: RangeHolds(ranges[i], number)
  }

  function ResolveExtendee(find: Finder, l: Link): Resolved
    requires l.FieldLink?
  {
    if l.field.extendee.None? then Kept(l.parent, true)
    else
      var extendee := Lookup(find, l.field.extendee.value, l.fullName, false);
      if extendee.None? || extendee.value.kind != Message then Dropped
      else Kept(extendee.value.fullName, IsExtensionNumber(extendee.value.ranges, l.field.number))
  }

  /** The type a field ends up with: its own, or else the one its type name suggests. */
  function TypeOf(f: FieldProto, kind: SymbolKind): Option<FieldType> {
    if f.fieldType != Unset then Some(f.fieldType)
    else match kind
      case Message => Some(MessageType)
      case Enum => Some(EnumType)
      case _ => None
  }

  predicate DefaultGood(find: Finder, f: FieldProto, enumType: string) {
    f.defaultValue.Some? ==>
      var v := Lookup(find, f.defaultValue.value, enumType, false);
      v.Some? && v.value.kind == EnumValue && v.value.enumType == enumType
  }

  /** What the symbol that a type name leads to means for the field. */
  function ResolveKind(find: Finder, f: FieldProto, message: string, t: Symbol): Resolved {
    match TypeOf(f, t.kind)
    case None => Dropped
    case Some(MessageType) => if t.kind != Message then Dropped else Kept(message, f.defaultValue.None?)
    case Some(EnumType) => if t.kind != Enum then Dropped else Kept(message, DefaultGood(find, f, t.fullName))
    case Some(_) => Kept(message, false)
  }

  function ResolveType(find: Finder, l: Link, message: string): Resolved
    requires l.FieldLink?
  {
    var f := l.field;
    if f.typeName.None? then Kept(message, f.fieldType != MessageType && f.fieldType != EnumType)
    else
      match Lookup(find, f.typeName.value, l.fullName, true)
      case None => Dropped
      case Some(t) => ResolveKind(find, f, message, t)
  }

  function ResolveField(find: Finder, l: Link): Resolved
    requires l.FieldLink?
  {
    match ResolveExtendee(find, l)
    case Dropped => Dropped
    case Kept(message, good) =>
      match ResolveType(find, l, message)
      case Dropped => Dropped
      case Kept(_, typeGood) => Kept(message, good && typeGood)
  }

  predicate IsMessage(s: Option<Symbol>) {
    s.Some? && s.value.kind == Message
  }

  predicate MethodGood(find: Finder, l: Link)
    requires l.MethodLink?
  {
    && IsMessage(Lookup(find, l.rpc.inputType, l.methodName, false))
    && IsMessage(Lookup(find, l.rpc.outputType, l.methodName, false))
  }

  // ----- linking -----

  /** The numbers taken in this file, the extension numbers of the pool, and whether all went well so far. */
  datatype Linked = Linked(numbers: Numbers, extensions: set<(string, int)>, good: bool)

  function AddNumber(s: Linked, l: Link, message: string, good: bool): Linked
    requires l.FieldLink?
  {
    var key := (message, l.field.number);
    Linked(
      if key in s.numbers then s.numbers else s.numbers[key := l.fullName],
      if l.isExtension then s.extensions + {key} else s.extensions,
      s.good && good && key !in s.numbers)
  }

  function LinkOne(find: Finder, s: Linked, l: Link): Linked {
    match l
    case FieldLink(_, _, _, _) =>
      (match ResolveField(find, l)
       case Dropped => s.(good := false)
       case Kept(message, good) => AddNumber(s, l, message, good))
    case MethodLink(_, _) => s.(good := s.good && MethodGood(find, l))
  }

  function LinkAll(find: Finder, s: Linked, ls: seq<Link>): Linked {
    if ls == [] then s else LinkOne(find, LinkAll(find, s, ls[..|ls| - 1]), ls[|ls| - 1])
  }

  lemma LinkNothing(exact: bool, find: Finder, s: Linked)
    ensures LinkedAs(exact, s, LinkAll(find, s, []))
  {
  }

  lemma LinkOneAlone(find: Finder, s: Linked, l: Link)
    ensures LinkAll(find, s, [l]) == LinkOne(find, s, l)
  {
  }

  lemma FieldLinksOneMore(scope: string, parent: string, fs: seq<FieldProto>, isExtension: bool, i: nat)
    requires i < |fs|
    ensures FieldLinks(scope, parent, fs[..i + 1], isExtension) ==
            FieldLinks(scope, parent, fs[..i], isExtension) +
              [FieldLink(fs[i], Join(scope, fs[i].name), parent, isExtension)]
  {
    TakeOneMore(fs, i);
  }

  lemma MessagesLinksOneMore(scope: string, ms: seq<MessageProto>, i: nat)
    requires i < |ms|
    ensures MessagesLinks(scope, ms[..i + 1]) == MessagesLinks(scope, ms[..i]) + MessageLinks(scope, ms[i])
  {
    TakeOneMore(ms, i);
  }

  lemma MethodLinksOneMore(service: string, ms: seq<MethodProto>, i: nat)
    requires i < |ms|
    ensures MethodLinks(service, ms[..i + 1]) == MethodLinks(service, ms[..i]) +
            [MethodLink(ms[i], service + "." + ms[i].name)]
  {
    TakeOneMore(ms, i);
  }

  lemma ServicesLinksOneMore(scope: string, ss: seq<ServiceProto>, i: nat)
    requires i < |ss|
    ensures ServicesLinks(scope, ss[..i + 1]) == ServicesLinks(scope, ss[..i]) +
            MethodLinks(Join(scope, ss[i].name), ss[i].methods)
  {
    TakeOneMore(ss, i);
  }

  lemma {:induction false} LinkAllAppend(find: Finder, s: Linked, a: seq<Link>, b: seq<Link>)
    ensures LinkAll(find, s, a + b) == LinkAll(find, LinkAll(find, s, a), b)
    decreases |b|
  {
    if b == [] {
      assert a + b == a;
    } else {
      assert (a + b)[..|a + b| - 1] == a + b[..|b| - 1];
      LinkAllAppend(find, s, a, b[..|b| - 1]);
    }
  }

  // ----- linking against tables that grow -----

  /** The same numbers and the same outcome; the extensions of the pool may have grown otherwise. */
  predicate SameLinks(s: Linked, t: Linked) {
    s.numbers == t.numbers && s.good == t.good
  }

  predicate LinkedAs(exact: bool, s: Linked, t: Linked) {
    SameLinks(s, t) && (exact ==> s == t)
  }

  lemma {:induction false} LinkAllSame(find: Finder, s: Linked, t: Linked, ls: seq<Link>)
    requires SameLinks(s, t)
    ensures SameLinks(LinkAll(find, s, ls), LinkAll(find, t, ls))
    decreases |ls|
  {
    hide ResolveField, MethodGood;
    if ls != [] {
      LinkAllSame(find, s, t, ls[..|ls| - 1]);
    }
  }

  /** Linking one list of references after another. */
  lemma LinkedAsTwice(exact: bool, find: Finder, s0: Linked, s1: Linked, s2: Linked, a: seq<Link>, b: seq<Link>)
    requires LinkedAs(exact, s1, LinkAll(find, s0, a)) && LinkedAs(exact, s2, LinkAll(find, s1, b))
    ensures LinkedAs(exact, s2, LinkAll(find, s0, a + b))
  {
    hide LinkAll;
    LinkAllAppend(find, s0, a, b);
    LinkAllSame(find, s1, LinkAll(find, s0, a), b);
  }

  // ----- what good linking means -----

  /** The message and number a reference claims, once its names resolve. */
  function Claim(find: Finder, l: Link): Option<(string, int)> {
    if l.FieldLink? && ResolveField(find, l).Kept? then Some((ResolveField(find, l).message, l.field.number)) else None
  }

  predicate ResolvesWell(find: Finder, l: Link) {
    match l
    case FieldLink(_, _, _, _) => ResolveField(find, l).Kept? && ResolveField(find, l).good
    case MethodLink(_, _) => MethodGood(find, l)
  }

  predicate AllResolveWell(find: Finder, ls: seq<Link>) {
    forall i | 0 <= i < |ls| :: ResolvesWell(find, ls[i])
  }

  /** No two references claim the same number of the same message. */
  predicate ClaimsDistinct(find: Finder, ls: seq<Link>) {
    forall i, j | 0 <= i < j < |ls| && Claim(find, ls[i]).Some? :: Claim(find, ls[i]) != Claim(find, ls[j])
  }

  predicate Claimed(find: Finder, ls: seq<Link>, key: (string, int)) {
    exists i | 0 <= i < |ls| :: Claim(find, ls[i]) == Some(key)
  }

  lemma ClaimedSnoc(find: Finder, ls: seq<Link>, key: (string, int))
    requires ls != []
    ensures Claimed(find, ls, key) <==>
            Claimed(find, ls[..|ls| - 1], key) || Claim(find, ls[|ls| - 1]) == Some(key)
  {
  }

  /** The number table holds exactly the claims. */
  lemma {:induction false} TableHoldsClaims(find: Finder, e: set<(string, int)>, ls: seq<Link>, key: (string, int))
    ensures key in LinkAll(find, Linked(map[], e, true), ls).numbers <==> Claimed(find, ls, key)
    decreases |ls|
  {
    if ls != [] {
      TableHoldsClaims(find, e, ls[..|ls| - 1], key);
      ClaimedSnoc(find, ls, key);
    }
  }

  lemma ResolveSnoc(find: Finder, ls: seq<Link>)
    requires ls != []
    ensures AllResolveWell(find, ls) <==> AllResolveWell(find, ls[..|ls| - 1]) && ResolvesWell(find, ls[|ls| - 1])
  {
  }

  lemma DistinctSnoc(find: Finder, ls: seq<Link>)
    requires ls != []
    ensures ClaimsDistinct(find, ls) <==>
            && ClaimsDistinct(find, ls[..|ls| - 1])
            && (Claim(find, ls[|ls| - 1]).Some? ==> !Claimed(find, ls[..|ls| - 1], Claim(find, ls[|ls| - 1]).value))
  {
  }

  /**
   Linking a file's references reports no error exactly when every reference resolves well and no
   two fields claim the same number of the same message.
   */
  lemma {:induction false} LinkingGoodMeans(find: Finder, e: set<(string, int)>, ls: seq<Link>)
    ensures LinkAll(find, Linked(map[], e, true), ls).good <==> AllResolveWell(find, ls) && ClaimsDistinct(find, ls)
    decreases |ls|
  {
    if ls != [] {
      LinkingGoodMeans(find, e, ls[..|ls| - 1]);
      ResolveSnoc(find, ls);
      DistinctSnoc(find, ls);
      var last := ls[|ls| - 1];
      if Claim(find, last).Some? {
        TableHoldsClaims(find, e, ls[..|ls| - 1], Claim(find, last).value);
      }
    }
  }
}
