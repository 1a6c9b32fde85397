/**
 * What a file must be like to be accepted, element by element and with the bounds written out; and that this is
 * what the builder's checks come to.
 */
module Requirements {
  import opened Acceptance
  import opened Declarations
  import opened Descriptors
  import opened FileElements
  import opened Linking
  import opened Names
  import opened PoolTables
  import opened PublicImports
  import opened Resolver
  import opened StableTables
  import opened Wrappers

  // ----- names and numbers -----

  predicate IsName(s: string) {
    s != "" && forall i | 0 <= i < |s| ::
      'A' <= s[i] <= 'Z' || 'a' <= s[i] <= 'z' || '0' <= s[i] <= '9' || s[i] == '_'
  }

  /** Numbers start at one; 19000 to 19999 are reserved; those of a message's own fields have 29 bits. */
  predicate FieldFine(x: FieldProto, isExtension: bool) {
    && IsName(x.name)
    && (1 <= x.number < 19000 || 20000 <= x.number)
    && (x.number <= 536870911 || isExtension)
    && (x.extendee.None? <==> !isExtension)
  }

  predicate EnumFine(e: EnumProto) {
    IsName(e.name) && |e.values| >= 1 && forall x | x in e.values :: IsName(x)
  }

  predicate ServiceFine(s: ServiceProto) {
    IsName(s.name) && forall y | y in s.methods :: IsName(y.name)
  }

  predicate Covers(r: Range, n: int) {
    r.start <= n <= r.end - 1
  }

  /** Extension ranges hold some number, no number is in two of them, and none is that of a field. */
  ghost predicate RangesApartAndFree(rs: seq<Range>, fs: seq<FieldProto>) {
    && (forall r | r in rs :: 1 <= r.start <= r.end - 1)
    && (forall i, j, n | 0 <= i < |rs| && 0 <= j < |rs| && i != j && Covers(rs[i], n) :: !Covers(rs[j], n))
    && (forall r, x | r in rs && x in fs :: !Covers(r, x.number))
  }

  ghost predicate MessageFine(m: MessageProto) {
    && IsName(m.name)
    && (forall x | x in m.fields :: FieldFine(x, false))
    && (forall x | x in m.extensions :: FieldFine(x, true))
    && (forall e | e in m.enums :: EnumFine(e))
    && RangesApartAndFree(m.ranges, m.fields)
  }

  /** The last number of a range has 29 bits, or 31 in a message set. */
  predicate BoundsFine(m: MessageProto) {
    forall r | r in m.ranges :: r.end - 1 <= if m.messageSet then 2147483647 else 536870911
  }

  lemma IdentifierMeans(s: string)
    ensures IsIdentifier(s) <==> IsName(s)
  {
  }

  lemma FieldsMean(fs: seq<FieldProto>, isExtension: bool)
    ensures FieldsGood(fs, isExtension) <==> forall x | x in fs :: FieldFine(x, isExtension)
  {
    forall x: FieldProto
      ensures FieldGood(x, isExtension) <==> FieldFine(x, isExtension)
    {
      IdentifierMeans(x.name);
    }
    if FieldsGood(fs, isExtension) {
      forall x | x in fs
        ensures FieldFine(x, isExtension)
      {
        var i :| 0 <= i < |fs| && fs[i] == x;
        assert FieldGood(fs[i], isExtension);
      }
    }
  }

  lemma EnumsMean(es: seq<EnumProto>)
    ensures EnumsGood(es) <==> forall e | e in es :: EnumFine(e)
  {
    forall e: EnumProto
      ensures EnumGood(e) <==> EnumFine(e)
    {
      NamesMean(e.values);
      IdentifierMeans(e.name);
    }
    if EnumsGood(es) {
      forall e | e in es
        ensures EnumFine(e)
      {
        var i :| 0 <= i < |es| && es[i] == e;
        assert EnumGood(es[i]);
      }
    }
  }

  lemma NamesMean(names: seq<string>)
    ensures IdentifiersUpTo(names, |names|) <==> forall x | x in names :: IsName(x)
  {
    forall x: string
      ensures IsIdentifier(x) <==> IsName(x)
    {
      IdentifierMeans(x);
    }
    hide IsIdentifier, IsName;
    if IdentifiersUpTo(names, |names|) {
      forall x | x in names
        ensures IsName(x)
      {
        var i :| 0 <= i < |names| && names[i] == x;
      }
    }
  }

  lemma ServicesMean(ss: seq<ServiceProto>)
    ensures ServicesGood(ss) <==> forall s | s in ss :: ServiceFine(s)
  {
    forall s: ServiceProto
      ensures ServiceGood(s) <==> ServiceFine(s)
    {
      forall x: string
        ensures IsIdentifier(x) <==> IsName(x)
      {
        IdentifierMeans(x);
      }
      hide IsIdentifier, IsName;
      if ServiceGood(s) {
        forall y | y in s.methods
          ensures IsName(y.name)
        {
          var i :| 0 <= i < |s.methods| && s.methods[i] == y;
        }
      }
    }
    if ServicesGood(ss) {
      forall s | s in ss
        ensures ServiceFine(s)
      {
        var i :| 0 <= i < |ss| && ss[i] == s;
        assert ServiceGood(ss[i]);
      }
    }
  }

  lemma RangesMean(rs: seq<Range>, fs: seq<FieldProto>)
    ensures RangesGood(rs) && FieldsOutside(fs, rs) && RangesApart(rs) <==> RangesApartAndFree(rs, fs)
  {
    if RangesGood(rs) && FieldsOutside(fs, rs) && RangesApart(rs) {
      forall i, j, n | 0 <= i < |rs| && 0 <= j < |rs| && i != j && Covers(rs[i], n)
        ensures !Covers(rs[j], n)
      {
        assert !Overlap(rs[if i < j then i else j], rs[if i < j then j else i]);
      }
      forall r, x | r in rs && x in fs
        ensures !Covers(r, x.number)
      {
        var i :| 0 <= i < |rs| && rs[i] == r;
        var j :| 0 <= j < |fs| && fs[j] == x;
        assert !RangeHolds(rs[i], fs[j].number);
      }
      forall r | r in rs
        ensures 1 <= r.start <= r.end - 1
      {
        var i :| 0 <= i < |rs| && rs[i] == r;
        assert RangeGood(rs[i]);
      }
    }
    if RangesApartAndFree(rs, fs) {
      forall i, j | 0 <= i < j < |rs|
        ensures !Overlap(rs[i], rs[j])
      {
        assert rs[i] in rs && rs[j] in rs;
        var n := if rs[i].start < rs[j].start then rs[j].start else rs[i].start;
        assert rs[i].start <= rs[i].end - 1 && rs[j].start <= rs[j].end - 1;
        assert !(Covers(rs[i], n) && Covers(rs[j], n));
      }
      forall i, j | 0 <= i < |fs| && 0 <= j < |rs|
        ensures !RangeHolds(rs[j], fs[i].number)
      {
        assert fs[i] in fs && rs[j] in rs;
      }
      forall i | 0 <= i < |rs|
        ensures RangeGood(rs[i])
      {
        assert rs[i] in rs;
      }
    }
  }

  lemma MessageMeans(m: MessageProto)
    ensures MessageGood(m) <==> MessageFine(m) && MessagesGood(m.nested)
  {
    hide IsName, IsIdentifier, FieldsGood, EnumsGood, RangesGood, FieldsOutside, RangesApart;
    hide FieldFine, EnumFine, RangesApartAndFree;
    IdentifierMeans(m.name);
    FieldsMean(m.fields, false);
    FieldsMean(m.extensions, true);
    EnumsMean(m.enums);
    RangesMean(m.ranges, m.fields);
  }

  lemma {:induction false} MessageIsFine(scope: string, ms: seq<MessageProto>, s: string, m: MessageProto)
    requires MessagesGood(ms) && MessageIn(scope, ms, s, m)
    ensures MessageFine(m)
    decreases ms
  {
    hide MessageFine;
    var i :| 0 <= i < |ms| && ((s == scope && m == ms[i]) || MessageIn(Join(scope, ms[i].name), ms[i].nested, s, m));
    assert MessageGood(ms[i]);
    MessageMeans(ms[i]);
    if !(s == scope && m == ms[i]) {
      MessageIsFine(Join(scope, ms[i].name), ms[i].nested, s, m);
    }
  }

  lemma {:induction false} MessageNotFine(scope: string, ms: seq<MessageProto>) returns (s: string, m: MessageProto)
    requires !MessagesGood(ms)
    ensures MessageIn(scope, ms, s, m) && !MessageFine(m)
    decreases ms
  {
    hide MessageFine;
    var i: nat :| i < |ms| && !MessageGood(ms[i]);
    MessageMeans(ms[i]);
    if MessageFine(ms[i]) {
      s, m := MessageNotFine(Join(scope, ms[i].name), ms[i].nested);
    } else {
      s, m := scope, ms[i];
    }
  }

  lemma {:induction false} MessageIsBounded(scope: string, ms: seq<MessageProto>, s: string, m: MessageProto)
    requires AllRangesBounded(ms) && MessageIn(scope, ms, s, m)
    ensures BoundsFine(m)
    decreases ms
  {
    hide BoundsFine;
    var i :| 0 <= i < |ms| && ((s == scope && m == ms[i]) || MessageIn(Join(scope, ms[i].name), ms[i].nested, s, m));
    assert RangesBounded(ms[i]);
    BoundsMean(ms[i]);
    if !(s == scope && m == ms[i]) {
      MessageIsBounded(Join(scope, ms[i].name), ms[i].nested, s, m);
    }
  }

  lemma {:induction false} MessageNotBounded(scope: string, ms: seq<MessageProto>)
    returns (s: string, m: MessageProto)
    requires !AllRangesBounded(ms)
    ensures MessageIn(scope, ms, s, m) && !BoundsFine(m)
    decreases ms
  {
    hide BoundsFine;
    var i: nat :| i < |ms| && !RangesBounded(ms[i]);
    BoundsMean(ms[i]);
    if BoundsFine(ms[i]) {
      s, m := MessageNotBounded(Join(scope, ms[i].name), ms[i].nested);
    } else {
      s, m := scope, ms[i];
    }
  }

  /** All messages are fine, at any depth. */
  ghost predicate MessagesFine(scope: string, ms: seq<MessageProto>) {
    forall s, m | MessageIn(scope, ms, s, m) :: MessageFine(m) && BoundsFine(m)
  }

  lemma MessagesMean(scope: string, ms: seq<MessageProto>)
    ensures MessagesGood(ms) && AllRangesBounded(ms) <==> MessagesFine(scope, ms)
  {
    hide MessageFine, BoundsFine;
    if !MessagesGood(ms) {
      var s, m := MessageNotFine(scope, ms);
    } else if !AllRangesBounded(ms) {
      var s, m := MessageNotBounded(scope, ms);
    } else {
      forall s, m | MessageIn(scope, ms, s, m)
        ensures MessageFine(m) && BoundsFine(m)
      {
        MessageIsFine(scope, ms, s, m);
        MessageIsBounded(scope, ms, s, m);
      }
    }
  }

  lemma BoundsMean(m: MessageProto)
    ensures RangesBounded(m) <==> BoundsFine(m) && AllRangesBounded(m.nested)
  {
    hide AllRangesBounded;
    if RangesBounded(m) {
      forall r | r in m.ranges
        ensures r.end - 1 <= if m.messageSet then 2147483647 else 536870911
      {
        var i :| 0 <= i < |m.ranges| && m.ranges[i] == r;
      }
    }
  }

  // ----- packages -----

  /** `q` is a part of the package name up to some dot, or all of it, and neither it nor a longer one is known. */
  ghost predicate IsNewPackage(s: Symbols, name: string, q: string) {
    IsAtOrAbove(q, name) && forall p | p in s && IsAtOrAbove(p, name) :: |p| < |q|
  }

  /** The longest part of the name that is known. */
  ghost predicate IsLongestKnown(s: Symbols, name: string, q: string) {
    q in s && IsAtOrAbove(q, name) && forall p | p in s && IsAtOrAbove(p, name) :: |p| <= |q|
  }

  /** What follows the last dot. */
  function LastPart(q: string): string {
    q[LastDot(q) + 1..]
  }

  /** The parts of a name are the name itself and the parts of what is before its last dot. */
  lemma PartsOfName(name: string, q: string)
    ensures IsAtOrAbove(q, name) <==> q == name || (LastDot(name) >= 0 && IsAtOrAbove(q, name[..LastDot(name)]))
  {
    hide LastDot;
    var d := LastDot(name);
    if q + "." <= name {
      assert name[|q|] == '.';
      assert |q| <= d;
      assert q == name[..|q|] == name[..d][..|q|];
      if |q| < d {
        assert name[..d][|q|] == '.';
        assert (q + ".") == name[..d][..|q| + 1];
      }
    }
    if d >= 0 && IsAtOrAbove(q, name[..d]) {
      assert name == name[..d] + "." + name[d + 1..];
      if q != name[..d] {
        assert q + "." == name[..d][..|q| + 1] == name[..|q| + 1];
      }
    }
  }

  lemma PackageStep(s: Symbols, file: string, name: string)
    ensures
      var s', d := s[name := PackageSymbol(file, name)], LastDot(name);
      if name in s then
        WithPackage(s, file, name) == s && (PackageGood(s, file, name) <==> s[name].kind == Package)
      else if d == -1 then
        WithPackage(s, file, name) == s' && (PackageGood(s, file, name) <==> IsName(LastPart(name)))
      else
        && WithPackage(s, file, name) == WithPackage(s', file, name[..d])
        && (PackageGood(s, file, name) <==> PackageGood(s', file, name[..d]) && IsName(LastPart(name)))
  {
    hide LastDot, IsName, IsIdentifier, PackageSymbol;
    IdentifierMeans(LastPart(name));
    if name !in s {
      if LastDot(name) == -1 {
        assert LastPart(name) == name;
      } else {
        assert LastPart(name) == name[LastDot(name) + 1..];
        hide LastPart;
      }
    }
  }

  /** The parts of a name that are new, and the longest that is known, from those of what is before its last dot. */
  lemma PartsStep(s: Symbols, s': Symbols, name: string)
    requires forall k :: k in s' <==> k in s || k == name
    ensures name in s ==>
              (forall q :: !IsNewPackage(s, name, q)) && (forall q :: IsLongestKnown(s, name, q) <==> q == name)
    ensures name !in s && LastDot(name) == -1 ==>
              (forall q :: IsNewPackage(s, name, q) <==> q == name) && (forall q :: !IsLongestKnown(s, name, q))
    ensures name !in s && LastDot(name) >= 0 ==>
              && (forall q :: IsNewPackage(s, name, q) <==> q == name || IsNewPackage(s', name[..LastDot(name)], q))
              && (forall q :: IsLongestKnown(s, name, q) <==> IsLongestKnown(s', name[..LastDot(name)], q))
  {
    hide LastDot;
    var d := LastDot(name);
    if name in s {
      KnownPackage(s, name);
    } else {
      forall q
        ensures IsAtOrAbove(q, name) <==> q == name || (d >= 0 && IsAtOrAbove(q, name[..d]))
      {
        PartsOfName(name, q);
      }
      hide IsAtOrAbove;
      if d >= 0 {
        ShorterParts(s, s', name, d);
      } else {
        SinglePart(s, name);
      }
    }
  }

  /**
   A package is declared without an error if and only if the parts of its name that are new are named properly,
   and the longest known one is a package.
   */
  lemma {:induction false} PackageMeans(s: Symbols, file: string, name: string)
    ensures PackageGood(s, file, name) <==>
            && (forall q | IsNewPackage(s, name, q) :: IsName(LastPart(q)))
            && (forall q | IsLongestKnown(s, name, q) :: s[q].kind == Package)
    decreases |name|
  {
    hide LastDot, IsName, IsIdentifier, LastPart, PackageGood, IsNewPackage;
    var s', d := s[name := PackageSymbol(file, name)], LastDot(name);
    PackageStep(s, file, name);
    PartsStep(s, s', name);
    if name !in s && d >= 0 {
      PackageMeans(s', file, name[..d]);
      forall q | IsLongestKnown(s', name[..d], q)
        ensures q in s && s'[q] == s[q]
      {
        assert |q| <= d;
      }
      hide IsLongestKnown;
    }
  }

  /** The parts that are new are declared, each as a package of the file; nothing else changes. */
  lemma {:induction false} PackageDeclares(s: Symbols, file: string, name: string)
    ensures forall k :: k in WithPackage(s, file, name) <==> k in s || IsNewPackage(s, name, k)
    ensures forall k | k in WithPackage(s, file, name) ::
              WithPackage(s, file, name)[k] == if k in s then s[k] else Symbol(Package, file, k, [], "")
    decreases |name|
  {
    hide LastDot, IsName, LastPart, PackageGood, IsNewPackage, IsLongestKnown, WithPackage;
    var s', d := s[name := PackageSymbol(file, name)], LastDot(name);
    PackageStep(s, file, name);
    PartsStep(s, s', name);
    if name !in s && d >= 0 {
      PackageDeclares(s', file, name[..d]);
    }
  }

  lemma KnownPackage(s: Symbols, name: string)
    requires name in s
    ensures forall q :: !IsNewPackage(s, name, q)
    ensures forall q :: IsLongestKnown(s, name, q) <==> q == name
  {
  }

  lemma SinglePart(s: Symbols, name: string)
    requires name !in s && forall q :: IsAtOrAbove(q, name) <==> q == name
    ensures forall q :: IsNewPackage(s, name, q) <==> q == name
    ensures forall q :: !IsLongestKnown(s, name, q)
  {
  }

  lemma ShorterParts(s: Symbols, s': Symbols, name: string, d: nat)
    requires name !in s && d < |name| && name[d] == '.' && forall k :: k in s' <==> k in s || k == name
    requires forall q :: IsAtOrAbove(q, name) <==> q == name || IsAtOrAbove(q, name[..d])
    ensures forall q :: IsNewPackage(s, name, q) <==> q == name || IsNewPackage(s', name[..d], q)
    ensures forall q :: IsLongestKnown(s, name, q) <==> IsLongestKnown(s', name[..d], q)
  {
  }

  // ----- references -----

  /** The message an extension extends exists and has a range for the number. */
  predicate ExtendeeFine(find: Finder, x: FieldProto, scope: string) {
    x.extendee.None? ||
    var s := Lookup(find, x.extendee.value, scope, false);
    s.Some? && s.value.kind == Message && exists r | r in s.value.ranges :: Covers(r, x.number)
  }

  /**
   The type named is a message or an enum, and the kind of the field agrees with that if it is given. A message
   has no default; that of an enum is one of its values. Without a type name the kind is neither of the two.
   */
  predicate TypeFine(find: Finder, x: FieldProto, scope: string) {
    match x.typeName
    case None => x.fieldType in {Unset, Primitive}
    case Some(name) =>
      var t := Lookup(find, name, scope, true);
      t.Some? &&
      match t.value.kind
      case Message => x.fieldType in {Unset, MessageType} && x.defaultValue.None?
      case Enum => x.fieldType in {Unset, EnumType} && DefaultFine(find, x, t.value.fullName)
      case _ => false
  }

  predicate DefaultFine(find: Finder, x: FieldProto, enumName: string) {
    x.defaultValue.None? ||
    var v := Lookup(find, x.defaultValue.value, enumName, false);
    v.Some? && v.value.kind == EnumValue && v.value.enumType == enumName
  }

  predicate LeadsToMessage(find: Finder, name: string, scope: string) {
    var s := Lookup(find, name, scope, false);
    s.Some? && s.value.kind == Message
  }

  predicate ReferenceFine(find: Finder, l: Link) {
    match l
    case FieldLink(x, full, _, _) => ExtendeeFine(find, x, full) && TypeFine(find, x, full)
    case MethodLink(y, full) => LeadsToMessage(find, y.inputType, full) && LeadsToMessage(find, y.outputType, full)
  }

  /** A reference resolves well if and only if it is fine. */
  lemma ReferenceMeans(find: Finder, l: Link)
    ensures ResolvesWell(find, l) <==> ReferenceFine(find, l)
  {
    hide Lookup;
    if l.FieldLink? && l.field.extendee.Some? {
      var s := Lookup(find, l.field.extendee.value, l.fullName, false);
      if s.Some? {
        RangesCover(s.value.ranges, l.field.number);
      }
    }
  }

  lemma RangesCover(rs: seq<Range>, n: int)
    ensures IsExtensionNumber(rs, n) <==> exists r | r in rs :: Covers(r, n)
  {
    if IsExtensionNumber(rs, n) {
      var i :| 0 <= i < |rs| && RangeHolds(rs[i], n);
      assert rs[i] in rs && Covers(rs[i], n);
    }
    if r :| r in rs && Covers(r, n) {
      var i :| 0 <= i < |rs| && rs[i] == r;
      assert RangeHolds(rs[i], n);
    }
  }

  /** The message whose number a field or an extension takes. */
  ghost function MessageOf(find: Finder, l: Link): string
    requires l.FieldLink?
  {
    if l.field.extendee.None? then l.parent
    else
      match Lookup(find, l.field.extendee.value, l.fullName, false)
      case None => ""
      case Some(s) => s.fullName
  }

  /** When all is fine, what a reference claims is its number in that message. */
  lemma ClaimMeans(find: Finder, l: Link)
    requires ReferenceFine(find, l)
    ensures Claim(find, l) == if l.FieldLink? then Some((MessageOf(find, l), l.field.number)) else None
  {
    hide Lookup, IsExtensionNumber;
    ReferenceMeans(find, l);
  }

  /** All references are fine, and no two have the same number of the same message. */
  ghost predicate ReferencesFine(find: Finder, ls: seq<Link>) {
    && (forall l | l in ls :: ReferenceFine(find, l))
    && forall i, j | 0 <= i < j < |ls| && ls[i].FieldLink? && ls[j].FieldLink? ::
         ls[i].field.number == ls[j].field.number ==> MessageOf(find, ls[i]) != MessageOf(find, ls[j])
  }

  lemma ReferencesMean(find: Finder, e: set<(string, int)>, ls: seq<Link>)
    ensures LinkAll(find, Linked(map[], e, true), ls).good <==> ReferencesFine(find, ls)
  {
    hide LinkAll, ResolvesWell, Claim, ReferenceFine, MessageOf;
    LinkingGoodMeans(find, e, ls);
    forall i | 0 <= i < |ls|
      ensures ResolvesWell(find, ls[i]) <==> ReferenceFine(find, ls[i])
      ensures ReferenceFine(find, ls[i]) ==>
                Claim(find, ls[i])
                  == if ls[i].FieldLink? then Some((MessageOf(find, ls[i]), ls[i].field.number)) else None
    {
      ReferenceMeans(find, ls[i]);
      if ReferenceFine(find, ls[i]) {
        ClaimMeans(find, ls[i]);
      }
    }
  }

  // ----- all together -----

  ghost predicate ImportsFine(c: Core, f: FileProto) {
    && (forall d | d in f.dependencies :: d == f.name || d in c.files)
    && (forall i, j | 0 <= i < j < |f.dependencies| :: f.dependencies[i] != f.dependencies[j])
    && (forall k | k in f.publicDependencies + f.weakDependencies :: 0 <= k <= |f.dependencies| - 1)
  }

  lemma ImportsMean(c: Core, f: FileProto)
    ensures ImportsGood(FilesWith(c, f), f) <==> ImportsFine(c, f)
  {
    var ks, n := f.publicDependencies + f.weakDependencies, |f.publicDependencies|;
    if ImportsGood(FilesWith(c, f), f) {
      forall k | k in ks
        ensures 0 <= k <= |f.dependencies| - 1
      {
        var i :| 0 <= i < |ks| && ks[i] == k;
        assert ks[i] == if i < n then f.publicDependencies[i] else f.weakDependencies[i - n];
      }
    }
    if ImportsFine(c, f) {
      assert forall i | 0 <= i < n :: f.publicDependencies[i] in ks;
      assert forall i | 0 <= i < |f.weakDependencies| :: f.weakDependencies[i] in ks;
      assert forall i | 0 <= i < |f.dependencies| :: f.dependencies[i] in f.dependencies;
    }
  }

  ghost predicate PackageFine(s: Symbols, name: string) {
    name != "" ==>
      && (forall q | IsNewPackage(s, name, q) :: IsName(LastPart(q)))
      && (forall q | IsLongestKnown(s, name, q) :: s[q].kind == Package)
  }

  /** No two elements of a file have one full name, and none has that of a known symbol or of its own package. */
  ghost predicate FullNamesFine(s: Symbols, f: FileProto) {
    var ds := FileDecls(f);
    && (forall d | d in ds ::
          d.symbol.fullName !in s && !(f.package != "" && IsNewPackage(s, f.package, d.symbol.fullName)))
    && (forall i, j | 0 <= i < j < |ds| :: ds[i].symbol.fullName != ds[j].symbol.fullName)
  }

  ghost predicate ElementsFine(f: FileProto) {
    && MessagesFine(f.package, f.messages)
    && (forall e | e in f.enums :: EnumFine(e))
    && (forall s | s in f.services :: ServiceFine(s))
    && (forall x | x in f.extensions :: FieldFine(x, true))
  }

  lemma ElementsMean(f: FileProto)
    ensures FileGood(f) && AllRangesBounded(f.messages) <==> ElementsFine(f)
  {
    hide FieldFine, EnumFine, ServiceFine, EnumsGood, ServicesGood, FieldsGood;
    MessagesMean(f.package, f.messages);
    EnumsMean(f.enums);
    ServicesMean(f.services);
    FieldsMean(f.extensions, true);
  }

  lemma FullNamesMean(s: Symbols, f: FileProto)
    ensures
      var p := if f.package == "" then s else WithPackage(s, f.name, f.package);
      !Clash(p, FileDecls(f)) <==> FullNamesFine(s, f)
  {
    var p := if f.package == "" then s else WithPackage(s, f.name, f.package);
    var ds := FileDecls(f);
    PackageDeclares(s, f.name, f.package);
    ClashMeansTaken(p, ds);
    NewNames(s, f.package, p, ds);
    hide FileDecls, IsNewPackage, WithPackage, Clash;
  }

  lemma NewNames(s: Symbols, package: string, p: Symbols, ds: seq<Decl>)
    requires forall k :: k in p <==> k in s || (package != "" && IsNewPackage(s, package, k))
    ensures (forall i | 0 <= i < |ds| :: ds[i].symbol.fullName !in p) <==>
            forall d | d in ds :: d.symbol.fullName !in s &&
                                  !(package != "" && IsNewPackage(s, package, d.symbol.fullName))
  {
    hide IsNewPackage;
    assert forall i | 0 <= i < |ds| :: ds[i] in ds;
  }

  /**
   A file is accepted if and only if it is new, its imports are there, its package and its elements are named and
   numbered as they must be, no full name is taken, every reference resolves, and no number of a message is used
   twice.
   */
  lemma AcceptsMeans(c: Core, enforced: bool, f: FileProto)
    ensures Accepts(c, enforced, f) <==>
            && f.name !in c.files
            && ImportsFine(c, f)
            && PackageFine(c.symbols, f.package)
            && ElementsFine(f)
            && FullNamesFine(c.symbols, f)
            && ReferencesFine(LinkFinder(c, enforced, f), FileLinks(f))
            && !f.otherErrors
  {
    hide LinkAll, LinkFinder, FileLinks, FileGood, AllRangesBounded, ElementsFine, FullNamesFine, ReferencesFine;
    hide ImportsGood, ImportsFine, FileDecls, Clash, WithPackage;
    ImportsMean(c, f);
    PackageMeans(c.symbols, f.name, f.package);
    ElementsMean(f);
    FullNamesMean(c.symbols, f);
    ReferencesMean(LinkFinder(c, enforced, f), c.extensions, FileLinks(f));
    hide PackageGood, IsNewPackage, IsLongestKnown;
  }

  // ----- the tables afterwards -----

  /**
   The symbols after a file without errors in its declarations: those from before, a package for every new part
   of its package name, and one for each of its elements under its full name.
   */
  lemma SymbolsAfter(s: Symbols, f: FileProto)
    requires FileSymbolsGood(s, f)
    ensures forall k :: k in FileSymbols(s, f) <==>
              || k in s
              || (f.package != "" && IsNewPackage(s, f.package, k))
              || exists d | d in FileDecls(f) :: d.symbol.fullName == k
    ensures forall k | k in s :: FileSymbols(s, f)[k] == s[k]
    ensures forall k | f.package != "" && IsNewPackage(s, f.package, k) ::
              FileSymbols(s, f)[k] == Symbol(Package, f.name, k, [], "")
    ensures forall d | d in FileDecls(f) :: FileSymbols(s, f)[d.symbol.fullName] == d.symbol
  {
    hide FileDecls, IsNewPackage, FileGood, Clash, DeclareAll, PackageGood, WithPackage;
    var p := if f.package == "" then s else WithPackage(s, f.name, f.package);
    var ds := FileDecls(f);
    PackageDeclares(s, f.name, f.package);
    DeclareAllKeys(p, ds);
    DeclaredAsGiven(p, ds);
    FileSymbolsGrow(s, f);
    assert forall i | 0 <= i < |ds| :: ds[i] in ds;
    forall k | IsNewPackage(s, f.package, k)
      ensures k !in s
    {
      NewIsNew(s, f.package, k);
    }
  }

  lemma NewIsNew(s: Symbols, name: string, q: string)
    requires IsNewPackage(s, name, q)
    ensures q !in s
  {
  }

  /** The extension numbers added are those of the file's extensions, each of the message it extends. */
  lemma {:induction false} ExtensionsAfter(find: Finder, s: Linked, ls: seq<Link>)
    requires forall l | l in ls :: ReferenceFine(find, l)
    ensures forall key :: key in LinkAll(find, s, ls).extensions <==>
              || key in s.extensions
              || exists l | l in ls :: l.FieldLink? && l.isExtension && key == (MessageOf(find, l), l.field.number)
    decreases |ls|
  {
    if ls != [] {
      hide LinkAll, ReferenceFine, MessageOf, ResolveField, MethodGood;
      var most, last := ls[..|ls| - 1], ls[|ls| - 1];
      assert ls == most + [last];
      ExtensionsAfter(find, s, most);
      LinkAllAppend(find, s, most, [last]);
      LinkOneAlone(find, LinkAll(find, s, most), last);
      ClaimMeans(find, last);
    }
  }
}
