/** In a file of the tables every number of a message has at most one meaning. */
module NumberMeanings {
  import opened Acceptance
  import opened Declarations
  import opened Descriptors
  import opened Linking
  import opened Names
  import opened NumberClaims
  import opened PoolTables
  import opened Wrappers

  /** `m`, with full name `full`, is one of `ms` or nested in one of them. */
  ghost predicate DeclaresMessage(scope: string, ms: seq<MessageProto>, full: string, m: MessageProto)
    decreases ms
  {
    exists i | 0 <= i < |ms| ::
      || (m == ms[i] && full == Join(scope, m.name))
      || DeclaresMessage(Join(scope, ms[i].name), ms[i].nested, full, m)
  }

  /** Some declaration of `ds` puts the symbol of `m` under `full`. */
  ghost predicate HasMessageDecl(ds: seq<Decl>, file: string, full: string, m: MessageProto) {
    exists d | d in ds :: d.symbol == Symbol(Message, file, full, m.ranges, "")
  }

  predicate StretchAt<T(==)>(part: seq<T>, whole: seq<T>, at: nat) {
    at + |part| <= |whole| && whole[at..at + |part|] == part
  }

  /** `part` is a stretch of `whole`. */
  ghost predicate Within<T>(part: seq<T>, whole: seq<T>) {
    exists at: nat :: StretchAt(part, whole, at)
  }

  lemma WithinSum<T>(a: seq<T>, part: seq<T>, b: seq<T>)
    ensures Within(part, a + part + b)
  {
    assert StretchAt(part, a + part + b, |a|);
  }

  lemma WithinTransitive<T>(a: seq<T>, b: seq<T>, c: seq<T>)
    requires Within(a, b) && Within(b, c)
    ensures Within(a, c)
  {
    var i: nat :| StretchAt(a, b, i);
    var j: nat :| StretchAt(b, c, j);
    forall k | 0 <= k < |a|
      ensures c[j + i + k] == a[k]
    {
      assert b[i..i + |a|][k] == b[i + k] && c[j..j + |b|][i + k] == c[j + (i + k)];
    }
    assert c[j + i..j + i + |a|] == a;
    assert StretchAt(a, c, j + i);
  }

  lemma {:induction false} FieldLinksHold(scope: string, parent: string, fs: seq<FieldProto>, isExtension: bool)
    ensures |FieldLinks(scope, parent, fs, isExtension)| == |fs|
    ensures forall i | 0 <= i < |fs| ::
              FieldLinks(scope, parent, fs, isExtension)[i]
                == FieldLink(fs[i], Join(scope, fs[i].name), parent, isExtension)
    decreases |fs|
  {
    if fs != [] {
      FieldLinksHold(scope, parent, fs[..|fs| - 1], isExtension);
    }
  }

  lemma {:induction false} MessageWithinMessages(file: string, scope: string, ms: seq<MessageProto>, i: nat)
    requires i < |ms|
    ensures forall d | d in MessageDecls(file, scope, ms[i]) :: d in MessagesDecls(file, scope, ms)
    ensures Within(MessageLinks(scope, ms[i]), MessagesLinks(scope, ms))
    decreases |ms|
  {
    hide MessageDecls, MessageLinks;
    var init, last := ms[..|ms| - 1], ms[|ms| - 1];
    if i < |ms| - 1 {
      MessageWithinMessages(file, scope, init, i);
      WithinSum([], MessagesLinks(scope, init), MessageLinks(scope, last));
      assert [] + MessagesLinks(scope, init) + MessageLinks(scope, last) == MessagesLinks(scope, ms);
      WithinTransitive(MessageLinks(scope, ms[i]), MessagesLinks(scope, init), MessagesLinks(scope, ms));
    } else {
      WithinSum(MessagesLinks(scope, init), MessageLinks(scope, last), []);
      assert MessagesLinks(scope, init) + MessageLinks(scope, last) + [] == MessagesLinks(scope, ms);
    }
  }

  /** The references of a message contain those of its fields, and those of its nested messages. */
  lemma WithinMessage(scope: string, m: MessageProto)
    ensures var inner := Join(scope, m.name);
            && Within(FieldLinks(inner, inner, m.fields, false), MessageLinks(scope, m))
            && Within(MessagesLinks(inner, m.nested), MessageLinks(scope, m))
  {
    var inner := Join(scope, m.name);
    var a, b, c := MessagesLinks(inner, m.nested), FieldLinks(inner, inner, m.fields, false),
      FieldLinks(inner, "", m.extensions, true);
    WithinSum(a, b, c);
    WithinSum([], a, b + c);
    assert [] + a + (b + c) == a + b + c;
  }

  lemma {:induction false} MessageIsDeclared(file: string, scope: string, ms: seq<MessageProto>, full: string,
                                             m: MessageProto)
    requires DeclaresMessage(scope, ms, full, m)
    ensures HasMessageDecl(MessagesDecls(file, scope, ms), file, full, m)
    ensures Within(FieldLinks(full, full, m.fields, false), MessagesLinks(scope, ms))
    decreases ms
  {
    hide MessageLinks, MessagesLinks, FieldLinks;
    var i :| 0 <= i < |ms| && ((m == ms[i] && full == Join(scope, m.name)) ||
                               DeclaresMessage(Join(scope, ms[i].name), ms[i].nested, full, m));
    var inner := Join(scope, ms[i].name);
    MessageWithinMessages(file, scope, ms, i);
    WithinMessage(scope, ms[i]);
    if m == ms[i] && full == Join(scope, m.name) {
      assert Decl(scope, m.name, MessageSymbol(file, scope, m)) in MessageDecls(file, scope, m);
    } else {
      MessageIsDeclared(file, inner, ms[i].nested, full, m);
      assert forall d | d in MessagesDecls(file, inner, ms[i].nested) :: d in MessageDecls(file, scope, ms[i]);
      WithinTransitive(FieldLinks(full, full, m.fields, false), MessagesLinks(inner, ms[i].nested),
                       MessageLinks(scope, ms[i]));
    }
    WithinTransitive(FieldLinks(full, full, m.fields, false), MessageLinks(scope, ms[i]), MessagesLinks(scope, ms));
  }

  lemma {:induction false} NestedGood(scope: string, ms: seq<MessageProto>, full: string, m: MessageProto)
    requires DeclaresMessage(scope, ms, full, m) && MessagesGood(ms) && AllRangesBounded(ms)
    ensures MessageGood(m) && RangesBounded(m)
    decreases ms
  {
    var i :| 0 <= i < |ms| && ((m == ms[i] && full == Join(scope, m.name)) ||
                               DeclaresMessage(Join(scope, ms[i].name), ms[i].nested, full, m));
    assert MessageGood(ms[i]) && RangesBounded(ms[i]);
    if !(m == ms[i] && full == Join(scope, m.name)) {
      NestedGood(Join(scope, ms[i].name), ms[i].nested, full, m);
    }
  }

  // ----- what a number can mean -----

  /** The fields of `m` have different numbers, in bounds, outside the reserved block and outside every range. */
  ghost predicate FieldNumbersFine(m: MessageProto) {
    && (forall i, j | 0 <= i < j < |m.fields| :: m.fields[i].number != m.fields[j].number)
    && (forall i | 0 <= i < |m.fields| ::
          && 0 < m.fields[i].number <= MAX_NUMBER
          && !(FIRST_RESERVED_NUMBER <= m.fields[i].number <= LAST_RESERVED_NUMBER))
    && (forall i, j | 0 <= i < |m.fields| && 0 <= j < |m.ranges| :: !RangeHolds(m.ranges[j], m.fields[i].number))
  }

  /** The ranges of `m` are not empty, are in bounds, and share no number. */
  ghost predicate RangesFine(m: MessageProto) {
    && (forall j | 0 <= j < |m.ranges| ::
          0 < m.ranges[j].start && RangeHolds(m.ranges[j], m.ranges[j].start) && m.ranges[j].end - 1 <= MaxExtension(m))
    && (forall j, k, n | 0 <= j < k < |m.ranges| && RangeHolds(m.ranges[j], n) :: !RangeHolds(m.ranges[k], n))
  }

  /** Reference `i` is an extension of message `full` with number `n`. */
  predicate Extends(ls: seq<Link>, claims: Claims, i: nat, full: string, n: int)
    requires i < |ls| == |claims|
  {
    ls[i].FieldLink? && ls[i].isExtension && claims[i] == Some((full, n))
  }

  /** Number `n` is in a range of `m`, is no field's, and is no other extension's of that message. */
  ghost predicate OnlyMeaning(ls: seq<Link>, claims: Claims, i: nat, full: string, m: MessageProto, n: int)
    requires |ls| == |claims|
  {
    && (exists j | 0 <= j < |m.ranges| :: RangeHolds(m.ranges[j], n))
    && (forall k | 0 <= k < |m.fields| :: m.fields[k].number != n)
    && (forall k | 0 <= k < |ls| && k != i :: !Extends(ls, claims, k, full, n))
  }

  /**
   The numbers of every message of a settled file, however deeply nested, mean one thing each: its
   fields and its extension ranges are as they should be, and whatever messages the extensions of the
   file belong to, no extension reuses a number of a field or of another extension of the same message,
   and its number lies in one of the message's ranges.
   */
  lemma {:induction false} NumbersMeanOneThing(c: Core, f: FileProto, full: string, m: MessageProto)
    requires GoodCore(c) && f.name in c.files && c.files[f.name] == f && Settled(c.symbols, f)
    requires DeclaresMessage(f.package, f.messages, full, m)
    ensures FieldNumbersFine(m) && RangesFine(m)
    ensures forall claims: Claims, i, n ::
              ClaimsFit(c.symbols, FileLinks(f), claims) && AllDiffer(claims) &&
              0 <= i < |claims| && Extends(FileLinks(f), claims, i, full, n) ==>
                OnlyMeaning(FileLinks(f), claims, i, full, m, n)
  {
    hide FileLinks, DeclaresMessage, OnlyMeaning, FieldNumbersFine, RangesFine;
    CommittedFile(c, f);
    RangesAreFine(f, full, m);
    var some: Claims :| ClaimsFit(c.symbols, FileLinks(f), some) && AllDiffer(some);
    FieldsAreFine(c.symbols, f, full, m, some);
    forall claims: Claims, i, n |
        ClaimsFit(c.symbols, FileLinks(f), claims) && AllDiffer(claims) &&
        0 <= i < |claims| && Extends(FileLinks(f), claims, i, full, n)
      ensures OnlyMeaning(FileLinks(f), claims, i, full, m, n)
    {
      ExtensionMeansOneThing(c.symbols, f, full, m, claims, i, n);
    }
  }

  /** A file of a good table has passed the checks that need no other file. */
  lemma CommittedFile(c: Core, f: FileProto)
    requires GoodCore(c) && f.name in c.files && c.files[f.name] == f
    ensures SymbolsNamed(c.symbols) && FileGood(f) && AllRangesBounded(f.messages)
  {
  }

  lemma {:induction false} ExtensionMeansOneThing(symbols: Symbols, f: FileProto, full: string, m: MessageProto,
                                                  claims: Claims, i: nat, n: int)
    requires SymbolsNamed(symbols) && FileGood(f) && AllRangesBounded(f.messages)
    requires AllDeclared(symbols, FileDecls(f)) && DeclaresMessage(f.package, f.messages, full, m)
    requires ClaimsFit(symbols, FileLinks(f), claims) && AllDiffer(claims)
    requires i < |claims| && Extends(FileLinks(f), claims, i, full, n)
    ensures OnlyMeaning(FileLinks(f), claims, i, full, m, n)
  {
    hide FileLinks, MessageGood, FileDecls;
    var ls := FileLinks(f);
    NestedGood(f.package, f.messages, full, m);
    var at := FieldsAt(f, full, m);
    ExtensionApart(symbols, ls, full, m, claims, at, i, n);
    ExtensionsHaveExtendees(f);
    assert ls[i] in ls && ClaimFits(symbols, ls[i], claims[i]);
    OwnMessage(symbols, f, full, m);
  }

  /** The fields of `m`, in order, are the references from `at` on. */
  predicate FieldsFrom(ls: seq<Link>, full: string, m: MessageProto, at: nat) {
    && at + |m.fields| <= |ls|
    && forall i | 0 <= i < |m.fields| :: ls[at + i] == FieldLink(m.fields[i], Join(full, m.fields[i].name), full, false)
  }

  /** A field of the message claims its own number of the message. */
  lemma FieldClaims(symbols: Symbols, ls: seq<Link>, full: string, m: MessageProto, claims: Claims, at: nat, i: nat)
    requires FieldsFrom(ls, full, m, at) && ClaimsFit(symbols, ls, claims)
    requires i < |m.fields| && FieldGood(m.fields[i], false)
    ensures claims[at + i] == Some((full, m.fields[i].number))
  {
  }

  /** An extension's number is no field's, and no other extension's of the same message. */
  lemma ExtensionApart(symbols: Symbols, ls: seq<Link>, full: string, m: MessageProto, claims: Claims, at: nat,
                       i: nat, n: int)
    requires FieldsFrom(ls, full, m, at) && ClaimsFit(symbols, ls, claims) && AllDiffer(claims)
    requires FieldsGood(m.fields, false) && i < |ls| && Extends(ls, claims, i, full, n)
    ensures forall k | 0 <= k < |m.fields| :: m.fields[k].number != n
    ensures forall k | 0 <= k < |ls| && k != i :: !Extends(ls, claims, k, full, n)
  {
  }

  lemma RangesAreFine(f: FileProto, full: string, m: MessageProto)
    requires FileGood(f) && AllRangesBounded(f.messages) && DeclaresMessage(f.package, f.messages, full, m)
    ensures RangesFine(m)
  {
    NestedGood(f.package, f.messages, full, m);
    forall j | 0 <= j < |m.ranges|
      ensures 0 < m.ranges[j].start && RangeHolds(m.ranges[j], m.ranges[j].start)
    {
      assert RangeGood(m.ranges[j]);
    }
    forall j, k, n | 0 <= j < k < |m.ranges| && RangeHolds(m.ranges[j], n)
      ensures !RangeHolds(m.ranges[k], n)
    {
      assert !Overlap(m.ranges[j], m.ranges[k]);
    }
  }

  lemma MessagesWithinFile(f: FileProto)
    ensures Within(MessagesLinks(f.package, f.messages), FileLinks(f))
    ensures forall d | d in MessagesDecls(f.name, f.package, f.messages) :: d in FileDecls(f)
  {
    var a, b, c := MessagesLinks(f.package, f.messages), FieldLinks(f.package, "", f.extensions, true),
      ServicesLinks(f.package, f.services);
    WithinSum([], a, b + c);
    assert [] + a + (b + c) == a + b + c;
  }

  lemma FileHasMessage(f: FileProto, full: string, m: MessageProto)
    requires DeclaresMessage(f.package, f.messages, full, m)
    ensures HasMessageDecl(FileDecls(f), f.name, full, m)
    ensures Within(FieldLinks(full, full, m.fields, false), FileLinks(f))
  {
    hide FieldLinks, MessagesLinks, MessagesDecls, FileLinks, FileDecls, Within, DeclaresMessage;
    MessagesWithinFile(f);
    MessageIsDeclared(f.name, f.package, f.messages, full, m);
    WithinTransitive(FieldLinks(full, full, m.fields, false), MessagesLinks(f.package, f.messages), FileLinks(f));
  }

  /** The references of the message's fields start somewhere in the file's, in order. */
  lemma FieldsAt(f: FileProto, full: string, m: MessageProto) returns (at: nat)
    requires DeclaresMessage(f.package, f.messages, full, m)
    ensures FieldsFrom(FileLinks(f), full, m, at)
  {
    hide FileLinks, DeclaresMessage, FieldLinks;
    FileHasMessage(f, full, m);
    FieldLinksHold(full, full, m.fields, false);
    at :| StretchAt(FieldLinks(full, full, m.fields, false), FileLinks(f), at);
    StretchIsFields(FieldLinks(full, full, m.fields, false), FileLinks(f), full, m, at);
  }

  lemma StretchIsFields(part: seq<Link>, ls: seq<Link>, full: string, m: MessageProto, at: nat)
    requires |part| == |m.fields| && StretchAt(part, ls, at)
    requires forall i | 0 <= i < |part| :: part[i] == FieldLink(m.fields[i], Join(full, m.fields[i].name), full, false)
    ensures FieldsFrom(ls, full, m, at)
  {
  }

  lemma FieldsAreFine(symbols: Symbols, f: FileProto, full: string, m: MessageProto, claims: Claims)
    requires FileGood(f) && AllRangesBounded(f.messages) && DeclaresMessage(f.package, f.messages, full, m)
    requires ClaimsFit(symbols, FileLinks(f), claims) && AllDiffer(claims)
    ensures FieldNumbersFine(m)
  {
    hide FileLinks, DeclaresMessage;
    NestedGood(f.package, f.messages, full, m);
    var at := FieldsAt(f, full, m);
    forall i, j | 0 <= i < j < |m.fields|
      ensures m.fields[i].number != m.fields[j].number
    {
      FieldClaims(symbols, FileLinks(f), full, m, claims, at, i);
      FieldClaims(symbols, FileLinks(f), full, m, claims, at, j);
      assert claims[at + i] != claims[at + j];
    }
    forall i | 0 <= i < |m.fields|
      ensures FieldGood(m.fields[i], false)
    {
    }
  }

  /** Every extension among the references names the message it extends. */
  ghost predicate Extended(ls: seq<Link>) {
    forall l | l in ls :: l.FieldLink? && l.isExtension ==> l.field.extendee.Some?
  }

  lemma {:induction false} FieldLinksExtended(scope: string, parent: string, fs: seq<FieldProto>, isExtension: bool)
    requires FieldsGood(fs, isExtension)
    ensures Extended(FieldLinks(scope, parent, fs, isExtension))
    decreases |fs|
  {
    if fs != [] {
      assert FieldGood(fs[|fs| - 1], isExtension);
      FieldLinksExtended(scope, parent, fs[..|fs| - 1], isExtension);
    }
  }

  lemma {:induction false} MessagesLinksExtended(scope: string, ms: seq<MessageProto>)
    requires MessagesGood(ms)
    ensures Extended(MessagesLinks(scope, ms))
    decreases ms
  {
    if ms != [] {
      var m := ms[|ms| - 1];
      var inner := Join(scope, m.name);
      assert MessageGood(m);
      MessagesLinksExtended(scope, ms[..|ms| - 1]);
      MessagesLinksExtended(inner, m.nested);
      FieldLinksExtended(inner, inner, m.fields, false);
      FieldLinksExtended(inner, "", m.extensions, true);
    }
  }

  lemma {:induction false} MethodLinksPlain(service: string, ms: seq<MethodProto>)
    ensures forall l | l in MethodLinks(service, ms) :: l.MethodLink?
    decreases |ms|
  {
    if ms != [] {
      MethodLinksPlain(service, ms[..|ms| - 1]);
    }
  }

  lemma {:induction false} ServicesLinksPlain(scope: string, ss: seq<ServiceProto>)
    ensures forall l | l in ServicesLinks(scope, ss) :: l.MethodLink?
    decreases |ss|
  {
    if ss != [] {
      ServicesLinksPlain(scope, ss[..|ss| - 1]);
      MethodLinksPlain(Join(scope, ss[|ss| - 1].name), ss[|ss| - 1].methods);
    }
  }

  lemma ExtensionsHaveExtendees(f: FileProto)
    requires FileGood(f)
    ensures Extended(FileLinks(f))
  {
    MessagesLinksExtended(f.package, f.messages);
    FieldLinksExtended(f.package, "", f.extensions, true);
    ServicesLinksPlain(f.package, f.services);
  }

  /** The message of a settled file stands in the table with its own ranges. */
  lemma OwnMessage(symbols: Symbols, f: FileProto, full: string, m: MessageProto)
    requires AllDeclared(symbols, FileDecls(f)) && DeclaresMessage(f.package, f.messages, full, m)
    ensures full in symbols && symbols[full] == Symbol(Message, f.name, full, m.ranges, "")
  {
    hide FileDecls, DeclaresMessage;
    FileHasMessage(f, full, m);
    var d :| d in FileDecls(f) && d.symbol == Symbol(Message, f.name, full, m.ranges, "");
    var k :| 0 <= k < |FileDecls(f)| && FileDecls(f)[k] == d;
  }
}
