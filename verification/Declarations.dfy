/**
 What building a file declares: the symbols, in the order the builder adds them, and the checks it
 makes on names and numbers on the way. Then what an error-free declaration means for the table.
 */
module Declarations {
  import opened Descriptors
  import opened Names
  import opened Wrappers

  type Symbols = map<string, Symbol>

  const MAX_NUMBER := 0x1FFF_FFFF          // (1 << 29) - 1
  const FIRST_RESERVED_NUMBER := 19000
  const LAST_RESERVED_NUMBER := 19999
  const INT32_MAX := 0x7FFF_FFFF

  /** A symbol and the scope it is declared in; its key in the table is its full name. */
  datatype Decl = Decl(scope: string, name: string, symbol: Symbol)

  // ----- the symbols a file declares -----

  function SymbolIn(kind: SymbolKind, file: string, scope: string, name: string): Symbol {
    Symbol(kind, file, Join(scope, name), [], "")
  }

  function FieldDecl(file: string, scope: string, f: FieldProto): Decl {
    Decl(scope, f.name, SymbolIn(Field, file, scope, f.name))
  }

  function FieldDecls(file: string, scope: string, fs: seq<FieldProto>): seq<Decl> {
    if fs == [] then []
    else FieldDecls(file, scope, fs[..|fs| - 1]) + [FieldDecl(file, scope, fs[|fs| - 1])]
  }

  /** An enum value is a sibling of its type, not a child of it. */
  function ValueDecl(file: string, scope: string, e: EnumProto, value: string): Decl {
    Decl(scope, value, SymbolIn(EnumValue, file, scope, value).(enumType := Join(scope, e.name)))
  }

  function ValueDecls(file: string, scope: string, e: EnumProto, values: seq<string>): seq<Decl> {
    if values == [] then []
    else ValueDecls(file, scope, e, values[..|values| - 1]) + [ValueDecl(file, scope, e, values[|values| - 1])]
  }

  function EnumDecls(file: string, scope: string, e: EnumProto): seq<Decl> {
    ValueDecls(file, scope, e, e.values) + [Decl(scope, e.name, SymbolIn(Enum, file, scope, e.name))]
  }

  function EnumsDecls(file: string, scope: string, es: seq<EnumProto>): seq<Decl> {
    if es == [] then []
    else EnumsDecls(file, scope, es[..|es| - 1]) + EnumDecls(file, scope, es[|es| - 1])
  }

  /** A method's full name is built with an explicit dot, whatever the name of its service. */
  function MethodDecl(file: string, service: string, m: MethodProto): Decl {
    Decl(service, m.name, Symbol(Method, file, service + "." + m.name, [], ""))
  }

  function MethodDecls(file: string, service: string, ms: seq<MethodProto>): seq<Decl> {
    if ms == [] then []
    else MethodDecls(file, service, ms[..|ms| - 1]) + [MethodDecl(file, service, ms[|ms| - 1])]
  }

  function ServiceDecls(file: string, scope: string, s: ServiceProto): seq<Decl> {
    MethodDecls(file, Join(scope, s.name), s.methods) + [Decl(scope, s.name, SymbolIn(Service, file, scope, s.name))]
  }

  function ServicesDecls(file: string, scope: string, ss: seq<ServiceProto>): seq<Decl> {
    if ss == [] then []
    else ServicesDecls(file, scope, ss[..|ss| - 1]) + ServiceDecls(file, scope, ss[|ss| - 1])
  }

  function MessageSymbol(file: string, scope: string, m: MessageProto): Symbol {
    SymbolIn(Message, file, scope, m.name).(ranges := m.ranges)
  }

  /** A message is declared after everything inside it. */
  function MessageDecls(file: string, scope: string, m: MessageProto): seq<Decl>
    decreases m, 1
  {
    var inner := Join(scope, m.name);
    FieldDecls(file, inner, m.fields) + MessagesDecls(file, inner, m.nested) +
    EnumsDecls(file, inner, m.enums) + FieldDecls(file, inner, m.extensions) +
    [Decl(scope, m.name, MessageSymbol(file, scope, m))]
  }

  function MessagesDecls(file: string, scope: string, ms: seq<MessageProto>): seq<Decl>
    decreases ms, 0
  {
    if ms == [] then []
    else MessagesDecls(file, scope, ms[..|ms| - 1]) + MessageDecls(file, scope, ms[|ms| - 1])
  }

  function FileDecls(f: FileProto): seq<Decl> {
    MessagesDecls(f.name, f.package, f.messages) + EnumsDecls(f.name, f.package, f.enums) +
    ServicesDecls(f.name, f.package, f.services) + FieldDecls(f.name, f.package, f.extensions)
  }

  // ----- the checks on names and numbers -----

  predicate RangeHolds(r: Range, number: int) {
    r.start <= number < r.end
  }

  predicate FieldGood(f: FieldProto, isExtension: bool) {
    && IsIdentifier(f.name)
    && f.number > 0
    && (isExtension || f.number <= MAX_NUMBER)
    && !(FIRST_RESERVED_NUMBER <= f.number <= LAST_RESERVED_NUMBER)
    && isExtension == f.extendee.Some?
  }

  predicate FieldsGood(fs: seq<FieldProto>, isExtension: bool) {
    forall i | 0 <= i < |fs| :: FieldGood(fs[i], isExtension)
  }

  predicate EnumGood(e: EnumProto) {
    IsIdentifier(e.name) && e.values != [] && IdentifiersUpTo(e.values, |e.values|)
  }

  predicate EnumsGood(es: seq<EnumProto>) {
    forall i | 0 <= i < |es| :: EnumGood(es[i])
  }

  predicate ServiceGood(s: ServiceProto) {
    IsIdentifier(s.name) && MethodsGood(s.methods)
  }

  predicate ServicesGood(ss: seq<ServiceProto>) {
    forall i | 0 <= i < |ss| :: ServiceGood(ss[i])
  }

  predicate RangeGood(r: Range) {
    0 < r.start < r.end
  }

  predicate RangesGood(rs: seq<Range>) {
    forall i | 0 <= i < |rs| :: RangeGood(rs[i])
  }

  predicate Overlap(a: Range, b: Range) {
    a.end > b.start && b.end > a.start
  }

  predicate RangesApart(rs: seq<Range>) {
    forall i, j | 0 <= i < j < |rs| :: !Overlap(rs[i], rs[j])
  }

  predicate FieldsOutside(fs: seq<FieldProto>, rs: seq<Range>) {
    forall i, j | 0 <= i < |fs| && 0 <= j < |rs| :: !RangeHolds(rs[j], fs[i].number)
  }

  predicate MessageGood(m: MessageProto) {
    && IsIdentifier(m.name)
    && FieldsGood(m.fields, false)
    && MessagesGood(m.nested)
    && EnumsGood(m.enums)
    && RangesGood(m.ranges)
    && FieldsGood(m.extensions, true)
    && FieldsOutside(m.fields, m.ranges)
    && RangesApart(m.ranges)
  }

  predicate MessagesGood(ms: seq<MessageProto>) {
    forall i | 0 <= i < |ms| :: MessageGood(ms[i])
  }

  predicate FileGood(f: FileProto) {
    MessagesGood(f.messages) && EnumsGood(f.enums) && ServicesGood(f.services) && FieldsGood(f.extensions, true)
  }

  /** The deferred upper bound on extension ranges. */
  function MaxExtension(m: MessageProto): int {
    if m.messageSet then INT32_MAX else MAX_NUMBER
  }

  predicate RangesBounded(m: MessageProto) {
    && (forall i | 0 <= i < |m.ranges| :: m.ranges[i].end <= MaxExtension(m) + 1)
    && AllRangesBounded(m.nested)
  }

  predicate AllRangesBounded(ms: seq<MessageProto>) {
    forall i | 0 <= i < |ms| :: RangesBounded(ms[i])
  }

  lemma BoundedOneMore(ms: seq<MessageProto>, i: nat)
    requires i < |ms|
    ensures AllRangesBounded(ms[..i + 1]) <==> AllRangesBounded(ms[..i]) && RangesBounded(ms[i])
  {
  }

  // ----- adding declarations to the table -----

  function Declare(s: Symbols, d: Decl): Symbols {
    if d.symbol.fullName in s then s else s[d.symbol.fullName := d.symbol]
  }

  function DeclareAll(s: Symbols, ds: seq<Decl>): Symbols {
    if ds == [] then s else Declare(DeclareAll(s, ds[..|ds| - 1]), ds[|ds| - 1])
  }

  /** Some declaration of `ds` finds its name taken. */
  predicate Clash(s: Symbols, ds: seq<Decl>) {
    ds != [] && (Clash(s, ds[..|ds| - 1]) || ds[|ds| - 1].symbol.fullName in DeclareAll(s, ds[..|ds| - 1]))
  }

  lemma DeclareOne(s: Symbols, d: Decl)
    ensures DeclareAll(s, [d]) == Declare(s, d)
    ensures Clash(s, [d]) <==> d.symbol.fullName in s
  {
  }

  lemma {:induction false} DeclareAllAppend(s: Symbols, a: seq<Decl>, b: seq<Decl>)
    ensures DeclareAll(s, a + b) == DeclareAll(DeclareAll(s, a), b)
    ensures Clash(s, a + b) <==> Clash(s, a) || Clash(DeclareAll(s, a), b)
    decreases |b|
  {
    if b == [] {
      assert a + b == a;
    } else {
      assert (a + b)[..|a + b| - 1] == a + b[..|b| - 1];
      DeclareAllAppend(s, a, b[..|b| - 1]);
    }
  }

  /** The symbols declared so far, and whether some check has failed. */
  datatype Progress = Progress(symbols: Symbols, errors: bool)

  /** Progress made by declaring `ds` while the other checks come out `good`. */
  function Declares(p: Progress, good: bool, ds: seq<Decl>): Progress {
    Progress(DeclareAll(p.symbols, ds), p.errors || !good || Clash(p.symbols, ds))
  }

  lemma DeclaresNothing(p: Progress)
    ensures Declares(p, true, []) == p
  {
  }

  lemma DeclaresAppend(p: Progress, g1: bool, a: seq<Decl>, g2: bool, b: seq<Decl>)
    ensures Declares(Declares(p, g1, a), g2, b) == Declares(p, g1 && g2, a + b)
  {
    DeclareAllAppend(p.symbols, a, b);
  }

  /** A failed check that declares nothing. */
  lemma DeclaresCheck(p: Progress, g1: bool, ds: seq<Decl>, g2: bool)
    ensures Declares(p, g1, ds).(errors := Declares(p, g1, ds).errors || !g2) == Declares(p, g1 && g2, ds)
  {
  }

  /** What is declared inside a message, whose full name is `inner`. */
  function PartsDecls(file: string, inner: string, m: MessageProto): seq<Decl> {
    FieldDecls(file, inner, m.fields) + MessagesDecls(file, inner, m.nested) +
    EnumsDecls(file, inner, m.enums) + FieldDecls(file, inner, m.extensions)
  }

  predicate PartsGood(m: MessageProto) {
    && FieldsGood(m.fields, false)
    && MessagesGood(m.nested)
    && EnumsGood(m.enums)
    && RangesGood(m.ranges)
    && FieldsGood(m.extensions, true)
  }

  lemma MessageInParts(file: string, scope: string, m: MessageProto)
    ensures MessageDecls(file, scope, m) ==
            PartsDecls(file, Join(scope, m.name), m) + [Decl(scope, m.name, MessageSymbol(file, scope, m))]
    ensures MessageGood(m) <==> IsIdentifier(m.name) && PartsGood(m) && NumbersGood(m)
  {
  }

  lemma TakeOneMore<T>(q: seq<T>, i: nat)
    requires i < |q|
    ensures q[..i + 1][..|q[..i + 1]| - 1] == q[..i] && q[..i + 1][|q[..i + 1]| - 1] == q[i]
  {
  }

  lemma FieldsOneMore(file: string, scope: string, fs: seq<FieldProto>, isExtension: bool, i: nat)
    requires i < |fs|
    ensures FieldDecls(file, scope, fs[..i + 1]) == FieldDecls(file, scope, fs[..i]) + [FieldDecl(file, scope, fs[i])]
    ensures FieldsGood(fs[..i + 1], isExtension) <==> FieldsGood(fs[..i], isExtension) && FieldGood(fs[i], isExtension)
  {
    TakeOneMore(fs, i);
    assert FieldsGood(fs[..i + 1], isExtension) ==> FieldGood(fs[..i + 1][i], isExtension);
  }

  lemma ValuesOneMore(file: string, scope: string, e: EnumProto, i: nat)
    requires i < |e.values|
    ensures ValueDecls(file, scope, e, e.values[..i + 1]) ==
            ValueDecls(file, scope, e, e.values[..i]) + [ValueDecl(file, scope, e, e.values[i])]
    ensures IdentifiersUpTo(e.values, i + 1) <==> IdentifiersUpTo(e.values, i) && IsIdentifier(e.values[i])
  {
    TakeOneMore(e.values, i);
  }

  predicate IdentifiersUpTo(names: seq<string>, n: nat)
    requires n <= |names|
  {
    forall i | 0 <= i < n :: IsIdentifier(names[i])
  }

  lemma EnumsOneMore(file: string, scope: string, es: seq<EnumProto>, i: nat)
    requires i < |es|
    ensures EnumsDecls(file, scope, es[..i + 1]) == EnumsDecls(file, scope, es[..i]) + EnumDecls(file, scope, es[i])
    ensures EnumsGood(es[..i + 1]) <==> EnumsGood(es[..i]) && EnumGood(es[i])
  {
    hide EnumDecls, EnumGood;
    TakeOneMore(es, i);
    assert EnumsGood(es[..i + 1]) ==> EnumGood(es[..i + 1][i]);
  }

  predicate MethodsGood(ms: seq<MethodProto>) {
    forall i | 0 <= i < |ms| :: IsIdentifier(ms[i].name)
  }

  lemma MethodsOneMore(file: string, scope: string, ms: seq<MethodProto>, i: nat)
    requires i < |ms|
    ensures MethodDecls(file, scope, ms[..i + 1]) ==
            MethodDecls(file, scope, ms[..i]) + [MethodDecl(file, scope, ms[i])]
    ensures MethodsGood(ms[..i + 1]) <==> MethodsGood(ms[..i]) && IsIdentifier(ms[i].name)
  {
    TakeOneMore(ms, i);
    assert MethodsGood(ms[..i + 1]) ==> IsIdentifier(ms[..i + 1][i].name);
  }

  lemma {:induction false} ServicesOneMore(file: string, scope: string, ss: seq<ServiceProto>, i: nat)
    requires i < |ss|
    ensures ServicesDecls(file, scope, ss[..i + 1])
            == ServicesDecls(file, scope, ss[..i]) + ServiceDecls(file, scope, ss[i])
    ensures ServicesGood(ss[..i + 1]) <==> ServicesGood(ss[..i]) && ServiceGood(ss[i])
  {
    hide ServiceDecls, ServiceGood;
    TakeOneMore(ss, i);
    assert ServicesGood(ss[..i + 1]) ==> ServiceGood(ss[..i + 1][i]);
  }

  lemma RangesOneMore(rs: seq<Range>, i: nat)
    requires i < |rs|
    ensures RangesGood(rs[..i + 1]) <==> RangesGood(rs[..i]) && RangeGood(rs[i])
  {
  }

  lemma OutsideOneMore(fs: seq<FieldProto>, rs: seq<Range>, i: nat)
    requires i < |fs|
    ensures FieldsOutside(fs[..i + 1], rs) <==>
            FieldsOutside(fs[..i], rs) && !exists k | 0 <= k < |rs| :: RangeHolds(rs[k], fs[i].number)
  {
  }

  /** The checks on a message other than those on what it contains. */
  predicate NumbersGood(m: MessageProto) {
    FieldsOutside(m.fields, m.ranges) && RangesApart(m.ranges)
  }

  lemma {:induction false} MessagesOneMore(file: string, scope: string, ms: seq<MessageProto>, i: nat)
    requires i < |ms|
    ensures MessagesDecls(file, scope, ms[..i + 1])
            == MessagesDecls(file, scope, ms[..i]) + MessageDecls(file, scope, ms[i])
    ensures MessagesGood(ms[..i + 1]) <==> MessagesGood(ms[..i]) && MessageGood(ms[i])
  {
    hide MessageDecls, MessageGood;
    TakeOneMore(ms, i);
    assert MessagesGood(ms[..i + 1]) ==> MessageGood(ms[..i + 1][i]);
  }

  /** Declaring never forgets or overwrites, and adds only what is declared. */
  lemma {:induction false} DeclareAllKeys(s: Symbols, ds: seq<Decl>)
    ensures forall n | n in s :: n in DeclareAll(s, ds) && DeclareAll(s, ds)[n] == s[n]
    ensures forall i | 0 <= i < |ds| :: ds[i].symbol.fullName in DeclareAll(s, ds)
    ensures forall n | n in DeclareAll(s, ds) && n !in s ::
              exists i | 0 <= i < |ds| :: ds[i].symbol.fullName == n && DeclareAll(s, ds)[n] == ds[i].symbol
    decreases |ds|
  {
    if ds != [] {
      var init := ds[..|ds| - 1];
      DeclareAllKeys(s, init);
      forall i | 0 <= i < |ds|
        ensures ds[i].symbol.fullName in DeclareAll(s, ds)
      {
        assert i < |init| ==> init[i] == ds[i];
      }
      forall n | n in DeclareAll(s, ds) && n !in s
        ensures exists i | 0 <= i < |ds| :: ds[i].symbol.fullName == n && DeclareAll(s, ds)[n] == ds[i].symbol
      {
        if n in DeclareAll(s, init) {
          var i :| 0 <= i < |init| && init[i].symbol.fullName == n && DeclareAll(s, init)[n] == init[i].symbol;
          assert ds[i] == init[i];
        }
      }
    }
  }

  /** There is no clash exactly when the declared names are new and pairwise different. */
  lemma {:induction false} ClashMeansTaken(s: Symbols, ds: seq<Decl>)
    ensures !Clash(s, ds) <==>
            && (forall i | 0 <= i < |ds| :: ds[i].symbol.fullName !in s)
            && (forall i, j | 0 <= i < j < |ds| :: ds[i].symbol.fullName != ds[j].symbol.fullName)
    decreases |ds|
  {
    if ds != [] {
      var init := ds[..|ds| - 1];
      var last := ds[|ds| - 1].symbol.fullName;
      ClashMeansTaken(s, init);
      DeclareAllKeys(s, init);
      assert forall i | 0 <= i < |init| :: init[i] == ds[i];
      if !Clash(s, ds) {
        forall i, j | 0 <= i < j < |ds|
          ensures ds[i].symbol.fullName != ds[j].symbol.fullName
        {
          assert ds[i] == init[i];
        }
      } else if !Clash(s, init) && last !in s {
        var i :| 0 <= i < |init| && init[i].symbol.fullName == last;
        assert ds[i].symbol.fullName == ds[|ds| - 1].symbol.fullName;
      }
    }
  }

  /** Without a clash every declaration is in the table with its own symbol. */
  lemma {:induction false} DeclaredAsGiven(s: Symbols, ds: seq<Decl>)
    requires !Clash(s, ds)
    ensures forall i | 0 <= i < |ds| ::
              ds[i].symbol.fullName in DeclareAll(s, ds) && DeclareAll(s, ds)[ds[i].symbol.fullName] == ds[i].symbol
    decreases |ds|
  {
    if ds != [] {
      DeclaredAsGiven(s, ds[..|ds| - 1]);
      assert forall i | 0 <= i < |ds| - 1 :: ds[..|ds| - 1][i] == ds[i];
    }
  }

  // ----- packages -----

  function PackageSymbol(file: string, name: string): Symbol {
    Symbol(Package, file, name, [], "")
  }

  /** The table after a package and its parents are added, stopping at the first name already present. */
  function WithPackage(s: Symbols, file: string, name: string): Symbols
    decreases |name|
  {
    if name in s then s
    else
      var s' := s[name := PackageSymbol(file, name)];
      if LastDot(name) == -1 then s' else WithPackage(s', file, name[..LastDot(name)])
  }

  /** Whether adding the package reports no error. */
  predicate PackageGood(s: Symbols, file: string, name: string)
    decreases |name|
  {
    if name in s then s[name].kind == Package
    else
      var s' := s[name := PackageSymbol(file, name)];
      var d := LastDot(name);
      if d == -1 then IsIdentifier(name)
      else PackageGood(s', file, name[..d]) && IsIdentifier(name[d + 1..])
  }

  function PackageProgress(p: Progress, file: string, name: string): Progress {
    Progress(WithPackage(p.symbols, file, name), p.errors || !PackageGood(p.symbols, file, name))
  }

  // ----- parent closure -----

  /** The dotted parent of `n`, if it has one, is present and is an aggregate. */
  predicate HasParent(s: Symbols, n: string) {
    var d := LastDot(n);
    d >= 0 ==> n[..d] in s && s[n[..d]].IsAggregate()
  }

  predicate ParentClosed(s: Symbols) {
    forall n | n in s :: HasParent(s, n)
  }

  /** The parent of `n` is `name`. */
  predicate IsChildOf(n: string, name: string) {
    var d := LastDot(n);
    d >= 0 && n[..d] == name
  }

  /** Closed, but for children of the still absent `name`. */
  predicate ClosedAwaiting(s: Symbols, name: string) {
    forall n | n in s :: HasParent(s, n) || IsChildOf(n, name)
  }

  /** Adding an awaited package leaves only itself awaiting its parent. */
  lemma AwaitedPackage(s: Symbols, file: string, name: string)
    requires ClosedAwaiting(s, name) && name !in s
    ensures var s' := s[name := PackageSymbol(file, name)];
            forall n | n in s' :: HasParent(s', n) || n == name
  {
  }

  /**
   Stopping early at a known package still leaves every parent present: a table that was closed but
   for children of the package being added is closed afterwards.
   */
  lemma {:induction false} PackageClosure(s: Symbols, file: string, name: string)
    requires ClosedAwaiting(s, name) && PackageGood(s, file, name)
    ensures ParentClosed(WithPackage(s, file, name))
    ensures name in WithPackage(s, file, name) && WithPackage(s, file, name)[name].kind == Package
    ensures forall n | n in s :: n in WithPackage(s, file, name) && WithPackage(s, file, name)[n] == s[n]
    decreases |name|
  {
    hide LastDot;
    if name in s {
      forall n | n in s
        ensures HasParent(s, n)
      {
        assert HasParent(s, n) || IsChildOf(n, name);
      }
    } else {
      var s' := s[name := PackageSymbol(file, name)];
      var d := LastDot(name);
      AwaitedPackage(s, file, name);
      if d >= 0 {
        assert IsChildOf(name, name[..d]);
        PackageClosure(s', file, name[..d]);
        assert WithPackage(s, file, name) == WithPackage(s', file, name[..d]);
        assert name in s';
        forall n | n in s
          ensures n in WithPackage(s', file, name[..d]) && WithPackage(s', file, name[..d])[n] == s[n]
        {
          assert n in s' && s'[n] == s[n];
        }
      }
    }
  }

  /**
   A declaration's key is its scope joined with a dotless name, and its scope is `scope` or declared in `ds` as an
   aggregate.
   */
  ghost predicate Rooted(d: Decl, scope: string, ds: seq<Decl>) {
    && IsIdentifier(d.name)
    && d.symbol.fullName == Join(d.scope, d.name)
    && (d.scope == scope || DeclaresAggregate(ds, d.scope))
  }

  ghost predicate DeclaresAggregate(ds: seq<Decl>, name: string) {
    exists e | e in ds :: e.symbol.fullName == name && e.symbol.IsAggregate()
  }

  ghost predicate AllRooted(ds: seq<Decl>, scope: string) {
    forall d | d in ds :: Rooted(d, scope, ds)
  }

  lemma RootedMonotone(ds: seq<Decl>, scope: string, all: seq<Decl>, outer: string)
    requires AllRooted(ds, scope) && forall d | d in ds :: d in all
    requires scope == outer || DeclaresAggregate(all, scope)
    ensures forall d | d in ds :: Rooted(d, outer, all)
  {
  }

  lemma {:induction false} FieldsRooted(file: string, scope: string, fs: seq<FieldProto>, isExtension: bool)
    requires FieldsGood(fs, isExtension)
    ensures AllRooted(FieldDecls(file, scope, fs), scope)
    decreases |fs|
  {
    if fs != [] {
      FieldsRooted(file, scope, fs[..|fs| - 1], isExtension);
      RootedMonotone(FieldDecls(file, scope, fs[..|fs| - 1]), scope, FieldDecls(file, scope, fs), scope);
    }
  }

  lemma {:induction false} ValuesRooted(file: string, scope: string, e: EnumProto, values: seq<string>)
    requires forall i | 0 <= i < |values| :: IsIdentifier(values[i])
    ensures AllRooted(ValueDecls(file, scope, e, values), scope)
    decreases |values|
  {
    if values != [] {
      ValuesRooted(file, scope, e, values[..|values| - 1]);
      RootedMonotone(ValueDecls(file, scope, e, values[..|values| - 1]), scope, ValueDecls(file, scope, e, values),
                     scope);
    }
  }

  lemma {:induction false} EnumsRooted(file: string, scope: string, es: seq<EnumProto>)
    requires EnumsGood(es)
    ensures AllRooted(EnumsDecls(file, scope, es), scope)
    decreases |es|
  {
    if es != [] {
      var all := EnumsDecls(file, scope, es);
      var e := es[|es| - 1];
      EnumsRooted(file, scope, es[..|es| - 1]);
      RootedMonotone(EnumsDecls(file, scope, es[..|es| - 1]), scope, all, scope);
      ValuesRooted(file, scope, e, e.values);
      RootedMonotone(ValueDecls(file, scope, e, e.values), scope, all, scope);
    }
  }

  lemma {:induction false} MethodsRooted(file: string, scope: string, ms: seq<MethodProto>)
    requires scope != "" && MethodsGood(ms)
    ensures AllRooted(MethodDecls(file, scope, ms), scope)
    decreases |ms|
  {
    if ms != [] {
      MethodsRooted(file, scope, ms[..|ms| - 1]);
      RootedMonotone(MethodDecls(file, scope, ms[..|ms| - 1]), scope, MethodDecls(file, scope, ms), scope);
    }
  }

  lemma {:induction false} ServicesRooted(file: string, scope: string, ss: seq<ServiceProto>)
    requires ServicesGood(ss)
    ensures AllRooted(ServicesDecls(file, scope, ss), scope)
    decreases |ss|
  {
    if ss != [] {
      var all := ServicesDecls(file, scope, ss);
      var s := ss[|ss| - 1];
      ServicesRooted(file, scope, ss[..|ss| - 1]);
      RootedMonotone(ServicesDecls(file, scope, ss[..|ss| - 1]), scope, all, scope);
      MethodsRooted(file, Join(scope, s.name), s.methods);
      var self := Decl(scope, s.name, SymbolIn(Service, file, scope, s.name));
      assert self in all;
      RootedMonotone(MethodDecls(file, Join(scope, s.name), s.methods), Join(scope, s.name), all, scope);
    }
  }

  lemma {:induction false} MessageRooted(file: string, scope: string, m: MessageProto)
    requires MessageGood(m)
    ensures AllRooted(MessageDecls(file, scope, m), scope)
    decreases m, 1
  {
    var all := MessageDecls(file, scope, m);
    var inner := Join(scope, m.name);
    var self := Decl(scope, m.name, MessageSymbol(file, scope, m));
    assert self in all;
    assert DeclaresAggregate(all, inner);
    FieldsRooted(file, inner, m.fields, false);
    RootedMonotone(FieldDecls(file, inner, m.fields), inner, all, scope);
    MessagesRooted(file, inner, m.nested);
    RootedMonotone(MessagesDecls(file, inner, m.nested), inner, all, scope);
    EnumsRooted(file, inner, m.enums);
    RootedMonotone(EnumsDecls(file, inner, m.enums), inner, all, scope);
    FieldsRooted(file, inner, m.extensions, true);
    RootedMonotone(FieldDecls(file, inner, m.extensions), inner, all, scope);
  }

  lemma {:induction false} MessagesRooted(file: string, scope: string, ms: seq<MessageProto>)
    requires MessagesGood(ms)
    ensures AllRooted(MessagesDecls(file, scope, ms), scope)
    decreases ms, 0
  {
    if ms != [] {
      var all := MessagesDecls(file, scope, ms);
      MessagesRooted(file, scope, ms[..|ms| - 1]);
      RootedMonotone(MessagesDecls(file, scope, ms[..|ms| - 1]), scope, all, scope);
      MessageRooted(file, scope, ms[|ms| - 1]);
      RootedMonotone(MessageDecls(file, scope, ms[|ms| - 1]), scope, all, scope);
    }
  }

  lemma FileRooted(f: FileProto)
    requires FileGood(f)
    ensures AllRooted(FileDecls(f), f.package)
  {
    var all := FileDecls(f);
    MessagesRooted(f.name, f.package, f.messages);
    RootedMonotone(MessagesDecls(f.name, f.package, f.messages), f.package, all, f.package);
    EnumsRooted(f.name, f.package, f.enums);
    RootedMonotone(EnumsDecls(f.name, f.package, f.enums), f.package, all, f.package);
    ServicesRooted(f.name, f.package, f.services);
    RootedMonotone(ServicesDecls(f.name, f.package, f.services), f.package, all, f.package);
    FieldsRooted(f.name, f.package, f.extensions, true);
    RootedMonotone(FieldDecls(f.name, f.package, f.extensions), f.package, all, f.package);
  }

  /** Declarations without a clash, rooted in a present aggregate scope, keep the table closed. */
  lemma DeclarationClosure(s: Symbols, ds: seq<Decl>, scope: string)
    requires ParentClosed(s) && AllRooted(ds, scope) && !Clash(s, ds)
    requires scope == "" || (scope in s && s[scope].IsAggregate())
    ensures ParentClosed(DeclareAll(s, ds))
  {
    var t := DeclareAll(s, ds);
    DeclareAllKeys(s, ds);
    DeclaredAsGiven(s, ds);
    forall n | n in t
      ensures HasParent(t, n)
    {
      if n in s {
        assert HasParent(s, n);
      } else {
        var i :| 0 <= i < |ds| && ds[i].symbol.fullName == n && t[n] == ds[i].symbol;
        var d := ds[i];
        assert d in ds && Rooted(d, scope, ds);
        ParentOfJoin(d.scope, d.name);
        if d.scope != "" && d.scope != scope {
          var e :| e in ds && e.symbol.fullName == d.scope && e.symbol.IsAggregate();
        }
      }
    }
  }

  /** The table of symbols after a file's package and declarations are added. */
  function FileSymbols(s: Symbols, f: FileProto): Symbols {
    DeclareAll(if f.package == "" then s else WithPackage(s, f.name, f.package), FileDecls(f))
  }

  predicate FileSymbolsGood(s: Symbols, f: FileProto) {
    var p := if f.package == "" then s else WithPackage(s, f.name, f.package);
    (f.package == "" || PackageGood(s, f.name, f.package)) && FileGood(f) && !Clash(p, FileDecls(f))
  }

  /** A file whose declarations report no error overwrites nothing. */
  lemma FileSymbolsGrow(s: Symbols, f: FileProto)
    requires FileSymbolsGood(s, f)
    ensures forall n | n in s :: n in FileSymbols(s, f) && FileSymbols(s, f)[n] == s[n]
  {
    if f.package != "" {
      PackageGrows(s, f.name, f.package);
    }
    DeclareAllKeys(if f.package == "" then s else WithPackage(s, f.name, f.package), FileDecls(f));
  }

  lemma {:induction false} PackageGrows(s: Symbols, file: string, name: string)
    ensures forall n | n in s :: n in WithPackage(s, file, name) && WithPackage(s, file, name)[n] == s[n]
    decreases |name|
  {
    hide LastDot;
    if name !in s && LastDot(name) != -1 {
      var s' := s[name := PackageSymbol(file, name)];
      PackageGrows(s', file, name[..LastDot(name)]);
      assert forall n | n in s :: n in s' && s'[n] == s[n];
    }
  }

  /** A file whose declarations report no error keeps the table closed under dotted parents. */
  lemma FileClosure(s: Symbols, f: FileProto)
    requires ParentClosed(s) && FileSymbolsGood(s, f)
    ensures ParentClosed(FileSymbols(s, f))
    ensures forall n | n in s :: n in FileSymbols(s, f) && FileSymbols(s, f)[n] == s[n]
  {
    var p := if f.package == "" then s else WithPackage(s, f.name, f.package);
    if f.package != "" {
      assert forall n | n in s :: HasParent(s, n);
      PackageClosure(s, f.name, f.package);
    }
    FileRooted(f);
    DeclarationClosure(p, FileDecls(f), f.package);
    DeclareAllKeys(p, FileDecls(f));
  }

  // ----- keys and names agree -----

  /** Every symbol stands in the table under its own full name. */
  predicate SymbolsNamed(s: Symbols) {
    forall n | n in s :: s[n].fullName == n
  }

  lemma {:induction false} DeclaredNamed(s: Symbols, ds: seq<Decl>)
    requires SymbolsNamed(s)
    ensures SymbolsNamed(DeclareAll(s, ds))
    decreases |ds|
  {
    if ds != [] {
      DeclaredNamed(s, ds[..|ds| - 1]);
    }
  }

  lemma {:induction false} PackageNamed(s: Symbols, file: string, name: string)
    requires SymbolsNamed(s)
    ensures SymbolsNamed(WithPackage(s, file, name))
    decreases |name|
  {
    hide LastDot;
    if name !in s && LastDot(name) != -1 {
      PackageNamed(s[name := PackageSymbol(file, name)], file, name[..LastDot(name)]);
    }
  }

  lemma FileNamed(s: Symbols, f: FileProto)
    requires SymbolsNamed(s)
    ensures SymbolsNamed(FileSymbols(s, f))
  {
    PackageNamed(s, f.name, f.package);
    DeclaredNamed(if f.package == "" then s else WithPackage(s, f.name, f.package), FileDecls(f));
  }
}
