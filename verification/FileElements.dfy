/**
 * What a file contains, said without the order of any traversal: which elements are in which scope. What is
 * declared, linked and indexed is shown to be exactly what there is.
 */
module FileElements {
  import opened Declarations
  import opened Descriptors
  import opened Linking
  import opened Names
  import opened Wrappers

  // ----- elements and their scopes -----

  /** `m` is declared in scope `s`, at any depth below the messages `ms` of `scope`. */
  ghost predicate MessageIn(scope: string, ms: seq<MessageProto>, s: string, m: MessageProto)
    decreases ms
  {
    exists i | 0 <= i < |ms| ::
      (s == scope && m == ms[i]) || MessageIn(Join(scope, ms[i].name), ms[i].nested, s, m)
  }

  ghost predicate HasMessage(f: FileProto, s: string, m: MessageProto) {
    MessageIn(f.package, f.messages, s, m)
  }

  // ----- what is declared -----

  function SymbolOf(kind: SymbolKind, file: string, name: string): Symbol {
    Symbol(kind, file, name, [], "")
  }

  ghost predicate IsFieldDecl(file: string, scope: string, fs: seq<FieldProto>, d: Decl) {
    exists x | x in fs :: d == Decl(scope, x.name, SymbolOf(Field, file, Join(scope, x.name)))
  }

  /** An enum is declared in its scope, and so are its values, which know the enum. */
  ghost predicate IsDeclOfEnum(file: string, scope: string, e: EnumProto, d: Decl) {
    || d == Decl(scope, e.name, SymbolOf(Enum, file, Join(scope, e.name)))
    || exists x | x in e.values ::
         d == Decl(scope, x, Symbol(EnumValue, file, Join(scope, x), [], Join(scope, e.name)))
  }

  ghost predicate IsEnumDecl(file: string, scope: string, es: seq<EnumProto>, d: Decl) {
    exists e | e in es :: IsDeclOfEnum(file, scope, e, d)
  }

  /** A service is declared in its scope, and its methods in the service. */
  ghost predicate IsDeclOfService(file: string, scope: string, x: ServiceProto, d: Decl) {
    || d == Decl(scope, x.name, SymbolOf(Service, file, Join(scope, x.name)))
    || exists y | y in x.methods ::
         d == Decl(Join(scope, x.name), y.name, SymbolOf(Method, file, Join(scope, x.name) + "." + y.name))
  }

  ghost predicate IsServiceDecl(file: string, scope: string, ss: seq<ServiceProto>, d: Decl) {
    exists x | x in ss :: IsDeclOfService(file, scope, x, d)
  }

  /** A message is declared in its scope; its fields, extensions and enums are declared in the message. */
  ghost predicate IsMessageDecl(file: string, s: string, m: MessageProto, d: Decl) {
    var inner := Join(s, m.name);
    || d == Decl(s, m.name, Symbol(Message, file, inner, m.ranges, ""))
    || IsFieldDecl(file, inner, m.fields, d)
    || IsFieldDecl(file, inner, m.extensions, d)
    || IsEnumDecl(file, inner, m.enums, d)
  }

  lemma {:induction false} FieldsDeclared(file: string, scope: string, fs: seq<FieldProto>, d: Decl)
    ensures d in FieldDecls(file, scope, fs) <==> IsFieldDecl(file, scope, fs, d)
    decreases |fs|
  {
    if fs != [] {
      FieldsDeclared(file, scope, fs[..|fs| - 1], d);
    }
  }

  lemma {:induction false} ValuesDeclared(file: string, scope: string, e: EnumProto, values: seq<string>, d: Decl)
    ensures d in ValueDecls(file, scope, e, values) <==>
            exists x | x in values ::
              d == Decl(scope, x, Symbol(EnumValue, file, Join(scope, x), [], Join(scope, e.name)))
    decreases |values|
  {
    if values != [] {
      ValuesDeclared(file, scope, e, values[..|values| - 1], d);
    }
  }

  lemma {:induction false} EnumsDeclared(file: string, scope: string, es: seq<EnumProto>, d: Decl)
    ensures d in EnumsDecls(file, scope, es) <==> IsEnumDecl(file, scope, es, d)
    decreases |es|
  {
    if es != [] {
      var e := es[|es| - 1];
      EnumsDeclared(file, scope, es[..|es| - 1], d);
      ValuesDeclared(file, scope, e, e.values, d);
      assert d in EnumDecls(file, scope, e) <==> IsDeclOfEnum(file, scope, e, d);
      hide EnumDecls, IsDeclOfEnum;
    }
  }

  lemma {:induction false} MethodsDeclared(file: string, service: string, ms: seq<MethodProto>, d: Decl)
    ensures d in MethodDecls(file, service, ms) <==>
            exists y | y in ms :: d == Decl(service, y.name, SymbolOf(Method, file, service + "." + y.name))
    decreases |ms|
  {
    if ms != [] {
      MethodsDeclared(file, service, ms[..|ms| - 1], d);
    }
  }

  lemma {:induction false} ServicesDeclared(file: string, scope: string, ss: seq<ServiceProto>, d: Decl)
    ensures d in ServicesDecls(file, scope, ss) <==> IsServiceDecl(file, scope, ss, d)
    decreases |ss|
  {
    hide MethodDecls;
    if ss != [] {
      var x := ss[|ss| - 1];
      ServicesDeclared(file, scope, ss[..|ss| - 1], d);
      MethodsDeclared(file, Join(scope, x.name), x.methods, d);
      assert d in ServiceDecls(file, scope, x) <==> IsDeclOfService(file, scope, x, d);
      hide ServiceDecls, IsDeclOfService;
    }
  }

  /** What `m` declares in scope `s`: itself, its parts, and what its nested messages declare. */
  lemma {:induction false} MessageDeclared(file: string, s: string, m: MessageProto, d: Decl)
    ensures d in MessageDecls(file, s, m) <==>
            IsMessageDecl(file, s, m, d) || d in MessagesDecls(file, Join(s, m.name), m.nested)
  {
    hide FieldDecls, EnumsDecls, MessagesDecls, IsFieldDecl, IsEnumDecl;
    var inner := Join(s, m.name);
    FieldsDeclared(file, inner, m.fields, d);
    FieldsDeclared(file, inner, m.extensions, d);
    EnumsDeclared(file, inner, m.enums, d);
  }

  lemma {:induction false} MessagesDeclaredBy(file: string, scope: string, ms: seq<MessageProto>, d: Decl)
    ensures d in MessagesDecls(file, scope, ms) <==> exists i | 0 <= i < |ms| :: d in MessageDecls(file, scope, ms[i])
    decreases |ms|
  {
    hide MessageDecls;
    if ms != [] {
      MessagesDeclaredBy(file, scope, ms[..|ms| - 1], d);
    }
  }

  /** At any depth: what is declared is what the messages there declare. */
  lemma {:induction false} MessagesDeclared(file: string, scope: string, ms: seq<MessageProto>, d: Decl)
    ensures d in MessagesDecls(file, scope, ms) <==>
            exists s, m :: MessageIn(scope, ms, s, m) && IsMessageDecl(file, s, m, d)
    decreases ms
  {
    hide MessagesDecls, MessageDecls, IsMessageDecl;
    MessagesDeclaredBy(file, scope, ms, d);
    forall i | 0 <= i < |ms|
      ensures d in MessageDecls(file, scope, ms[i]) <==>
              IsMessageDecl(file, scope, ms[i], d) ||
              exists s, m :: MessageIn(Join(scope, ms[i].name), ms[i].nested, s, m) && IsMessageDecl(file, s, m, d)
    {
      MessageDeclared(file, scope, ms[i], d);
      MessagesDeclared(file, Join(scope, ms[i].name), ms[i].nested, d);
    }
    if i :| 0 <= i < |ms| && IsMessageDecl(file, scope, ms[i], d) {
      assert MessageIn(scope, ms, scope, ms[i]);
    }
    forall i, s, m | 0 <= i < |ms| && MessageIn(Join(scope, ms[i].name), ms[i].nested, s, m)
      ensures MessageIn(scope, ms, s, m)
    {
    }
  }

  /** A file declares its elements, each in its scope and under its full name, and nothing else. */
  lemma ElementsDeclared(f: FileProto, d: Decl)
    ensures d in FileDecls(f) <==>
            || (exists s, m :: HasMessage(f, s, m) && IsMessageDecl(f.name, s, m, d))
            || IsFieldDecl(f.name, f.package, f.extensions, d)
            || IsEnumDecl(f.name, f.package, f.enums, d)
            || IsServiceDecl(f.name, f.package, f.services, d)
  {
    hide MessagesDecls, FieldDecls, EnumsDecls, ServicesDecls;
    hide MessageIn, IsMessageDecl, IsFieldDecl, IsEnumDecl, IsServiceDecl;
    MessagesDeclared(f.name, f.package, f.messages, d);
    FieldsDeclared(f.name, f.package, f.extensions, d);
    EnumsDeclared(f.name, f.package, f.enums, d);
    ServicesDeclared(f.name, f.package, f.services, d);
  }

  // ----- what is linked -----

  /** Fields belong to their message; which message an extension belongs to is not known before it is resolved. */
  ghost predicate IsFieldLink(scope: string, parent: string, fs: seq<FieldProto>, isExtension: bool, l: Link) {
    exists x | x in fs :: l == FieldLink(x, Join(scope, x.name), parent, isExtension)
  }

  ghost predicate IsMethodLink(scope: string, ss: seq<ServiceProto>, l: Link) {
    exists x, y | x in ss && y in x.methods :: l == MethodLink(y, Join(scope, x.name) + "." + y.name)
  }

  ghost predicate IsMessageLink(s: string, m: MessageProto, l: Link) {
    var full := Join(s, m.name);
    IsFieldLink(full, full, m.fields, false, l) || IsFieldLink(full, "", m.extensions, true, l)
  }

  lemma {:induction false} FieldsLinked(scope: string, parent: string, fs: seq<FieldProto>, isExtension: bool, l: Link)
    ensures l in FieldLinks(scope, parent, fs, isExtension) <==> IsFieldLink(scope, parent, fs, isExtension, l)
    decreases |fs|
  {
    if fs != [] {
      FieldsLinked(scope, parent, fs[..|fs| - 1], isExtension, l);
    }
  }

  lemma {:induction false} MethodsLinked(service: string, ms: seq<MethodProto>, l: Link)
    ensures l in MethodLinks(service, ms) <==> exists y | y in ms :: l == MethodLink(y, service + "." + y.name)
    decreases |ms|
  {
    if ms != [] {
      MethodsLinked(service, ms[..|ms| - 1], l);
    }
  }

  lemma {:induction false} ServicesLinked(scope: string, ss: seq<ServiceProto>, l: Link)
    ensures l in ServicesLinks(scope, ss) <==> IsMethodLink(scope, ss, l)
    decreases |ss|
  {
    if ss != [] {
      ServicesLinked(scope, ss[..|ss| - 1], l);
      MethodsLinked(Join(scope, ss[|ss| - 1].name), ss[|ss| - 1].methods, l);
    }
  }

  lemma {:induction false} MessageLinked(s: string, m: MessageProto, l: Link)
    ensures l in MessageLinks(s, m) <==> IsMessageLink(s, m, l) || l in MessagesLinks(Join(s, m.name), m.nested)
  {
    hide FieldLinks, MessagesLinks, IsFieldLink;
    var full := Join(s, m.name);
    FieldsLinked(full, full, m.fields, false, l);
    FieldsLinked(full, "", m.extensions, true, l);
  }

  lemma {:induction false} MessagesLinkedBy(scope: string, ms: seq<MessageProto>, l: Link)
    ensures l in MessagesLinks(scope, ms) <==> exists i | 0 <= i < |ms| :: l in MessageLinks(scope, ms[i])
    decreases |ms|
  {
    hide MessageLinks;
    if ms != [] {
      MessagesLinkedBy(scope, ms[..|ms| - 1], l);
    }
  }

  lemma {:induction false} MessagesLinked(scope: string, ms: seq<MessageProto>, l: Link)
    ensures l in MessagesLinks(scope, ms) <==> exists s, m :: MessageIn(scope, ms, s, m) && IsMessageLink(s, m, l)
    decreases ms
  {
    hide MessagesLinks, MessageLinks, IsMessageLink;
    MessagesLinkedBy(scope, ms, l);
    forall i | 0 <= i < |ms|
      ensures l in MessageLinks(scope, ms[i]) <==>
              IsMessageLink(scope, ms[i], l) ||
              exists s, m :: MessageIn(Join(scope, ms[i].name), ms[i].nested, s, m) && IsMessageLink(s, m, l)
    {
      MessageLinked(scope, ms[i], l);
      MessagesLinked(Join(scope, ms[i].name), ms[i].nested, l);
    }
    if i :| 0 <= i < |ms| && IsMessageLink(scope, ms[i], l) {
      assert MessageIn(scope, ms, scope, ms[i]);
    }
    forall i, s, m | 0 <= i < |ms| && MessageIn(Join(scope, ms[i].name), ms[i].nested, s, m)
      ensures MessageIn(scope, ms, s, m)
    {
    }
  }

  /** The references of a file are those of all its fields, extensions and methods, each in its scope. */
  lemma ElementsLinked(f: FileProto, l: Link)
    ensures l in FileLinks(f) <==>
            || (exists s, m :: HasMessage(f, s, m) && IsMessageLink(s, m, l))
            || IsFieldLink(f.package, "", f.extensions, true, l)
            || IsMethodLink(f.package, f.services, l)
  {
    hide MessagesLinks, FieldLinks, ServicesLinks, MessageIn, IsMessageLink, IsFieldLink, IsMethodLink;
    MessagesLinked(f.package, f.messages, l);
    FieldsLinked(f.package, "", f.extensions, true, l);
    ServicesLinked(f.package, f.services, l);
  }

  // ----- how many -----

  function EnumCount(es: seq<EnumProto>): nat {
    if es == [] then 0 else EnumCount(es[..|es| - 1]) + 1 + |es[|es| - 1].values|
  }

  function MethodCount(ss: seq<ServiceProto>): nat {
    if ss == [] then 0 else MethodCount(ss[..|ss| - 1]) + |ss[|ss| - 1].methods|
  }

  /** Messages, their fields, extensions and enums, at any depth. */
  function MessageCount(ms: seq<MessageProto>): nat {
    if ms == [] then 0
    else
      var m := ms[|ms| - 1];
      MessageCount(ms[..|ms| - 1]) + 1 + |m.fields| + |m.extensions| + EnumCount(m.enums) + MessageCount(m.nested)
  }

  function FieldCount(ms: seq<MessageProto>): nat {
    if ms == [] then 0
    else
      var m := ms[|ms| - 1];
      FieldCount(ms[..|ms| - 1]) + |m.fields| + |m.extensions| + FieldCount(m.nested)
  }

  lemma {:induction false} FieldDeclsCount(file: string, scope: string, fs: seq<FieldProto>)
    ensures |FieldDecls(file, scope, fs)| == |fs|
    decreases |fs|
  {
    if fs != [] {
      FieldDeclsCount(file, scope, fs[..|fs| - 1]);
    }
  }

  lemma {:induction false} ValueDeclsCount(file: string, scope: string, e: EnumProto, values: seq<string>)
    ensures |ValueDecls(file, scope, e, values)| == |values|
    decreases |values|
  {
    if values != [] {
      ValueDeclsCount(file, scope, e, values[..|values| - 1]);
    }
  }

  lemma {:induction false} EnumsDeclsCount(file: string, scope: string, es: seq<EnumProto>)
    ensures |EnumsDecls(file, scope, es)| == EnumCount(es)
    decreases |es|
  {
    if es != [] {
      EnumsDeclsCount(file, scope, es[..|es| - 1]);
      ValueDeclsCount(file, scope, es[|es| - 1], es[|es| - 1].values);
    }
  }

  lemma {:induction false} MethodsCount(file: string, service: string, ms: seq<MethodProto>)
    ensures |MethodDecls(file, service, ms)| == |MethodLinks(service, ms)| == |ms|
    decreases |ms|
  {
    if ms != [] {
      MethodsCount(file, service, ms[..|ms| - 1]);
    }
  }

  lemma {:induction false} ServicesCount(file: string, scope: string, ss: seq<ServiceProto>)
    ensures |ServicesDecls(file, scope, ss)| == |ss| + MethodCount(ss)
    ensures |ServicesLinks(scope, ss)| == MethodCount(ss)
    decreases |ss|
  {
    if ss != [] {
      ServicesCount(file, scope, ss[..|ss| - 1]);
      MethodsCount(file, Join(scope, ss[|ss| - 1].name), ss[|ss| - 1].methods);
    }
  }

  lemma {:induction false} MessagesCount(file: string, scope: string, ms: seq<MessageProto>)
    ensures |MessagesDecls(file, scope, ms)| == MessageCount(ms)
    ensures |MessagesLinks(scope, ms)| == FieldCount(ms)
    decreases ms
  {
    hide FieldDecls, EnumsDecls, FieldLinks;
    if ms != [] {
      var m := ms[|ms| - 1];
      var inner := Join(scope, m.name);
      MessagesCount(file, scope, ms[..|ms| - 1]);
      MessagesCount(file, inner, m.nested);
      FieldDeclsCount(file, inner, m.fields);
      FieldDeclsCount(file, inner, m.extensions);
      EnumsDeclsCount(file, inner, m.enums);
      FieldLinksCount(inner, inner, m.fields, false);
      FieldLinksCount(inner, "", m.extensions, true);
    }
  }

  lemma {:induction false} FieldLinksCount(scope: string, parent: string, fs: seq<FieldProto>, isExtension: bool)
    ensures |FieldLinks(scope, parent, fs, isExtension)| == |fs|
    decreases |fs|
  {
    if fs != [] {
      FieldLinksCount(scope, parent, fs[..|fs| - 1], isExtension);
    }
  }

  /** Every element is declared once, and every field, extension and method is linked once. */
  lemma ElementsCount(f: FileProto)
    ensures |FileDecls(f)|
         == MessageCount(f.messages) + EnumCount(f.enums) + |f.services| + MethodCount(f.services) + |f.extensions|
    ensures |FileLinks(f)| == FieldCount(f.messages) + |f.extensions| + MethodCount(f.services)
  {
    MessagesCount(f.name, f.package, f.messages);
    EnumsDeclsCount(f.name, f.package, f.enums);
    ServicesCount(f.name, f.package, f.services);
    FieldDeclsCount(f.name, f.package, f.extensions);
    FieldLinksCount(f.package, "", f.extensions, true);
  }
}
