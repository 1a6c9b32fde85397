/** Which names and extensions of a file its index entries are, said by the file's elements. */
module IndexedElements {
  import opened Descriptors
  import opened DescriptorIndexes
  import opened FileElements
  import opened Names
  import opened Wrappers

  /** The top-level names of a file, under its package. */
  ghost predicate IsTopLevelName(f: FileProto, name: string) {
    || (exists x | x in f.messages :: name == Join(f.package, x.name))
    || (exists x | x in f.enums :: name == Join(f.package, x.name))
    || (exists x | x in f.extensions :: name == Join(f.package, x.name))
    || (exists x | x in f.services :: name == Join(f.package, x.name))
  }

  /** Some of the extensions names its extendee with a leading dot, and has that number. */
  ghost predicate Extends(fs: seq<FieldProto>, extendee: string, number: int) {
    exists x | x in fs :: x.extendee == Some("." + extendee) && x.number == number
  }

  lemma {:induction false} ExtensionsIndexed(fs: seq<FieldProto>, extendee: string, number: int)
    ensures ExtensionItem(extendee, number) in AllExtensionItems(fs) <==> Extends(fs, extendee, number)
    decreases |fs|
  {
    if fs != [] {
      ExtensionsIndexed(fs[1..], extendee, number);
      OneIndexed(fs[0], extendee, number);
      hide ExtensionItems;
      assert fs == [fs[0]] + fs[1..];
    }
  }

  lemma OneIndexed(x: FieldProto, extendee: string, number: int)
    ensures ExtensionItem(extendee, number) in ExtensionItems(x) <==>
            x.extendee == Some("." + extendee) && x.number == number
  {
    if x.extendee.Some? && x.extendee.value != "" && x.extendee.value[0] == '.' {
      assert x.extendee.value == "." + x.extendee.value[1..];
    }
    assert ("." + extendee)[0] == '.' && ("." + extendee)[1..] == extendee;
  }

  lemma {:induction false} NoSymbols(fs: seq<FieldProto>, name: string)
    ensures SymbolItem(name) !in AllExtensionItems(fs)
    decreases |fs|
  {
    if fs != [] {
      NoSymbols(fs[1..], name);
    }
  }

  /** The extensions inside a message are its own and those inside its nested messages. */
  lemma {:induction false} NestedIndexed(m: MessageProto, extendee: string, number: int, name: string)
    ensures SymbolItem(name) !in NestedExtensionItems(m)
    ensures ExtensionItem(extendee, number) in NestedExtensionItems(m) <==>
            || Extends(m.extensions, extendee, number)
            || ExtensionItem(extendee, number) in AllNestedExtensionItems(m.nested)
    decreases m, 1
  {
    hide AllExtensionItems, Extends;
    AllNestedIndexed(m.nested, extendee, number, name);
    ExtensionsIndexed(m.extensions, extendee, number);
    NoSymbols(m.extensions, name);
  }

  lemma {:induction false} AllNestedIndexed(ms: seq<MessageProto>, extendee: string, number: int, name: string)
    ensures SymbolItem(name) !in AllNestedExtensionItems(ms)
    ensures ExtensionItem(extendee, number) in AllNestedExtensionItems(ms) <==>
            exists i | 0 <= i < |ms| :: ExtensionItem(extendee, number) in NestedExtensionItems(ms[i])
    decreases ms, 0
  {
    hide NestedExtensionItems;
    if ms != [] {
      NestedIndexed(ms[0], extendee, number, name);
      AllNestedIndexed(ms[1..], extendee, number, name);
      assert forall i | 1 <= i < |ms| :: ms[i] == ms[1..][i - 1];
    }
  }

  /** At any depth: an extension inside one of the messages belongs to one of them or to one nested in them. */
  lemma {:induction false} ExtensionFound(scope: string, ms: seq<MessageProto>, extendee: string, number: int)
      returns (s: string, m: MessageProto)
    requires ExtensionItem(extendee, number) in AllNestedExtensionItems(ms)
    ensures MessageIn(scope, ms, s, m) && Extends(m.extensions, extendee, number)
    decreases ms
  {
    hide AllNestedExtensionItems, NestedExtensionItems, Extends;
    AllNestedIndexed(ms, extendee, number, "");
    var i: nat :| i < |ms| && ExtensionItem(extendee, number) in NestedExtensionItems(ms[i]);
    NestedIndexed(ms[i], extendee, number, "");
    if Extends(ms[i].extensions, extendee, number) {
      s, m := scope, ms[i];
    } else {
      s, m := ExtensionFound(Join(scope, ms[i].name), ms[i].nested, extendee, number);
    }
  }

  lemma {:induction false} ExtensionListed(scope: string, ms: seq<MessageProto>, extendee: string, number: int,
                                           s: string, m: MessageProto)
    requires MessageIn(scope, ms, s, m) && Extends(m.extensions, extendee, number)
    ensures ExtensionItem(extendee, number) in AllNestedExtensionItems(ms)
    decreases ms
  {
    hide AllNestedExtensionItems, NestedExtensionItems, Extends;
    AllNestedIndexed(ms, extendee, number, "");
    var i :| 0 <= i < |ms| && ((s == scope && m == ms[i]) || MessageIn(Join(scope, ms[i].name), ms[i].nested, s, m));
    NestedIndexed(ms[i], extendee, number, "");
    if !(s == scope && m == ms[i]) {
      ExtensionListed(Join(scope, ms[i].name), ms[i].nested, extendee, number, s, m);
    }
  }

  /** The items of messages are their own names, and the extensions inside them. */
  lemma {:induction false} MessagesIndexed(scope: string, ms: seq<MessageProto>, item: Item)
    ensures item in MessageItems(scope, ms) <==>
            || (exists x | x in ms :: item == SymbolItem(Join(scope, x.name)))
            || item in AllNestedExtensionItems(ms)
    decreases |ms|
  {
    hide NestedExtensionItems;
    if ms != [] {
      MessagesIndexed(scope, ms[1..], item);
      assert ms == [ms[0]] + ms[1..];
    }
  }

  lemma {:induction false} EnumsIndexed(scope: string, es: seq<EnumProto>, item: Item)
    ensures item in EnumItems(scope, es) <==> exists x | x in es :: item == SymbolItem(Join(scope, x.name))
    decreases |es|
  {
    if es != [] {
      EnumsIndexed(scope, es[1..], item);
      assert es == [es[0]] + es[1..];
    }
  }

  lemma {:induction false} ServicesIndexed(scope: string, ss: seq<ServiceProto>, item: Item)
    ensures item in ServiceItems(scope, ss) <==> exists x | x in ss :: item == SymbolItem(Join(scope, x.name))
    decreases |ss|
  {
    if ss != [] {
      ServicesIndexed(scope, ss[1..], item);
      assert ss == [ss[0]] + ss[1..];
    }
  }

  lemma {:induction false} FieldsIndexed(scope: string, fs: seq<FieldProto>, item: Item)
    ensures item in FieldItems(scope, fs) <==>
            || (exists x | x in fs :: item == SymbolItem(Join(scope, x.name)))
            || item in AllExtensionItems(fs)
    decreases |fs|
  {
    hide ExtensionItems;
    if fs != [] {
      FieldsIndexed(scope, fs[1..], item);
      assert fs == [fs[0]] + fs[1..];
    }
  }

  /** The symbols indexed are the top-level names of the file, and nothing else. */
  lemma SymbolsIndexed(f: FileProto, name: string)
    ensures SymbolItem(name) in FileItems(f) <==> IsTopLevelName(f, name)
  {
    hide MessageItems, EnumItems, FieldItems, ServiceItems, AllNestedExtensionItems, AllExtensionItems;
    MessagesIndexed(f.package, f.messages, SymbolItem(name));
    EnumsIndexed(f.package, f.enums, SymbolItem(name));
    FieldsIndexed(f.package, f.extensions, SymbolItem(name));
    ServicesIndexed(f.package, f.services, SymbolItem(name));
    AllNestedIndexed(f.messages, "", 0, name);
    NoSymbols(f.extensions, name);
  }

  /** The extensions indexed are those of the file and of its messages at any depth that are fully qualified. */
  lemma ExtensionsAreIndexed(f: FileProto, extendee: string, number: int)
    ensures ExtensionItem(extendee, number) in FileItems(f) <==>
            || Extends(f.extensions, extendee, number)
            || exists s, m :: HasMessage(f, s, m) && Extends(m.extensions, extendee, number)
  {
    hide MessageItems, EnumItems, FieldItems, ServiceItems, AllNestedExtensionItems, AllExtensionItems, Extends;
    var item := ExtensionItem(extendee, number);
    MessagesIndexed(f.package, f.messages, item);
    EnumsIndexed(f.package, f.enums, item);
    FieldsIndexed(f.package, f.extensions, item);
    ServicesIndexed(f.package, f.services, item);
    ExtensionsIndexed(f.extensions, extendee, number);
    if item in AllNestedExtensionItems(f.messages) {
      var s, m := ExtensionFound(f.package, f.messages, extendee, number);
      assert HasMessage(f, s, m);
    }
    forall s, m | HasMessage(f, s, m) && Extends(m.extensions, extendee, number)
      ensures item in AllNestedExtensionItems(f.messages)
    {
      ExtensionListed(f.package, f.messages, extendee, number, s, m);
    }
  }
}
