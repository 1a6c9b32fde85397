/** The index of a descriptor database: files by name, by symbol and by extension. */
module DescriptorIndexes {
  import opened Descriptors
  import opened Names
  import opened Ordering
  import opened SymbolIndex
  import opened Wrappers
  import E = ExtensionIndex

  datatype Index<V> = Index(files: map<string, V>, symbols: seq<Entry<V>>, extensions: seq<E.ExtensionEntry<V>>)

  /** What a file contributes to the index besides its name, in order. */
  datatype Item = SymbolItem(name: string) | ExtensionItem(extendee: string, number: int)

  // ----- the contributions of a file -----

  /** Only an extension whose extendee is fully qualified can be indexed. */
  function ExtensionItems(f: FieldProto): seq<Item> {
    if f.extendee.Some? && f.extendee.value != "" && f.extendee.value[0] == '.' then
      [ExtensionItem(f.extendee.value[1..], f.number)]
    else []
  }

  function AllExtensionItems(fs: seq<FieldProto>): seq<Item> {
    if fs == [] then [] else ExtensionItems(fs[0]) + AllExtensionItems(fs[1..])
  }

  /** The extensions declared anywhere inside a message; the nested messages come first. */
  function NestedExtensionItems(m: MessageProto): seq<Item>
    decreases m, 1
  {
    AllNestedExtensionItems(m.nested) + AllExtensionItems(m.extensions)
  }

  function AllNestedExtensionItems(ms: seq<MessageProto>): seq<Item>
    decreases ms, 0
  {
    if ms == [] then [] else NestedExtensionItems(ms[0]) + AllNestedExtensionItems(ms[1..])
  }

  function MessageItems(scope: string, ms: seq<MessageProto>): seq<Item> {
    if ms == [] then []
    else [SymbolItem(Join(scope, ms[0].name))] + NestedExtensionItems(ms[0]) + MessageItems(scope, ms[1..])
  }

  function EnumItems(scope: string, es: seq<EnumProto>): seq<Item> {
    if es == [] then [] else [SymbolItem(Join(scope, es[0].name))] + EnumItems(scope, es[1..])
  }

  function FieldItems(scope: string, fs: seq<FieldProto>): seq<Item> {
    if fs == [] then []
    else [SymbolItem(Join(scope, fs[0].name))] + ExtensionItems(fs[0]) + FieldItems(scope, fs[1..])
  }

  function ServiceItems(scope: string, ss: seq<ServiceProto>): seq<Item> {
    if ss == [] then [] else [SymbolItem(Join(scope, ss[0].name))] + ServiceItems(scope, ss[1..])
  }

  function FileItems(f: FileProto): seq<Item> {
    MessageItems(f.package, f.messages) + EnumItems(f.package, f.enums) +
    FieldItems(f.package, f.extensions) + ServiceItems(f.package, f.services)
  }

  // ----- adding -----

  datatype Outcome<V> = Outcome(index: Index<V>, ok: bool)

  function AddItem<V>(ix: Index<V>, item: Item, value: V): Outcome<V> {
    match item
    case SymbolItem(name) =>
      if Admits(ix.symbols, name) then Outcome(ix.(symbols := Insert(ix.symbols, name, value)), true)
      else Outcome(ix, false)
    case ExtensionItem(extendee, number) =>
      if E.Find(ix.extensions, (extendee, number)).None? then
        Outcome(ix.(extensions := E.Insert(ix.extensions, (extendee, number), value)), true)
      else Outcome(ix, false)
  }

  /** Adds items one by one until one is refused; what was added before stays. */
  function AddItems<V>(ix: Index<V>, items: seq<Item>, value: V): Outcome<V>
    decreases |items|
  {
    if items == [] then Outcome(ix, true)
    else
      var first := AddItem(ix, items[0], value);
      if first.ok then AddItems(first.index, items[1..], value) else first
  }

  function WithFile<V>(ix: Index<V>, f: FileProto, value: V): Outcome<V> {
    if f.name in ix.files then Outcome(ix, false)
    else AddItems(ix.(files := ix.files[f.name := value]), FileItems(f), value)
  }

  lemma {:induction false} AddItemsAppend<V>(ix: Index<V>, a: seq<Item>, b: seq<Item>, value: V)
    ensures AddItems(ix, a + b, value) ==
            if AddItems(ix, a, value).ok then AddItems(AddItems(ix, a, value).index, b, value)
              else AddItems(ix, a, value)
    decreases |a|
  {
    if a == [] {
      assert a + b == b;
    } else {
      assert (a + b)[0] == a[0] && (a + b)[1..] == a[1..] + b;
      var first := AddItem(ix, a[0], value);
      if first.ok {
        AddItemsAppend(first.index, a[1..], b, value);
      }
    }
  }

  lemma AddOneItem<V>(ix: Index<V>, item: Item, value: V)
    ensures AddItems(ix, [item], value) == AddItem(ix, item, value)
  {
  }

  /** An item can be added: a symbol that the neighbour test admits, an extension whose key is not taken. */
  predicate CanAdd<V>(ix: Index<V>, item: Item) {
    match item
    case SymbolItem(name) => Admits(ix.symbols, name)
    case ExtensionItem(extendee, number) =>
      forall i | 0 <= i < |ix.extensions| :: ix.extensions[i].key != (extendee, number)
  }

  /** Adding an item succeeds if and only if it can be added, and changes nothing otherwise. */
  lemma AddItemMeans<V>(ix: Index<V>, item: Item, value: V)
    requires E.IsSorted(ix.extensions)
    ensures AddItem(ix, item, value).ok <==> CanAdd(ix, item)
    ensures !CanAdd(ix, item) ==> AddItem(ix, item, value).index == ix
    ensures AddItem(ix, item, value).index.files == ix.files
    ensures CanAdd(ix, item) && item.SymbolItem? ==>
              AddItem(ix, item, value).index.symbols == Insert(ix.symbols, item.name, value)
    ensures E.IsSorted(AddItem(ix, item, value).index.extensions)
  {
    if item.ExtensionItem? {
      E.FindIsLookup(ix.extensions, (item.extendee, item.number));
      E.InsertKeepsSorted(ix.extensions, (item.extendee, item.number), value);
    }
  }

  /**
   Adding a file succeeds if and only if its name is new and each of its items can be added when its turn comes,
   the earlier ones being in the index by then.
   */
  lemma WithFileMeans<V>(ix: Index<V>, f: FileProto, value: V)
    requires E.IsSorted(ix.extensions)
    ensures WithFile(ix, f, value).ok <==>
            && f.name !in ix.files
            && var ix' := ix.(files := ix.files[f.name := value]);
               forall k | 0 <= k < |FileItems(f)| ::
                 CanAdd(AddItems(ix', FileItems(f)[..k], value).index, FileItems(f)[k])
  {
    AddItemsMean(ix.(files := ix.files[f.name := value]), FileItems(f), value);
  }

  lemma {:induction false} AddItemsMean<V>(ix: Index<V>, items: seq<Item>, value: V)
    requires E.IsSorted(ix.extensions)
    ensures AddItems(ix, items, value).ok <==>
            forall k | 0 <= k < |items| :: CanAdd(AddItems(ix, items[..k], value).index, items[k])
    decreases |items|
  {
    hide AddItem, CanAdd;
    if items != [] {
      AddItemMeans(ix, items[0], value);
      assert AddItems(ix, items[..0], value).index == ix;
      var first := AddItem(ix, items[0], value);
      if first.ok {
        AddItemsMean(first.index, items[1..], value);
        forall k | 0 <= k < |items| - 1
          ensures AddItems(first.index, items[1..][..k], value) == AddItems(ix, items[..k + 1], value)
          ensures items[1..][k] == items[k + 1]
        {
          assert items[..k + 1][1..] == items[1..][..k];
        }
        assert forall k | 1 <= k < |items| :: items[k] == items[1..][k - 1];
      }
    }
  }

  // ----- what a successful addition means -----

  ghost predicate IsGood<V>(ix: Index<V>) {
    IsIndex(ix.symbols) && E.IsSorted(ix.extensions)
  }

  /** No symbol among the items is overlooked by the conflict test when its turn comes. */
  predicate NeverOverlooks<V>(ix: Index<V>, items: seq<Item>, value: V)
    decreases |items|
  {
    items == [] || (
      && (items[0].SymbolItem? ==> !Overlooks(ix.symbols, items[0].name))
      && (AddItem(ix, items[0], value).ok ==> NeverOverlooks(AddItem(ix, items[0], value).index, items[1..], value)))
  }

  /** Everything that could be found can still be found, with the same value. */
  ghost predicate FindsAll<V>(ix: Index<V>, ix': Index<V>) {
    && (forall q: string | FindSymbol(ix.symbols, q).Some? :: FindSymbol(ix'.symbols, q) == FindSymbol(ix.symbols, q))
    && (forall k: Key | E.Find(ix.extensions, k).Some? :: E.Find(ix'.extensions, k) == E.Find(ix.extensions, k))
  }

  /** The item is found, and so is everything below a symbol. */
  ghost predicate Finds<V>(ix: Index<V>, item: Item, value: V) {
    match item
    case SymbolItem(name) => forall q: string | IsDottedPrefix(name, q) :: FindSymbol(ix.symbols, q) == Some(value)
    case ExtensionItem(extendee, number) => E.Find(ix.extensions, (extendee, number)) == Some(value)
  }

  /** An admitted name is new, so it is put between its neighbours. */
  lemma AdmittedIsInserted<V>(m: seq<Entry<V>>, name: string, value: V)
    requires Admits(m, name)
    ensures Insert(m, name, value) == m[..UpperBound(m, name)] + [Entry(name, value)] + m[UpperBound(m, name)..]
  {
  }

  /** In a good map with one more key, the new key finds its value and the old ones theirs. */
  lemma FindAfterInsert<V>(m: seq<Entry<V>>, name: string, value: V, q: string)
    requires IsIndex(m) && IsIndex(Insert(m, name, value)) && Admits(m, name)
    ensures IsDottedPrefix(name, q) ==> FindSymbol(Insert(m, name, value), q) == Some(value)
    ensures FindSymbol(m, q).Some? ==> FindSymbol(Insert(m, name, value), q) == FindSymbol(m, q)
  {
    hide FindSymbol, IsDottedPrefix, IsIndex, Admits, Insert;
    var m' := Insert(m, name, value);
    var r := UpperBound(m, name);
    AdmittedIsInserted(m, name, value);
    FindSymbolIsScan(m, q);
    FindSymbolIsScan(m', q);
    assert m'[r] == Entry(name, value);
    if FindSymbol(m, q).Some? {
      var i :| 0 <= i < |m| && IsDottedPrefix(m[i].key, q) && FindSymbol(m, q) == Some(m[i].value);
      assert m'[if i < r then i else i + 1] == m[i];
    }
  }

  lemma AddItemKeepsGood<V>(ix: Index<V>, item: Item, value: V)
    requires IsGood(ix) && (item.SymbolItem? ==> !Overlooks(ix.symbols, item.name))
    ensures var r := AddItem(ix, item, value);
            IsGood(r.index) && FindsAll(ix, r.index) && (r.ok ==> Finds(r.index, item, value))
  {
    match item
    case SymbolItem(name) =>
      if Admits(ix.symbols, name) {
        InsertKeepsIndex(ix.symbols, name, value);
        forall q: string {
          FindAfterInsert(ix.symbols, name, value, q);
        }
      }
    case ExtensionItem(extendee, number) =>
      E.InsertKeepsSorted(ix.extensions, (extendee, number), value);
      forall k: Key {
        E.FindAfterInsert(ix.extensions, (extendee, number), value, k);
      }
  }

  lemma {:induction false} AddItemsKeepsGood<V>(ix: Index<V>, items: seq<Item>, value: V)
    requires IsGood(ix) && NeverOverlooks(ix, items, value)
    ensures var r := AddItems(ix, items, value);
            IsGood(r.index) && FindsAll(ix, r.index) &&
            (r.ok ==> forall item | item in items :: Finds(r.index, item, value))
    decreases |items|
  {
    if items != [] {
      hide FindSymbol, IsDottedPrefix, IsIndex, Overlooks, AddItem;
      var first := AddItem(ix, items[0], value);
      AddItemKeepsGood(ix, items[0], value);
      if first.ok {
        AddItemsKeepsGood(first.index, items[1..], value);
        var r := AddItems(ix, items, value);
        assert r == AddItems(first.index, items[1..], value);
        FindsLater(first.index, r.index, items[0], value);
      }
    }
  }

  lemma FindsLater<V>(ix: Index<V>, ix': Index<V>, item: Item, value: V)
    requires Finds(ix, item, value) && FindsAll(ix, ix')
    ensures Finds(ix', item, value)
  {
  }

  /**
   Adding a file to a good index with nothing overlooked leaves it good, and whatever it could find it
   still finds. If the file is accepted, its name, each of its top-level symbols and anything below
   one, and each of its fully qualified extensions now lead to it.
   */
  lemma {:induction false} AddedFileIsFound<V>(ix: Index<V>, f: FileProto, value: V)
    requires IsGood(ix) && NeverOverlooks(ix.(files := ix.files[f.name := value]), FileItems(f), value)
    ensures var r := WithFile(ix, f, value);
            && IsGood(r.index) && FindsAll(ix, r.index)
            && (forall n | n in ix.files :: n in r.index.files && r.index.files[n] == ix.files[n])
            && (r.ok ==>
                 && f.name in r.index.files && r.index.files[f.name] == value
                 && forall item | item in FileItems(f) :: Finds(r.index, item, value))
  {
    hide FindSymbol, IsDottedPrefix, IsIndex, Overlooks, AddItem, FileItems;
    var ix' := ix.(files := ix.files[f.name := value]);
    AddItemsKeepsGood(ix', FileItems(f), value);
    AddItemsKeepsFiles(ix', FileItems(f), value);
  }

  lemma {:induction false} AddItemsKeepsFiles<V>(ix: Index<V>, items: seq<Item>, value: V)
    ensures AddItems(ix, items, value).index.files == ix.files
    decreases |items|
  {
    if items != [] && AddItem(ix, items[0], value).ok {
      AddItemsKeepsFiles(AddItem(ix, items[0], value).index, items[1..], value);
    }
  }

  class DescriptorIndex<V(==)> {
    var byName: map<string, V>
    var bySymbol: seq<Entry<V>>
    var byExtension: seq<E.ExtensionEntry<V>>

    constructor ()
      ensures Contents() == Index(map[], [], [])
    {
      byName, bySymbol, byExtension := map[], [], [];
    }

    ghost function Contents(): Index<V>
      reads this
    {
      Index(byName, bySymbol, byExtension)
    }

    method AddSymbol(name: string, value: V) returns (ok: bool)
      modifies this`bySymbol
      ensures Outcome(Contents(), ok) == AddItem(old(Contents()), SymbolItem(name), value)
    {
      if !ValidateSymbolName(name) {
        return false;
      }
      var iter := FindLastLessOrEqual(bySymbol, name);
      if iter == |bySymbol| {
        bySymbol := SymbolIndex.Insert(bySymbol, name, value);
        return true;
      }
      if IsDottedPrefix(bySymbol[iter].key, name) {
        return false;
      }
      iter := iter + 1;
      if iter != |bySymbol| && IsDottedPrefix(name, bySymbol[iter].key) {
        return false;
      }
      bySymbol := SymbolIndex.Insert(bySymbol, name, value);
      return true;
    }

    method AddExtension(f: FieldProto, value: V) returns (ok: bool)
      modifies this`byExtension
      ensures Outcome(Contents(), ok) == AddItems(old(Contents()), ExtensionItems(f), value)
    {
      if f.extendee.Some? && f.extendee.value != "" && f.extendee.value[0] == '.' {
        var key := (f.extendee.value[1..], f.number);
        AddOneItem(Contents(), ExtensionItem(key.0, key.1), value);
        if E.Find(byExtension, key).Some? {
          return false;
        }
        byExtension := E.Insert(byExtension, key, value);
      }
      return true;
    }

    method AddExtensions(fs: seq<FieldProto>, value: V) returns (ok: bool)
      modifies this`byExtension
      ensures Outcome(Contents(), ok) == AddItems(old(Contents()), AllExtensionItems(fs), value)
    {
      ghost var target := AddItems(Contents(), AllExtensionItems(fs), value);
      var i := 0;
      assert fs[0..] == fs;
      while i < |fs|
        invariant i <= |fs| && byName == old(byName) && bySymbol == old(bySymbol)
        invariant target == AddItems(Contents(), AllExtensionItems(fs[i..]), value)
      {
        assert fs[i..][1..] == fs[i + 1..];
        AddItemsAppend(Contents(), ExtensionItems(fs[i]), AllExtensionItems(fs[i + 1..]), value);
        ok := AddExtension(fs[i], value);
        if !ok {
          return;
        }
        i := i + 1;
      }
      ok := true;
    }

    method AddNestedExtensions(m: MessageProto, value: V) returns (ok: bool)
      modifies this`byExtension
      ensures Outcome(Contents(), ok) == AddItems(old(Contents()), NestedExtensionItems(m), value)
      decreases m, 1
    {
      AddItemsAppend(Contents(), AllNestedExtensionItems(m.nested), AllExtensionItems(m.extensions), value);
      ok := AddAllNestedExtensions(m.nested, value);
      if ok {
        ok := AddExtensions(m.extensions, value);
      }
    }

    method AddAllNestedExtensions(ms: seq<MessageProto>, value: V) returns (ok: bool)
      modifies this`byExtension
      ensures Outcome(Contents(), ok) == AddItems(old(Contents()), AllNestedExtensionItems(ms), value)
      decreases ms, 0
    {
      ghost var target := AddItems(Contents(), AllNestedExtensionItems(ms), value);
      var i := 0;
      assert ms[0..] == ms;
      while i < |ms|
        invariant i <= |ms| && byName == old(byName) && bySymbol == old(bySymbol)
        invariant target == AddItems(Contents(), AllNestedExtensionItems(ms[i..]), value)
      {
        assert ms[i..][1..] == ms[i + 1..];
        AddItemsAppend(Contents(), NestedExtensionItems(ms[i]), AllNestedExtensionItems(ms[i + 1..]), value);
        ok := AddNestedExtensions(ms[i], value);
        if !ok {
          return;
        }
        i := i + 1;
      }
      ok := true;
    }

    method AddMessages(scope: string, ms: seq<MessageProto>, value: V) returns (ok: bool)
      modifies this`bySymbol, this`byExtension
      ensures Outcome(Contents(), ok) == AddItems(old(Contents()), MessageItems(scope, ms), value)
    {
      hide AddItem;
      ghost var target := AddItems(Contents(), MessageItems(scope, ms), value);
      var i := 0;
      assert ms[0..] == ms;
      while i < |ms|
        invariant i <= |ms| && byName == old(byName)
        invariant target == AddItems(Contents(), MessageItems(scope, ms[i..]), value)
      {
        var symbol := SymbolItem(Join(scope, ms[i].name));
        assert ms[i..][1..] == ms[i + 1..];
        AddItemsAppend(Contents(), [symbol] + NestedExtensionItems(ms[i]), MessageItems(scope, ms[i + 1..]), value);
        AddItemsAppend(Contents(), [symbol], NestedExtensionItems(ms[i]), value);
        AddOneItem(Contents(), symbol, value);
        ok := AddSymbol(symbol.name, value);
        if !ok {
          return;
        }
        ok := AddNestedExtensions(ms[i], value);
        if !ok {
          return;
        }
        i := i + 1;
      }
      ok := true;
    }

    method AddEnums(scope: string, es: seq<EnumProto>, value: V) returns (ok: bool)
      modifies this`bySymbol
      ensures Outcome(Contents(), ok) == AddItems(old(Contents()), EnumItems(scope, es), value)
    {
      hide AddItem;
      ghost var target := AddItems(Contents(), EnumItems(scope, es), value);
      var i := 0;
      assert es[0..] == es;
      while i < |es|
        invariant i <= |es| && byName == old(byName) && byExtension == old(byExtension)
        invariant target == AddItems(Contents(), EnumItems(scope, es[i..]), value)
      {
        var symbol := SymbolItem(Join(scope, es[i].name));
        assert es[i..][1..] == es[i + 1..];
        AddItemsAppend(Contents(), [symbol], EnumItems(scope, es[i + 1..]), value);
        AddOneItem(Contents(), symbol, value);
        ok := AddSymbol(symbol.name, value);
        if !ok {
          return;
        }
        i := i + 1;
      }
      ok := true;
    }

    method AddFileExtensions(scope: string, fs: seq<FieldProto>, value: V) returns (ok: bool)
      modifies this`bySymbol, this`byExtension
      ensures Outcome(Contents(), ok) == AddItems(old(Contents()), FieldItems(scope, fs), value)
    {
      hide AddItem;
      ghost var target := AddItems(Contents(), FieldItems(scope, fs), value);
      var i := 0;
      assert fs[0..] == fs;
      while i < |fs|
        invariant i <= |fs| && byName == old(byName)
        invariant target == AddItems(Contents(), FieldItems(scope, fs[i..]), value)
      {
        var symbol := SymbolItem(Join(scope, fs[i].name));
        assert fs[i..][1..] == fs[i + 1..];
        AddItemsAppend(Contents(), [symbol] + ExtensionItems(fs[i]), FieldItems(scope, fs[i + 1..]), value);
        AddItemsAppend(Contents(), [symbol], ExtensionItems(fs[i]), value);
        AddOneItem(Contents(), symbol, value);
        ok := AddSymbol(symbol.name, value);
        if !ok {
          return;
        }
        ok := AddExtension(fs[i], value);
        if !ok {
          return;
        }
        i := i + 1;
      }
      ok := true;
    }

    method AddServices(scope: string, ss: seq<ServiceProto>, value: V) returns (ok: bool)
      modifies this`bySymbol
      ensures Outcome(Contents(), ok) == AddItems(old(Contents()), ServiceItems(scope, ss), value)
    {
      hide AddItem;
      ghost var target := AddItems(Contents(), ServiceItems(scope, ss), value);
      var i := 0;
      assert ss[0..] == ss;
      while i < |ss|
        invariant i <= |ss| && byName == old(byName) && byExtension == old(byExtension)
        invariant target == AddItems(Contents(), ServiceItems(scope, ss[i..]), value)
      {
        var symbol := SymbolItem(Join(scope, ss[i].name));
        assert ss[i..][1..] == ss[i + 1..];
        AddItemsAppend(Contents(), [symbol], ServiceItems(scope, ss[i + 1..]), value);
        AddOneItem(Contents(), symbol, value);
        ok := AddSymbol(symbol.name, value);
        if !ok {
          return;
        }
        i := i + 1;
      }
      ok := true;
    }

    method AddFile(f: FileProto, value: V) returns (ok: bool)
      modifies this
      ensures Outcome(Contents(), ok) == WithFile(old(Contents()), f, value)
    {
      hide AddItem, MessageItems, EnumItems, FieldItems, ServiceItems, AddItems;
      if f.name in byName {
        return false;
      }
      byName := byName[f.name := value];
      ghost var ix := Contents();
      var scope := f.package;
      ghost var a, b, c, d := MessageItems(scope, f.messages), EnumItems(scope, f.enums),
        FieldItems(scope, f.extensions), ServiceItems(scope, f.services);
      AddItemsAppend(ix, a + b + c, d, value);
      AddItemsAppend(ix, a + b, c, value);
      AddItemsAppend(ix, a, b, value);
      ok := AddMessages(scope, f.messages, value);
      if !ok {
        return;
      }
      ok := AddEnums(scope, f.enums, value);
      if !ok {
        return;
      }
      ok := AddFileExtensions(scope, f.extensions, value);
      if !ok {
        return;
      }
      ok := AddServices(scope, f.services, value);
    }

    /** Appends the numbers that extend `message`, reading the sorted map from its first key on. */
    method FindAllExtensionNumbers(message: string, output: seq<int>) returns (success: bool, output': seq<int>)
      requires E.IsSorted(byExtension)
      ensures output <= output' && E.ListsNumbers(byExtension, message, output'[|output|..])
      ensures success <==> output' != output
    {
      hide E.IsSorted, E.ListsNumbers, E.LowerBound;
      var lo := E.LowerBound(byExtension, (message, 0));
      var it := lo;
      output' := output;
      success := false;
      while it != |byExtension| && byExtension[it].key.0 == message
        invariant lo <= it <= |byExtension| && output <= output'
        invariant E.Listed(byExtension, message, lo, it, output'[|output|..])
        invariant success <==> it > lo
        decreases |byExtension| - it
      {
        assert (output' + [byExtension[it].key.1])[|output|..] == output'[|output|..] + [byExtension[it].key.1];
        output' := output' + [byExtension[it].key.1];
        success := true;
        it := it + 1;
      }
      E.ListedIsAll(byExtension, message, it, output'[|output|..]);
    }
  }
}
