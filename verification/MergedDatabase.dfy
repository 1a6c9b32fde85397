/** A database made of several others, tried in order. */
module MergedDatabases {
  import opened Descriptors
  import opened DescriptorIndexes
  import opened Ordering
  import opened SymbolIndex
  import opened Wrappers
  import E = ExtensionIndex

  /** What a source answers; a request that fails gives nothing. */
  datatype Source = Source(
    byName: string -> Option<FileProto>,
    bySymbol: string -> Option<FileProto>,
    byExtension: Key -> Option<FileProto>,
    numbers: string -> Option<seq<int>>)
  {
    function Ask(q: Query): Option<FileProto> {
      match q
      case BySymbol(symbol) => bySymbol(symbol)
      case ByExtension(key) => byExtension(key)
    }
  }

  /** What a file can be asked for, other than its name. */
  datatype Query = BySymbol(symbol: string) | ByExtension(key: Key)

  /** A file found by symbol or by extension is the file found by its name. */
  ghost predicate IsSelfConsistent(s: Source) {
    forall q | s.Ask(q).Some? :: s.byName(s.Ask(q).value.name) == s.Ask(q)
  }

  // ----- the merged answers -----

  function MergedByName(sources: seq<Source>, name: string): Option<FileProto> {
    if sources == [] then None
    else if sources[0].byName(name).Some? then sources[0].byName(name)
    else MergedByName(sources[1..], name)
  }

  /** The first source with an answer decides, unless an earlier one has another file of that name. */
  function MergedBy(sources: seq<Source>, q: Query): Option<FileProto> {
    if sources == [] then None
    else if sources[0].Ask(q).Some? then sources[0].Ask(q)
    else Unhidden(sources[0], MergedBy(sources[1..], q))
  }

  /** A later source's file is hidden by an earlier source that has a file of that name. */
  function Unhidden(earlier: Source, found: Option<FileProto>): Option<FileProto> {
    if found.Some? && earlier.byName(found.value.name).Some? then None else found
  }

  ghost predicate AllSelfConsistent(sources: seq<Source>) {
    forall i | 0 <= i < |sources| :: IsSelfConsistent(sources[i])
  }

  /** The merged views agree: a file found by symbol or by extension is the one found by its name. */
  lemma {:induction false} MergedViewsAgree(sources: seq<Source>, q: Query)
    requires AllSelfConsistent(sources)
    ensures var f := MergedBy(sources, q); f.Some? ==> MergedByName(sources, f.value.name) == f
    decreases |sources|
  {
    if sources != [] {
      assert IsSelfConsistent(sources[0]);
      MergedViewsAgree(sources[1..], q);
    }
  }

  /** So a merged database is a self-consistent source itself, and can be merged again. */
  lemma MergedIsSelfConsistent(sources: seq<Source>, numbers: string -> Option<seq<int>>)
    requires AllSelfConsistent(sources)
    ensures IsSelfConsistent(Source(
              name => MergedByName(sources, name),
              symbol => MergedBy(sources, BySymbol(symbol)),
              key => MergedBy(sources, ByExtension(key)),
              numbers))
  {
    var m := Source(
      name => MergedByName(sources, name),
      symbol => MergedBy(sources, BySymbol(symbol)),
      key => MergedBy(sources, ByExtension(key)),
      numbers);
    forall q | m.Ask(q).Some?
      ensures m.byName(m.Ask(q).value.name) == m.Ask(q)
    {
      MergedViewsAgree(sources, q);
      assert m.Ask(q) == MergedBy(sources, q);
    }
  }

  /** The answer is that of the first source to have one, if no earlier source knows the file's name. */
  lemma {:induction false} MergedByMeans(sources: seq<Source>, q: Query, f: FileProto)
    ensures MergedBy(sources, q) == Some(f) <==>
            exists i | 0 <= i < |sources| ::
              && sources[i].Ask(q) == Some(f)
              && forall j | 0 <= j < i :: sources[j].Ask(q).None? && sources[j].byName(f.name).None?
    decreases |sources|
  {
    if sources != [] {
      var rest := sources[1..];
      MergedByMeans(rest, q, f);
      if sources[0].Ask(q).None? {
        if i :| 0 <= i < |rest| && rest[i].Ask(q) == Some(f) &&
                forall j | 0 <= j < i :: rest[j].Ask(q).None? && rest[j].byName(f.name).None? {
          if sources[0].byName(f.name).None? {
            assert sources[i + 1].Ask(q) == Some(f);
            forall j | 0 <= j < i + 1
              ensures sources[j].Ask(q).None? && sources[j].byName(f.name).None?
            {
              assert j > 0 ==> rest[j - 1] == sources[j];
            }
          }
        }
        if i :| 0 <= i < |sources| && sources[i].Ask(q) == Some(f) &&
                forall j | 0 <= j < i :: sources[j].Ask(q).None? && sources[j].byName(f.name).None? {
          assert rest[i - 1].Ask(q) == Some(f);
          assert forall j | 0 <= j < i - 1 :: rest[j] == sources[j + 1];
        }
      }
    }
  }

  /** The answer by name is that of the first source to have one. */
  lemma {:induction false} MergedByNameMeans(sources: seq<Source>, name: string, f: FileProto)
    ensures MergedByName(sources, name) == Some(f) <==>
            exists i | 0 <= i < |sources| ::
              && sources[i].byName(name) == Some(f)
              && forall j | 0 <= j < i :: sources[j].byName(name).None?
    decreases |sources|
  {
    if sources != [] && sources[0].byName(name).None? {
      var rest := sources[1..];
      MergedByNameMeans(rest, name, f);
      if i :| 0 <= i < |rest| && rest[i].byName(name) == Some(f) &&
              forall j | 0 <= j < i :: rest[j].byName(name).None? {
        assert sources[i + 1].byName(name) == Some(f);
        assert forall j | 1 <= j < i + 1 :: sources[j] == rest[j - 1];
      }
      if i :| 0 <= i < |sources| && sources[i].byName(name) == Some(f) &&
              forall j | 0 <= j < i :: sources[j].byName(name).None? {
        assert rest[i - 1].byName(name) == Some(f);
        assert forall j | 0 <= j < i - 1 :: rest[j] == sources[j + 1];
      }
    }
  }

  // ----- the index of a simple database is a self-consistent source -----

  /** Every file of the index by symbol or extension is in it by name. */
  ghost predicate ValuesAreNamed(ix: Index<FileProto>) {
    && (forall i | 0 <= i < |ix.symbols| :: IsNamed(ix.files, ix.symbols[i].value))
    && (forall i | 0 <= i < |ix.extensions| :: IsNamed(ix.files, ix.extensions[i].value))
  }

  predicate IsNamed(files: map<string, FileProto>, f: FileProto) {
    f.name in files && files[f.name] == f
  }

  lemma AddItemKeepsNamed(ix: Index<FileProto>, item: Item, f: FileProto)
    requires ValuesAreNamed(ix) && IsNamed(ix.files, f)
    ensures ValuesAreNamed(AddItem(ix, item, f).index) && AddItem(ix, item, f).index.files == ix.files
  {
  }

  lemma {:induction false} AddItemsKeepsNamed(ix: Index<FileProto>, items: seq<Item>, f: FileProto)
    requires ValuesAreNamed(ix) && IsNamed(ix.files, f)
    ensures ValuesAreNamed(AddItems(ix, items, f).index)
    decreases |items|
  {
    hide ValuesAreNamed, AddItem, IsNamed;
    if items != [] {
      AddItemKeepsNamed(ix, items[0], f);
      if AddItem(ix, items[0], f).ok {
        AddItemsKeepsNamed(AddItem(ix, items[0], f).index, items[1..], f);
      }
    }
  }

  lemma AddFileKeepsNamed(ix: Index<FileProto>, f: FileProto)
    requires ValuesAreNamed(ix)
    ensures ValuesAreNamed(WithFile(ix, f, f).index)
  {
    if f.name !in ix.files {
      AddItemsKeepsNamed(ix.(files := ix.files[f.name := f]), FileItems(f), f);
    }
  }

  function SimpleSource(ix: Index<FileProto>, numbers: string -> Option<seq<int>>): Source {
    Source(name => if name in ix.files then Some(ix.files[name]) else None,
           symbol => FindSymbol(ix.symbols, symbol),
           key => E.Find(ix.extensions, key),
           numbers)
  }

  /** Whatever files were added to it, and whether or not they were accepted, a simple database is self-consistent. */
  lemma SimpleIsSelfConsistent(ix: Index<FileProto>, numbers: string -> Option<seq<int>>)
    requires ValuesAreNamed(ix)
    ensures IsSelfConsistent(SimpleSource(ix, numbers))
  {
  }

  // ----- the loops -----

  method FindFileByName(sources: seq<Source>, name: string, output: FileProto) returns (found: bool, output': FileProto)
    ensures found <==> MergedByName(sources, name).Some?
    ensures output' == if found then MergedByName(sources, name).value else output
  {
    var i := 0;
    assert sources[0..] == sources;
    while i < |sources|
      invariant i <= |sources| && MergedByName(sources, name) == MergedByName(sources[i..], name)
    {
      var answer := sources[i].byName(name);
      if answer.Some? {
        return true, answer.value;
      }
      assert sources[i..][1..] == sources[i + 1..];
      i := i + 1;
    }
    return false, output;
  }

  /** Whether one of the first `n` sources has a file of that name. */
  method IsHidden(sources: seq<Source>, n: nat, name: string) returns (hidden: bool)
    requires n <= |sources|
    ensures hidden <==> exists j | 0 <= j < n :: sources[j].byName(name).Some?
  {
    var j := 0;
    while j < n
      invariant j <= n && forall k | 0 <= k < j :: sources[k].byName(name).None?
    {
      if sources[j].byName(name).Some? {
        return true;
      }
      j := j + 1;
    }
    return false;
  }

  /** Finds a file by symbol; when the file is hidden, its text has been written to the output all the same. */
  method FindFileContainingSymbol(sources: seq<Source>, symbol: string, output: FileProto)
    returns (found: bool, output': FileProto)
    ensures found <==> MergedBy(sources, BySymbol(symbol)).Some?
    ensures found ==> MergedBy(sources, BySymbol(symbol)) == Some(output')
  {
    ghost var q := BySymbol(symbol);
    var i := 0;
    while i < |sources|
      invariant i <= |sources| && forall j | 0 <= j < i :: sources[j].Ask(q).None?
    {
      var answer := sources[i].bySymbol(symbol);
      if answer.Some? {
        var hidden := IsHidden(sources, i, answer.value.name);
        FirstAnswerDecides(sources, q, i);
        return !hidden, answer.value;
      }
      i := i + 1;
    }
    NoAnswer(sources, q);
    return false, output;
  }

  /** The same by extension. */
  method FindFileContainingExtension(sources: seq<Source>, message: string, number: int, output: FileProto)
    returns (found: bool, output': FileProto)
    ensures found <==> MergedBy(sources, ByExtension((message, number))).Some?
    ensures found ==> MergedBy(sources, ByExtension((message, number))) == Some(output')
  {
    ghost var q := ByExtension((message, number));
    var i := 0;
    while i < |sources|
      invariant i <= |sources| && forall j | 0 <= j < i :: sources[j].Ask(q).None?
    {
      var answer := sources[i].byExtension((message, number));
      if answer.Some? {
        var hidden := IsHidden(sources, i, answer.value.name);
        FirstAnswerDecides(sources, q, i);
        return !hidden, answer.value;
      }
      i := i + 1;
    }
    NoAnswer(sources, q);
    return false, output;
  }

  lemma FirstAnswerDecides(sources: seq<Source>, q: Query, i: nat)
    requires i < |sources| && sources[i].Ask(q).Some?
    requires forall j | 0 <= j < i :: sources[j].Ask(q).None?
    ensures MergedBy(sources, q) ==
            if exists j | 0 <= j < i :: sources[j].byName(sources[i].Ask(q).value.name).Some? then None
            else sources[i].Ask(q)
  {
    var f := sources[i].Ask(q).value;
    var r := MergedBy(sources, q);
    MergedByMeans(sources, q, f);
    if r.Some? {
      MergedByMeans(sources, q, r.value);
      var k :| 0 <= k < |sources| && sources[k].Ask(q) == Some(r.value) &&
               forall j | 0 <= j < k :: sources[j].Ask(q).None? && sources[j].byName(r.value.name).None?;
      assert k == i;
    }
  }

  lemma NoAnswer(sources: seq<Source>, q: Query)
    requires forall j | 0 <= j < |sources| :: sources[j].Ask(q).None?
    ensures MergedBy(sources, q).None?
  {
  }

  // ----- extension numbers -----

  function Elements(q: seq<int>): set<int> {
    set x | x in q
  }

  /** The numbers given by the sources that succeed. */
  function UnionOfNumbers(sources: seq<Source>, message: string): set<int> {
    if sources == [] then {}
    else
      var rest := UnionOfNumbers(sources[..|sources| - 1], message);
      var last := sources[|sources| - 1].numbers(message);
      if last.Some? then rest + Elements(last.value) else rest
  }

  predicate IsAscending(q: seq<int>) {
    forall i, j | 0 <= i < j < |q| :: q[i] < q[j]
  }

  /** Inserts into an ordered set of numbers, kept as an ascending sequence. */
  function Insert(q: seq<int>, x: int): seq<int> {
    if q == [] || x < q[0] then [x] + q
    else if x == q[0] then q
    else [q[0]] + Insert(q[1..], x)
  }

  lemma AscendingTail(q: seq<int>)
    requires q != [] && IsAscending(q)
    ensures IsAscending(q[1..]) && (forall y | y in q[1..] :: q[0] < y) && forall y | y in q :: q[0] <= y
  {
  }

  lemma {:induction false} InsertKeepsAscending(q: seq<int>, x: int)
    requires IsAscending(q)
    ensures IsAscending(Insert(q, x)) && Elements(Insert(q, x)) == Elements(q) + {x}
    decreases |q|
  {
    hide IsAscending;
    if q == [] {
      PrependAscending(x, q);
      ElementsOfCons(x, q);
    } else if x < q[0] {
      AscendingTail(q);
      PrependAscending(x, q);
      ElementsOfCons(x, q);
    } else if x > q[0] {
      var rest := Insert(q[1..], x);
      AscendingTail(q);
      InsertKeepsAscending(q[1..], x);
      assert q == [q[0]] + q[1..];
      ElementsOfCons(q[0], q[1..]);
      ElementsOfCons(q[0], rest);
      forall y | y in rest
        ensures q[0] < y
      {
        assert y in Elements(rest);
      }
      PrependAscending(q[0], rest);
    } else {
      assert x in Elements(q);
    }
  }

  lemma ElementsOfCons(x: int, q: seq<int>)
    ensures Elements([x] + q) == {x} + Elements(q)
  {
  }

  lemma PrependAscending(x: int, q: seq<int>)
    requires IsAscending(q) && forall y | y in q :: x < y
    ensures IsAscending([x] + q)
  {
    assert forall i | 0 <= i < |q| :: q[i] in q;
  }

  method InsertAll(q: seq<int>, xs: seq<int>) returns (q': seq<int>)
    requires IsAscending(q)
    ensures IsAscending(q') && Elements(q') == Elements(q) + Elements(xs)
  {
    hide IsAscending;
    q' := q;
    var i := 0;
    while i < |xs|
      invariant i <= |xs| && IsAscending(q') && Elements(q') == Elements(q) + Elements(xs[..i])
    {
      InsertKeepsAscending(q', xs[i]);
      q' := Insert(q', xs[i]);
      assert xs[..i + 1] == xs[..i] + [xs[i]];
      i := i + 1;
    }
    assert xs[..|xs|] == xs;
  }

  /** Appends the ascending, duplicate-free union of what the successful sources give. */
  method FindAllExtensionNumbers(sources: seq<Source>, message: string, output: seq<int>)
    returns (success: bool, output': seq<int>)
    ensures output <= output' && IsAscending(output'[|output|..])
    ensures Elements(output'[|output|..]) == UnionOfNumbers(sources, message)
    ensures success <==> exists i | 0 <= i < |sources| :: sources[i].numbers(message).Some?
  {
    var mergedResults: seq<int> := [];
    success := false;
    var i := 0;
    while i < |sources|
      invariant i <= |sources|
      invariant IsAscending(mergedResults) && Elements(mergedResults) == UnionOfNumbers(sources[..i], message)
      invariant success <==> exists j | 0 <= j < i :: sources[j].numbers(message).Some?
    {
      var results := sources[i].numbers(message);
      if results.Some? {
        mergedResults := InsertAll(mergedResults, results.value);
        success := true;
      }
      assert sources[..i + 1][..i] == sources[..i];
      i := i + 1;
    }
    assert sources[..|sources|] == sources;
    output' := output + mergedResults;
    assert output'[|output|..] == mergedResults;
  }
}
