/**
 Which files a pool accepts, what the tables hold afterwards, and the invariant that every accepted file
 keeps. The file and the tables decide: there is no fallback database, or imports are enforced.
 */
module Acceptance {
  import opened Declarations
  import opened Descriptors
  import opened Linking
  import opened Names
  import opened PoolTables
  import opened PublicImports
  import opened Resolver
  import opened StableTables
  import opened TablesSpec
  import opened Wrappers

  // ----- the checks on imports -----

  predicate ListedOnce(imports: seq<string>) {
    forall i, j | 0 <= i < j < |imports| :: imports[i] != imports[j]
  }

  /** Some of the first `n` imports is missing or was listed before. */
  predicate ImportProblem(files: map<string, FileProto>, imports: seq<string>, n: nat)
    requires n <= |imports|
  {
    exists k | 0 <= k < n :: imports[k] !in files || exists j | 0 <= j < k :: imports[j] == imports[k]
  }

  /** The imports met before position `n`. */
  ghost predicate IsSeen(seen: set<string>, imports: seq<string>, n: nat)
    requires n <= |imports|
  {
    forall d :: d in seen <==> d in imports[..n]
  }

  lemma SeenOneMore(files: map<string, FileProto>, seen: set<string>, imports: seq<string>, n: nat)
    requires n < |imports| && IsSeen(seen, imports, n)
    ensures IsSeen(seen + {imports[n]}, imports, n + 1)
    ensures ImportProblem(files, imports, n + 1) <==>
            ImportProblem(files, imports, n) || imports[n] !in files || imports[n] in seen
  {
    ImportProblemOneMore(files, imports, n);
  }

  lemma NoProblemYet(files: map<string, FileProto>, imports: seq<string>)
    ensures !ImportProblem(files, imports, 0) && IsSeen({}, imports, 0)
  {
  }

  lemma ImportProblemOneMore(files: map<string, FileProto>, imports: seq<string>, n: nat)
    requires n < |imports|
    ensures ImportProblem(files, imports, n + 1) <==>
            ImportProblem(files, imports, n) || imports[n] !in files || imports[n] in imports[..n]
  {
  }

  lemma NoImportProblem(files: map<string, FileProto>, imports: seq<string>)
    ensures ImportProblem(files, imports, |imports|) <==> !(ImportsPresent(files, imports) && ListedOnce(imports))
  {
  }

  predicate IndexesGood(f: FileProto, indexes: seq<int>) {
    forall i | 0 <= i < |indexes| :: 0 <= indexes[i] < |f.dependencies|
  }

  // ----- acceptance -----

  ghost function FilesWith(c: Core, f: FileProto): map<string, FileProto> {
    c.files[f.name := f]
  }

  ghost function ViewpointOf(c: Core, enforced: bool, f: FileProto): Viewpoint {
    Viewpoint(f, Visible(FilesWith(c, f), f.dependencies), enforced)
  }

  /** How names are resolved while `f` is linked. */
  ghost function LinkFinder(c: Core, enforced: bool, f: FileProto): Finder {
    FinderOf(FileSymbols(c.symbols, f), FilesWith(c, f), ViewpointOf(c, enforced, f))
  }

  ghost function LinkResult(c: Core, enforced: bool, f: FileProto): Linked {
    LinkAll(LinkFinder(c, enforced, f), Linked(map[], c.extensions, true), FileLinks(f))
  }

  predicate ImportsGood(files: map<string, FileProto>, f: FileProto) {
    && ImportsPresent(files, f.dependencies)
    && ListedOnce(f.dependencies)
    && IndexesGood(f, f.publicDependencies)
    && IndexesGood(f, f.weakDependencies)
  }

  /** The pool reports no error for `f`. */
  ghost predicate Accepts(c: Core, enforced: bool, f: FileProto) {
    && f.name !in c.files
    && ImportsGood(FilesWith(c, f), f)
    && FileSymbolsGood(c.symbols, f)
    && LinkResult(c, enforced, f).good
    && AllRangesBounded(f.messages)
    && !f.otherErrors
  }

  /** The tables after `f` is accepted, its descriptor being the block `at`. */
  ghost function Accepted(c: Core, enforced: bool, f: FileProto, at: Pointer): Core {
    Core(FileSymbols(c.symbols, f), FilesWith(c, f), c.ranks[f.name := at], LinkResult(c, enforced, f).extensions)
  }

  // ----- what the tables keep -----

  /** Every import of a file of the table is in the table, and was added before it unless it is the file itself. */
  predicate ImportsClosed(files: map<string, FileProto>, ranks: map<string, Pointer>) {
    forall f, i | f in files && 0 <= i < |files[f].dependencies| ::
      ImportBefore(files, ranks, f, files[f].dependencies[i])
  }

  predicate ImportBefore(files: map<string, FileProto>, ranks: map<string, Pointer>, f: string, d: string) {
    d in files && d in ranks && f in ranks && (d == f || ranks[d] < ranks[f])
  }

  /** A file of the table stands under its own name and passed the checks on names, numbers and indexes. */
  predicate FileSound(files: map<string, FileProto>, n: string)
    requires n in files
  {
    var f := files[n];
    f.name == n && FileGood(f) && AllRangesBounded(f.messages) && ImportsGood(files, f)
  }

  predicate FilesSound(files: map<string, FileProto>) {
    forall n | n in files :: FileSound(files, n)
  }

  /** The invariant of the tables between builds. */
  predicate GoodCore(c: Core) {
    SymbolsNamed(c.symbols) && Steady(c.symbols, c.files) && ImportsClosed(c.files, c.ranks) && FilesSound(c.files)
  }

  lemma ImportsClosedAfter(files: map<string, FileProto>, ranks: map<string, Pointer>, f: FileProto, at: Pointer)
    requires ImportsClosed(files, ranks) && f.name !in files
    requires ImportsPresent(files[f.name := f], f.dependencies)
    requires ranks.Keys == files.Keys && forall n | n in ranks :: ranks[n] < at
    ensures ImportsClosed(files[f.name := f], ranks[f.name := at])
  {
  }

  lemma FilesSoundAfter(files: map<string, FileProto>, f: FileProto)
    requires FilesSound(files) && f.name !in files
    requires FileGood(f) && AllRangesBounded(f.messages) && ImportsGood(files[f.name := f], f)
    ensures FilesSound(files[f.name := f])
  {
  }

  /** The tables once `f` has been declared and before it is linked. */
  ghost function DeclaredCore(c: Core, f: FileProto, at: Pointer): Core {
    c.(symbols := FileSymbols(c.symbols, f), files := FilesWith(c, f), ranks := c.ranks[f.name := at])
  }

  /** The checks made before linking, and the bound on ranges that is checked after it. */
  ghost predicate DeclaredGood(c: Core, f: FileProto) {
    && f.name !in c.files
    && ImportsGood(FilesWith(c, f), f)
    && FileSymbolsGood(c.symbols, f)
    && AllRangesBounded(f.messages)
  }

  lemma FileSymbolsAreGood(s: Symbols, f: FileProto)
    requires FileSymbolsGood(s, f)
    ensures FileGood(f)
  {
  }

  /** A well-declared file keeps the invariant of the tables, before its references are resolved. */
  lemma DeclaredKeepsGoodCore(c: Core, f: FileProto, at: Pointer)
    requires GoodCore(c) && DeclaredGood(c, f)
    requires c.ranks.Keys == c.files.Keys && forall n | n in c.ranks :: c.ranks[n] < at
    ensures GoodCore(DeclaredCore(c, f, at))
  {
    hide FileSymbols, FileSymbolsGood, Steady;
    SteadyWith(c.symbols, c.files, f);
    FileSymbolsAreGood(c.symbols, f);
    FileNamed(c.symbols, f);
    ImportsClosedAfter(c.files, c.ranks, f, at);
    FilesSoundAfter(c.files, f);
  }

  /** An accepted file keeps the invariant of the tables. */
  lemma AcceptedKeepsGoodCore(c: Core, enforced: bool, f: FileProto, at: Pointer)
    requires GoodCore(c) && Accepts(c, enforced, f)
    requires c.ranks.Keys == c.files.Keys && forall n | n in c.ranks :: c.ranks[n] < at
    ensures GoodCore(Accepted(c, enforced, f, at))
  {
    DeclaredKeepsGoodCore(c, f, at);
  }

  // ----- the import graph -----

  /** A walk along imports: each file of the table imports the next and is not the next. */
  predicate ImportWalk(files: map<string, FileProto>, walk: seq<string>) {
    && walk != []
    && (forall i | 0 <= i < |walk| :: walk[i] in files)
    && forall i | 0 <= i < |walk| - 1 :: walk[i + 1] in files[walk[i]].dependencies && walk[i + 1] != walk[i]
  }

  lemma {:induction false} WalkGoesBack(files: map<string, FileProto>, ranks: map<string, Pointer>, walk: seq<string>)
    requires ImportsClosed(files, ranks) && ImportWalk(files, walk) && |walk| > 1
    ensures walk[0] in ranks && walk[|walk| - 1] in ranks && ranks[walk[|walk| - 1]] < ranks[walk[0]]
    decreases |walk|
  {
    assert walk[0 + 1] in files[walk[0]].dependencies;
    var i :| 0 <= i < |files[walk[0]].dependencies| && files[walk[0]].dependencies[i] == walk[1];
    assert ImportBefore(files, ranks, walk[0], files[walk[0]].dependencies[i]);
    if |walk| > 2 {
      var rest := walk[1..];
      forall j | 0 <= j < |rest| - 1
        ensures rest[j + 1] in files[rest[j]].dependencies && rest[j + 1] != rest[j]
      {
        assert walk[j + 1 + 1] in files[walk[j + 1]].dependencies && walk[j + 1 + 1] != walk[j + 1];
      }
      WalkGoesBack(files, ranks, rest);
    }
  }

  /** Apart from files that import themselves, the import graph of a good table has no cycle. */
  lemma {:induction false} ImportsAcyclic(c: Core, walk: seq<string>)
    requires GoodCore(c) && ImportWalk(c.files, walk) && |walk| > 1
    ensures walk[0] != walk[|walk| - 1]
  {
    WalkGoesBack(c.files, c.ranks, walk);
  }

  /**
   The imports of a file are present exactly when those other than itself are in the table: to import
   itself is never a reason to refuse a file.
   */
  lemma SelfImportIsPresent(c: Core, f: FileProto)
    ensures ImportsPresent(FilesWith(c, f), f.dependencies)
       <==> forall i | 0 <= i < |f.dependencies| && f.dependencies[i] != f.name :: f.dependencies[i] in c.files
  {
  }

  /** For example, a file that imports itself and nothing else is accepted by the empty pool. */
  lemma SelfImportAccepted()
    ensures var f := FileProto("a", "", ["a"], [], [], [], [], [], [], false, false);
            Accepts(Core(map[], map[], map[], {}), true, f)
  {
  }
}
