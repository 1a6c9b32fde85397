/** How the tables may change while files are loaded: what every build, nested ones included, keeps. */
module Evolution {
  import opened Acceptance
  import opened Declarations
  import opened Descriptors
  import opened Linking
  import opened NumberClaims
  import opened PoolTables
  import opened PublicImports
  import opened Resolver
  import opened StableTables
  import opened Wrappers
  import TablesSpec

  /**
   Nothing is lost or overwritten, and no file under construction appears; good tables stay good and steady
   ones steady; symbols that are added belong to files that are added; and every file that is added is
   settled and, where imports are enforced, resolved.
   */
  ghost predicate Evolves(c: Core, c': Core, pending: seq<string>, enforced: bool) {
    && Grows(c, c', pending)
    && AddsOnlyNewFiles(c.symbols, c.files, c'.symbols)
    && (Steady(c.symbols, c.files) ==> Steady(c'.symbols, c'.files))
    && (forall open :: FilesSettled(c.symbols, c.files, open) ==> FilesSettled(c'.symbols, c'.files, open))
    && (enforced && Steady(c.symbols, c.files) ==>
          forall open :: FilesResolved(c.symbols, c.files, open) ==> FilesResolved(c'.symbols, c'.files, open))
  }

  ghost predicate Grows(c: Core, c': Core, pending: seq<string>) {
    && MapGrows(c.symbols, c'.symbols)
    && MapGrows(c.files, c'.files)
    && MapGrows(c.ranks, c'.ranks)
    && c.extensions <= c'.extensions
    && (forall n | n in pending && n in c'.files :: n in c.files)
    && (GoodCore(c) ==> GoodCore(c'))
  }

  lemma EvolvesTransitive(a: Core, b: Core, c: Core, pending: seq<string>, enforced: bool)
    requires Evolves(a, b, pending, enforced) && Evolves(b, c, pending, enforced)
    ensures Evolves(a, c, pending, enforced)
  {
    hide GoodCore, FilesSettled, FilesResolved, Steady;
  }

  lemma EvolvesGrow(a: Core, b: Core, pending: seq<string>, enforced: bool)
    requires Evolves(a, b, pending, enforced)
    ensures MapGrows(a.symbols, b.symbols) && MapGrows(a.files, b.files)
  {
    hide GoodCore, FilesSettled, FilesResolved, Steady;
  }

  lemma EvolvesSteady(a: Core, b: Core, pending: seq<string>, enforced: bool)
    requires Evolves(a, b, pending, enforced) && Steady(a.symbols, a.files)
    ensures Steady(b.symbols, b.files)
  {
    hide GoodCore, FilesSettled, FilesResolved, Steady;
  }

  lemma EvolvesNot(c: Core, pending: seq<string>, enforced: bool)
    ensures Evolves(c, c, pending, enforced)
  {
    hide GoodCore, FilesSettled, FilesResolved, Steady;
  }

  /** While a file is under construction it does not appear. */
  lemma EvolvesApart(a: Core, b: Core, pending: seq<string>, name: string, enforced: bool)
    requires Evolves(a, b, pending, enforced) && name in pending && name !in a.files
    ensures name !in b.files && Evolves(a, b, pending[..|pending| - 1], enforced)
  {
    hide GoodCore, FilesSettled, FilesResolved, Steady;
  }

  /** Registering extension numbers. */
  lemma ExtensionsEvolve(c: Core, c': Core, pending: seq<string>, enforced: bool)
    requires c' == c.(extensions := c'.extensions) && c.extensions <= c'.extensions
    ensures Evolves(c, c', pending, enforced)
  {
    hide SymbolsNamed, FilesSound, ImportsClosed, FilesSettled, FilesResolved, Steady;
  }

  /** Linking one part of a file after another. */
  lemma LinkedTwice(a: Core, b: Core, c: Core, pending: seq<string>, enforced: bool,
                    claims0: Claims, claims1: Claims, claims2: Claims, ls: seq<Link>, ks: seq<Link>, good1: bool,
                    good2: bool)
    requires Evolves(a, b, pending, enforced) && Evolves(b, c, pending, enforced) && (good2 ==> good1)
    requires ClaimsFrom(b.symbols, claims0, claims1, ls, good1) && ClaimsFrom(c.symbols, claims1, claims2, ks, good2)
    ensures Evolves(a, c, pending, enforced) && ClaimsFrom(c.symbols, claims0, claims2, ls + ks, good2)
  {
    hide ClaimsFrom, Evolves;
    EvolvesTransitive(a, b, c, pending, enforced);
    EvolvesGrow(b, c, pending, enforced);
    ClaimsFromAppend(b.symbols, c.symbols, claims0, claims1, claims2, ls, ks, good1, good2);
  }

  /** Between the calls of a client: what is good, settled and resolved stays so. */
  lemma EvolvesCommitted(a: Core, b: Core, pending: seq<string>, enforced: bool)
    requires Evolves(a, b, pending, enforced) && GoodCore(a) && FilesSettled(a.symbols, a.files, {})
    requires enforced ==> FilesResolved(a.symbols, a.files, {})
    ensures GoodCore(b) && FilesSettled(b.symbols, b.files, {})
    ensures enforced ==> FilesResolved(b.symbols, b.files, {})
  {
    hide FilesSettled, FilesResolved;
  }

  lemma GoodIsSteady(c: Core)
    requires GoodCore(c)
    ensures Steady(c.symbols, c.files)
  {
  }

  // ----- answers that stay the same -----

  /** The file of the viewpoint and all that is visible to it are in the tables, and imports are enforced. */
  predicate Established(c: Core, at: Viewpoint) {
    at.enforced && at.visible <= c.files.Keys && at.file.name in c.files && c.files[at.file.name] == at.file
  }

  /** What the tables answer to a file that enforces its imports stays the same while others are loaded. */
  lemma AnswersStay(c: Core, c': Core, pending: seq<string>, enforced: bool, at: Viewpoint, answers: Finder)
    requires Evolves(c, c', pending, enforced) && Steady(c.symbols, c.files) && Established(c, at)
    requires SameAnswers(answers, FinderOf(c.symbols, c.files, at))
    ensures Steady(c'.symbols, c'.files) && Established(c', at)
    ensures SameAnswers(answers, FinderOf(c'.symbols, c'.files, at))
  {
    hide GoodCore, FilesSettled, FilesResolved, Steady, FinderOf;
    LoadingIsInvisible(c.symbols, c.files, c'.symbols, c'.files, at);
  }

  // ----- a build that succeeds -----

  /** What declaring a file without errors does to the tables, before it is linked. */
  ghost predicate DeclaresFile(a: Core, b: Core, pending: seq<string>, f: FileProto) {
    && Grows(a, b, pending)
    && AddsOnlyNewFiles(a.symbols, a.files, b.symbols)
    && (Steady(a.symbols, a.files) ==> Steady(b.symbols, b.files))
    && f.name in b.files && b.files[f.name] == f
    && AllDeclared(b.symbols, FileDecls(f))
    && ImportsPresent(b.files, f.dependencies)
    && (forall open :: FilesSettled(a.symbols, a.files, open) ==> FilesSettled(b.symbols, b.files, open + {f.name}))
    && (Steady(a.symbols, a.files) ==>
          forall open :: FilesResolved(a.symbols, a.files, open) ==> FilesResolved(b.symbols, b.files, open + {f.name}))
  }

  lemma DeclaringEvolves(c: Core, f: FileProto, at: TablesSpec.Pointer, pending: seq<string>)
    requires DeclaredGood(c, f) && f.name !in pending
    requires c.ranks.Keys == c.files.Keys && forall n | n in c.ranks :: c.ranks[n] < at
    ensures DeclaresFile(c, DeclaredCore(c, f, at), pending, f)
  {
    hide GoodCore, FilesSettled, FilesResolved, Steady, FileSymbols, FileSymbolsGood, AllRangesBounded;
    FileSymbolsGrow(c.symbols, f);
    FileDeclared(c.symbols, f);
    NewSymbolsAreElsewhere(c.symbols, c.files, f);
    if GoodCore(c) {
      DeclaredKeepsGoodCore(c, f, at);
    }
    if Steady(c.symbols, c.files) {
      SteadyWith(c.symbols, c.files, f);
      forall open | FilesResolved(c.symbols, c.files, open)
        ensures FilesResolved(FileSymbols(c.symbols, f), c.files[f.name := f], open + {f.name})
      {
        FilesResolvedWith(c.symbols, c.files, f, open);
      }
    }
    forall open | FilesSettled(c.symbols, c.files, open)
      ensures FilesSettled(FileSymbols(c.symbols, f), c.files[f.name := f], open + {f.name})
    {
      FilesSettledWith(c.symbols, FileSymbols(c.symbols, f), c.files, f, open);
    }
  }

  /** Declaring a file and then linking it, all without an error, is one step of evolution. */
  lemma BuildingEvolves(a: Core, b: Core, c: Core, pending: seq<string>, enforced: bool, f: FileProto, claims: Claims)
    requires DeclaresFile(a, b, pending, f) && Evolves(b, c, pending, enforced)
    requires ClaimsFit(c.symbols, FileLinks(f), claims) && AllDiffer(claims)
    requires enforced && Steady(a.symbols, a.files) ==> IsResolved(c.symbols, c.files, f)
    ensures Evolves(a, c, pending, enforced)
  {
    hide GoodCore, FilesSettled, FilesResolved, Steady, IsResolved, FileDecls, FileLinks, ClaimsFit, AllDiffer;
    assert Settled(c.symbols, f);
    forall open | FilesSettled(a.symbols, a.files, open)
      ensures FilesSettled(c.symbols, c.files, open)
    {
      FilesSettledClosing(c.symbols, c.files, f.name, open);
    }
    if enforced && Steady(a.symbols, a.files) {
      forall open | FilesResolved(a.symbols, a.files, open)
        ensures FilesResolved(c.symbols, c.files, open)
      {
        FilesResolvedClosing(c.symbols, c.files, f, open);
      }
    }
  }

  /** A file whose references resolve by the answers that it got is resolved in the tables as they are then. */
  lemma BuiltIsResolved(b: Core, c: Core, pending: seq<string>, f: FileProto, answers: Finder)
    requires Evolves(b, c, pending, true) && Steady(b.symbols, b.files)
    requires f.name in b.files && b.files[f.name] == f && ImportsPresent(b.files, f.dependencies)
    requires SameAnswers(answers, FinderOf(b.symbols, b.files, Viewpoint(f, Visible(b.files, f.dependencies), true)))
    requires ResolvedBy(answers, f)
    ensures IsResolved(c.symbols, c.files, f)
  {
    hide GoodCore, FilesSettled, FilesResolved, Steady, ResolvedBy, FinderOf;
    var at := Viewpoint(f, Visible(b.files, f.dependencies), true);
    AnswersStay(b, c, pending, true, at, answers);
    DependenciesArePresent(b.symbols, b.files);
    VisibleStays(b.files, c.files, f.dependencies);
    ResolvedBySame(answers, FinderOf(c.symbols, c.files, at), f);
  }

  lemma DependenciesArePresent(symbols: Symbols, files: Files)
    requires Steady(symbols, files)
    ensures DependenciesPresent(files)
  {
  }
}
