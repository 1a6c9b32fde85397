/**
 * Tables in which loading more files changes no answer: what a file may use was loaded before it, so a
 * name it looks up means the same before and after.
 */
module StableTables {
  import opened Declarations
  import opened Descriptors
  import opened Linking
  import opened Names
  import opened NumberClaims
  import opened PublicImports
  import opened Resolver
  import opened Wrappers

  // ----- steady tables -----

  predicate ImportsPresent(files: Files, imports: seq<string>) {
    forall i | 0 <= i < |imports| :: imports[i] in files
  }

  predicate DependenciesPresent(files: Files) {
    forall n | n in files :: ImportsPresent(files, files[n].dependencies)
  }

  predicate PackagesDeclared(symbols: Symbols, files: Files) {
    forall n | n in files && files[n].package != "" :: files[n].package in symbols
  }

  /** No symbol outlives its file. */
  predicate SymbolsHaveFiles(symbols: Symbols, files: Files) {
    forall k | k in symbols :: symbols[k].file in files
  }

  predicate Steady(symbols: Symbols, files: Files) {
    && ParentClosed(symbols)
    && "" !in symbols
    && PackagesDeclared(symbols, files)
    && SymbolsHaveFiles(symbols, files)
    && DependenciesPresent(files)
  }

  // ----- a file that is declared without errors keeps the tables steady -----

  predicate AllOfFile(ds: seq<Decl>, file: string) {
    forall i | 0 <= i < |ds| :: ds[i].symbol.file == file
  }

  lemma {:induction false} FieldsOfFile(file: string, scope: string, fs: seq<FieldProto>)
    ensures AllOfFile(FieldDecls(file, scope, fs), file)
    decreases |fs|
  {
    if fs != [] {
      FieldsOfFile(file, scope, fs[..|fs| - 1]);
    }
  }

  lemma {:induction false} ValuesOfFile(file: string, scope: string, e: EnumProto, values: seq<string>)
    ensures AllOfFile(ValueDecls(file, scope, e, values), file)
    decreases |values|
  {
    if values != [] {
      ValuesOfFile(file, scope, e, values[..|values| - 1]);
    }
  }

  lemma {:induction false} EnumsOfFile(file: string, scope: string, es: seq<EnumProto>)
    ensures AllOfFile(EnumsDecls(file, scope, es), file)
    decreases |es|
  {
    if es != [] {
      EnumsOfFile(file, scope, es[..|es| - 1]);
      ValuesOfFile(file, scope, es[|es| - 1], es[|es| - 1].values);
    }
  }

  lemma {:induction false} MethodsOfFile(file: string, service: string, ms: seq<MethodProto>)
    ensures AllOfFile(MethodDecls(file, service, ms), file)
    decreases |ms|
  {
    if ms != [] {
      MethodsOfFile(file, service, ms[..|ms| - 1]);
    }
  }

  lemma {:induction false} ServicesOfFile(file: string, scope: string, ss: seq<ServiceProto>)
    ensures AllOfFile(ServicesDecls(file, scope, ss), file)
    decreases |ss|
  {
    if ss != [] {
      ServicesOfFile(file, scope, ss[..|ss| - 1]);
      MethodsOfFile(file, Join(scope, ss[|ss| - 1].name), ss[|ss| - 1].methods);
    }
  }

  lemma {:induction false} MessagesOfFile(file: string, scope: string, ms: seq<MessageProto>)
    ensures AllOfFile(MessagesDecls(file, scope, ms), file)
    decreases ms
  {
    if ms != [] {
      var m := ms[|ms| - 1];
      var inner := Join(scope, m.name);
      MessagesOfFile(file, scope, ms[..|ms| - 1]);
      MessagesOfFile(file, inner, m.nested);
      FieldsOfFile(file, inner, m.fields);
      EnumsOfFile(file, inner, m.enums);
      FieldsOfFile(file, inner, m.extensions);
    }
  }

  lemma DeclsOfFile(f: FileProto)
    ensures AllOfFile(FileDecls(f), f.name)
  {
    MessagesOfFile(f.name, f.package, f.messages);
    EnumsOfFile(f.name, f.package, f.enums);
    ServicesOfFile(f.name, f.package, f.services);
    FieldsOfFile(f.name, f.package, f.extensions);
  }

  lemma {:induction false} PackageOfFile(s: Symbols, file: string, name: string)
    ensures forall k | k in WithPackage(s, file, name) && k !in s :: WithPackage(s, file, name)[k].file == file
    ensures PackageGood(s, file, name) && "" !in s ==> "" !in WithPackage(s, file, name)
    ensures name in WithPackage(s, file, name)
    decreases |name|
  {
    hide LastDot;
    if name !in s && LastDot(name) != -1 {
      var s' := s[name := PackageSymbol(file, name)];
      PackageOfFile(s', file, name[..LastDot(name)]);
      PackageGrows(s', file, name[..LastDot(name)]);
      assert WithPackage(s, file, name) == WithPackage(s', file, name[..LastDot(name)]);
    }
  }

  /** The symbols a file adds are its own. */
  lemma NewSymbolsAreOwn(s: Symbols, f: FileProto)
    ensures forall k | k in FileSymbols(s, f) && k !in s :: FileSymbols(s, f)[k].file == f.name
  {
    var p := if f.package == "" then s else WithPackage(s, f.name, f.package);
    if f.package != "" {
      PackageOfFile(s, f.name, f.package);
    }
    DeclareAllKeys(p, FileDecls(f));
    DeclsOfFile(f);
  }

  lemma NoEmptyName(s: Symbols, f: FileProto)
    requires FileSymbolsGood(s, f) && "" !in s
    ensures "" !in FileSymbols(s, f)
  {
    var p := if f.package == "" then s else WithPackage(s, f.name, f.package);
    if f.package != "" {
      PackageOfFile(s, f.name, f.package);
    }
    FileRooted(f);
    DeclareAllKeys(p, FileDecls(f));
    var ds := FileDecls(f);
    forall i | 0 <= i < |ds|
      ensures ds[i].symbol.fullName != ""
    {
      assert ds[i] in ds && Rooted(ds[i], f.package, ds);
    }
  }

  lemma OwnPackageDeclared(s: Symbols, f: FileProto)
    requires f.package != ""
    ensures f.package in FileSymbols(s, f)
  {
    PackageOfFile(s, f.name, f.package);
    DeclareAllKeys(WithPackage(s, f.name, f.package), FileDecls(f));
  }

  /** A file declared without errors, its imports present, keeps the tables steady. */
  lemma SteadyWith(s: Symbols, files: Files, f: FileProto)
    requires Steady(s, files) && f.name !in files
    requires FileSymbolsGood(s, f) && ImportsPresent(files[f.name := f], f.dependencies)
    ensures Steady(FileSymbols(s, f), files[f.name := f])
  {
    hide FileSymbols, FileSymbolsGood, ParentClosed;
    FileClosure(s, f);
    NoEmptyName(s, f);
    NewSymbolsAreOwn(s, f);
    FileSymbolsGrow(s, f);
    if f.package != "" {
      OwnPackageDeclared(s, f);
    }
  }

  // ----- loading more changes no answer -----

  /** Every dotted prefix of a name in a closed table is there too. */
  lemma {:induction false} PrefixKnown(s: Symbols, name: string, p: string)
    requires ParentClosed(s) && name in s && p != "" && IsDottedPrefix(p, name)
    ensures p in s
    decreases |name|
  {
    hide LastDot;
    if p != name {
      var d := LastDot(name);
      assert |p| <= d;
      assert HasParent(s, name);
      assert p == name[..d][..|p|];
      if |p| < d {
        assert name[..d][|p|] == '.';
      }
      PrefixKnown(s, name[..d], p);
    }
  }

  /** Names are looked up in a table from a viewpoint. */
  function FinderOf(symbols: Symbols, files: Files, at: Viewpoint): Finder {
    name => FindVisible(symbols, files, at, name)
  }

  ghost predicate SameAnswers(f: Finder, g: Finder) {
    forall key :: f(key) == g(key)
  }

  /** Symbols that are added belong to files that are added. */
  ghost predicate AddsOnlyNewFiles(s: Symbols, files: Files, t: Symbols) {
    forall k | k in t && k !in s :: t[k].file !in files
  }

  /**
   * From a steady table, for a file of the table that enforces its imports, all of them loaded: whatever is
   * loaded later, every name is found as before.
   */
  lemma LoadingIsInvisible(s: Symbols, files: Files, t: Symbols, files': Files, at: Viewpoint)
    requires Steady(s, files) && Steady(t, files')
    requires MapGrows(s, t) && MapGrows(files, files') && AddsOnlyNewFiles(s, files, t)
    requires at.enforced && at.visible <= files.Keys && at.file.name in files && files[at.file.name] == at.file
    ensures SameAnswers(FinderOf(s, files, at), FinderOf(t, files', at))
  {
    forall key
      ensures FindVisible(s, files, at, key) == FindVisible(t, files', at, key)
    {
      if key in s {
        assert MayUse(files, at, key, s[key]) == MayUse(files', at, key, t[key]);
      } else if key in t && MayUse(files', at, key, t[key]) {
        NewIsUnusable(s, files, files', at, key);
        assert false;
      }
    }
  }

  /** A package that the file knows was declared with the file or one that is visible to it. */
  lemma NewIsUnusable(s: Symbols, files: Files, files': Files, at: Viewpoint, key: string)
    requires Steady(s, files) && MapGrows(files, files') && key != "" && key !in s
    requires at.visible <= files.Keys && at.file.name in files && files[at.file.name] == at.file
    ensures !KnowsPackage(files', at, key)
  {
    if IsDottedPrefix(key, at.file.package) {
      PrefixKnown(s, at.file.package, key);
    }
    forall d | d in at.visible && d in files' && IsDottedPrefix(key, files'[d].package)
      ensures false
    {
      PrefixKnown(s, files[d].package, key);
    }
  }

  /** What is visible through imports that are all present stays the same when files are added. */
  lemma VisibleStays(files: Files, files': Files, imports: seq<string>)
    requires MapGrows(files, files') && DependenciesPresent(files) && ImportsPresent(files, imports)
    ensures Visible(files', imports) == Visible(files, imports)
  {
    forall i, f | 0 <= i < |imports|
      ensures Reaches(files, imports[i], f) <==> Reaches(files', imports[i], f)
    {
      ReachesStays(files, files', imports[i], f);
    }
    forall f | f in Visible(files', imports)
      ensures f in Visible(files, imports)
    {
      var i :| 0 <= i < |imports| && Reaches(files', imports[i], f);
      assert Reaches(files, imports[i], f);
      var path :| PublicPath(files, imports[i], path) && path[|path| - 1] == f;
    }
  }

  lemma ReachesStays(files: Files, files': Files, from: string, to: string)
    requires MapGrows(files, files') && DependenciesPresent(files) && from in files
    ensures Reaches(files, from, to) <==> Reaches(files', from, to)
  {
    if Reaches(files, from, to) {
      var path :| PublicPath(files, from, path) && path[|path| - 1] == to;
      assert PublicPath(files', from, path);
    }
    if Reaches(files', from, to) {
      var path :| PublicPath(files', from, path) && path[|path| - 1] == to;
      PathStays(files, files', from, path);
    }
  }

  lemma {:induction false} PathStays(files: Files, files': Files, from: string, path: seq<string>)
    requires MapGrows(files, files') && DependenciesPresent(files) && from in files && PublicPath(files', from, path)
    ensures PublicPath(files, from, path)
    decreases |path|
  {
    if |path| > 1 {
      var most := path[..|path| - 1];
      PathStays(files, files', from, most);
      var g := most[|most| - 1];
      assert path[|most| - 1 + 1] in PublicTargets(files'[path[|most| - 1]]);
      assert ImportsPresent(files, files[g].dependencies);
      forall i | 0 <= i < |path| - 1
        ensures path[i + 1] in PublicTargets(files[path[i]])
      {
        if i < |most| - 1 {
          assert most[i + 1] in PublicTargets(files[most[i]]);
        }
      }
    }
  }

  // ----- lookups that get the same answers -----

  lemma {:induction false} ClimbSame(f: Finder, g: Finder, name: string, scope: string, typesOnly: bool)
    requires SameAnswers(f, g)
    ensures Climb(f, name, scope, typesOnly) == Climb(g, name, scope, typesOnly)
    decreases |scope|
  {
    hide LastDot;
    if LastDot(scope) != -1 {
      ClimbSame(f, g, name, scope[..LastDot(scope)], typesOnly);
    }
  }

  lemma LookupSame(f: Finder, g: Finder)
    requires SameAnswers(f, g)
    ensures forall name, relativeTo, typesOnly ::
            Lookup(f, name, relativeTo, typesOnly) == Lookup(g, name, relativeTo, typesOnly)
  {
    forall name, relativeTo, typesOnly
      ensures Lookup(f, name, relativeTo, typesOnly) == Lookup(g, name, relativeTo, typesOnly)
    {
      ClimbSame(f, g, name, relativeTo, typesOnly);
    }
  }

  lemma ResolvesSame(f: Finder, g: Finder, l: Link)
    requires SameAnswers(f, g)
    ensures ResolvesWell(f, l) == ResolvesWell(g, l) && Claim(f, l) == Claim(g, l)
  {
    hide Lookup;
    LookupSame(f, g);
  }

  // ----- resolved files -----

  /**
   * Every reference of the file resolves well by the scope rule, among the symbols it may use in the table as
   * it is now; and no two of its fields and extensions have one number of one message.
   */
  ghost predicate IsResolved(symbols: Symbols, files: Files, f: FileProto) {
    ResolvedBy(FinderOf(symbols, files, Viewpoint(f, Visible(files, f.dependencies), true)), f)
  }

  predicate ResolvedBy(find: Finder, f: FileProto) {
    AllResolveWell(find, FileLinks(f)) && ClaimsDistinct(find, FileLinks(f))
  }

  lemma ResolvedBySame(find: Finder, g: Finder, f: FileProto)
    requires SameAnswers(find, g) && ResolvedBy(find, f)
    ensures ResolvedBy(g, f)
  {
    hide FileLinks, ResolvesWell, Claim;
    var ls := FileLinks(f);
    forall i | 0 <= i < |ls|
      ensures ResolvesWell(g, ls[i]) && Claim(g, ls[i]) == Claim(find, ls[i])
    {
      ResolvesSame(find, g, ls[i]);
      assert ResolvesWell(find, ls[i]);
    }
    forall i, j | 0 <= i < j < |ls| && Claim(g, ls[i]).Some?
      ensures Claim(g, ls[i]) != Claim(g, ls[j])
    {
      assert Claim(find, ls[i]) != Claim(find, ls[j]);
    }
  }

  /** Every file of the table is resolved but those still open. */
  ghost predicate FilesResolved(symbols: Symbols, files: Files, open: set<string>) {
    forall n | n in files && n !in open :: files[n].name == n && IsResolved(symbols, files, files[n])
  }

  /** Files that are resolved stay so while others are loaded. */
  lemma FilesResolvedLater(s: Symbols, files: Files, t: Symbols, files': Files, f: FileProto)
    requires Steady(s, files) && Steady(t, files')
    requires MapGrows(s, t) && MapGrows(files, files') && AddsOnlyNewFiles(s, files, t)
    requires f.name in files && files[f.name] == f && IsResolved(s, files, f)
    ensures IsResolved(t, files', f)
  {
    hide FinderOf, ResolvedBy;
    var at := Viewpoint(f, Visible(files, f.dependencies), true);
    assert ImportsPresent(files, f.dependencies);
    VisibleStays(files, files', f.dependencies);
    LoadingIsInvisible(s, files, t, files', at);
    ResolvedBySame(FinderOf(s, files, at), FinderOf(t, files', at), f);
  }

  lemma FilesResolvedWith(s: Symbols, files: Files, f: FileProto, open: set<string>)
    requires Steady(s, files) && f.name !in files && FilesResolved(s, files, open)
    requires FileSymbolsGood(s, f) && ImportsPresent(files[f.name := f], f.dependencies)
    ensures FilesResolved(FileSymbols(s, f), files[f.name := f], open + {f.name})
  {
    hide FileSymbols, FileSymbolsGood, Steady, IsResolved;
    var t, files' := FileSymbols(s, f), files[f.name := f];
    SteadyWith(s, files, f);
    FileSymbolsGrow(s, f);
    NewSymbolsAreElsewhere(s, files, f);
    forall n | n in files' && n !in open + {f.name}
      ensures files'[n].name == n && IsResolved(t, files', files'[n])
    {
      FilesResolvedLater(s, files, t, files', files[n]);
    }
  }

  lemma NewSymbolsAreElsewhere(s: Symbols, files: Files, f: FileProto)
    requires f.name !in files
    ensures AddsOnlyNewFiles(s, files, FileSymbols(s, f))
  {
    hide FileSymbols;
    NewSymbolsAreOwn(s, f);
  }

  lemma FilesResolvedClosing(symbols: Symbols, files: Files, f: FileProto, open: set<string>)
    requires FilesResolved(symbols, files, open + {f.name})
    requires f.name in files && files[f.name] == f && IsResolved(symbols, files, f)
    ensures FilesResolved(symbols, files, open)
  {
    hide IsResolved;
  }
}
