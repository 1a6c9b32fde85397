/**
 The descriptor pool and the builder of its files. Building a file may load others from a fallback
 database: its imports before the checkpoint, and the files of unknown symbols while it is linked.
 */
module DescriptorPools {
  import opened Acceptance
  import opened Declarations
  import opened Descriptors
  import opened Evolution
  import opened Linking
  import opened Names
  import opened NumberClaims
  import opened PoolTables
  import opened PublicImports
  import opened Resolver
  import opened StableTables
  import opened Wrappers
  import TablesSpec

  /** A finite database of files; its symbol index may answer with any file, or with none. */
  datatype Database = Database(files: map<string, FileProto>, fileOfSymbol: string -> Option<string>)
  {
    /** A request for a file is answered with a file of that name. */
    ghost predicate Valid() {
      forall n | n in files :: files[n].name == n
    }

    function FindFileContainingSymbol(symbol: string): Option<FileProto> {
      match fileOfSymbol(symbol)
      case Some(n) => if n in files then Some(files[n]) else None
      case None => None
    }
  }

  lemma VisibleWithin(files: map<string, FileProto>, imports: seq<string>)
    ensures Visible(files, imports) <= files.Keys
  {
  }

  lemma ImportsGoodPresent(files: map<string, FileProto>, f: FileProto)
    requires ImportsGood(files, f)
    ensures ImportsPresent(files, f.dependencies)
  {
  }

  lemma LinkedIsResolved(find: Finder, extensions: set<(string, int)>, f: FileProto)
    requires LinkAll(find, Linked(map[], extensions, true), FileLinks(f)).good
    ensures ResolvedBy(find, f)
  {
    LinkingGoodMeans(find, extensions, FileLinks(f));
  }

  lemma SiblingName(scope: string, name: string, sibling: string)
    ensures Join(scope, name)[..|Join(scope, name)| - |name|] + sibling == Join(scope, sibling)
  {
  }

  class DescriptorPool {
    const tables: Tables
    const fallback: Option<Database>
    const enforceDependencies: bool
    /** Whether a built file, written back as a description, is the given description. */
    const identical: (FileProto, FileProto) -> bool

    constructor (fallback: Option<Database>, enforceDependencies: bool, identical: (FileProto, FileProto) -> bool)
      requires fallback.Some? ==> fallback.value.Valid()
      ensures Valid() && fresh(tables)
      ensures this.fallback == fallback && this.enforceDependencies == enforceDependencies
      ensures this.identical == identical
      ensures Committed() && Core() == CoreOf(TablesSpec.EMPTY_CONTENTS)
    {
      this.fallback := fallback;
      this.enforceDependencies := enforceDependencies;
      this.identical := identical;
      tables := new Tables();
    }

    ghost predicate Valid()
      reads tables
    {
      tables.Valid() && (fallback.Some? ==> fallback.value.Valid())
    }

    ghost function Core(): Core
      reads tables
    {
      tables.View().core
    }

    /**
     Whether a file's acceptance is decided by the tables when it is built: there is no database, or imports
     are enforced, so that what is loaded meanwhile cannot be seen by the file.
     */
    ghost predicate Decides(c: Core) {
      fallback.None? || (enforceDependencies && Steady(c.symbols, c.files))
    }

    /**
     What holds between the calls of a client: no checkpoint, nothing pending, good tables, settled and resolved
     files.
     */
    ghost predicate Committed()
      reads tables
    {
      && Valid()
      && tables.saved == []
      && tables.pendingFiles == []
      && GoodCore(Core())
      && FilesSettled(Core().symbols, Core().files, {})
      && (enforceDependencies ==> FilesResolved(Core().symbols, Core().files, {}))
    }

    /**
     The client's way to add a file to a pool without a database. The file is accepted exactly when it
     passes every check; a refused file leaves no trace, an accepted one is all there; and the tables
     stay good either way.
     */
    method BuildFile(proto: FileProto) returns (built: bool)
      requires fallback.None? && Committed()
      modifies tables
      ensures Committed()
      ensures built <==>
              || (proto.name in old(Core()).files && identical(old(Core()).files[proto.name], proto))
              || Accepts(old(Core()), enforceDependencies, proto)
      ensures built && proto.name !in old(Core()).files ==>
                proto.name in Core().ranks &&
                Core() == Accepted(old(Core()), enforceDependencies, proto, Core().ranks[proto.name])
      ensures !built || proto.name in old(Core()).files ==> tables.Now() == old(tables.Now())
    {
      hide Tables.Valid, Tables.View, Tables.Abstract, FilesSettled, FilesResolved, Steady, GoodCore, Accepts, Accepted;
      ghost var core1 := Core();
      GoodIsSteady(core1);
      tables.ViewFacts();
      var builder := new DescriptorBuilder(this);
      ghost var base;
      built, base := builder.BuildFile(proto);
      EvolvesCommitted(core1, Core(), tables.pendingFiles, enforceDependencies);
    }

    /** The client's way to get a file from a pool with a database: loads it and whatever it needs. */
    method FindFileByName(name: string) returns (found: bool)
      requires Committed()
      modifies tables
      ensures Committed()
      ensures found <==> name in Core().files
      ensures MapGrows(old(Core()).files, Core().files) && MapGrows(old(Core()).symbols, Core().symbols)
    {
      hide Tables.Valid, Tables.View, Tables.Abstract, FilesSettled, FilesResolved, Steady, GoodCore;
      var loaded := tables.FindFile(name);
      if loaded.Some? {
        return true;
      }
      ghost var core1 := Core();
      var tried := TryFindFileInFallbackDatabase(name);
      EvolvesCommitted(core1, Core(), tables.pendingFiles, enforceDependencies);
      if tried {
        loaded := tables.FindFile(name);
        return loaded.Some?;
      }
      found := false;
    }

    /**
     The client's way to get a symbol: one the pool has, or one that comes with the file it loads. When that
     file cannot be built the answer is none, even if its imports have brought in a symbol of that name.
     */
    method FindSymbolByName(name: string) returns (r: Option<Symbol>)
      requires Committed()
      modifies tables
      ensures Committed()
      ensures old(name in Core().symbols) ==> r == Some(old(Core()).symbols[name]) && unchanged(tables)
      ensures old(name !in Core().symbols) ==>
                r == if Brings(old(FileToLoad(name))) && name in Core().symbols then Some(Core().symbols[name])
                     else None
      ensures old(FileToLoad(name)).None? ==> unchanged(tables)
      ensures MapGrows(old(Core()).files, Core().files) && MapGrows(old(Core()).symbols, Core().symbols)
    {
      hide Tables.Valid, Tables.View, Tables.Abstract, FilesSettled, FilesResolved, Steady, GoodCore;
      r := tables.FindSymbol(name);
      if r.None? {
        ghost var core1 := Core();
        var tried := TryFindSymbolInFallbackDatabase(name);
        EvolvesCommitted(core1, Core(), tables.pendingFiles, enforceDependencies);
        if tried {
          r := tables.FindSymbol(name);
        }
      }
    }

    /** Loading has changed the tables only as it may, and left the stacks as they were. */
    twostate predicate Loaded()
      reads tables
    {
      && old(Valid()) && Valid()
      && tables.saved == old(tables.saved) && tables.pendingFiles == old(tables.pendingFiles)
      && old(tables.View().blocks) <= tables.View().blocks
      && Evolves(old(Core()), Core(), tables.pendingFiles, enforceDependencies)
    }

    /** Whether some enclosing scope of `name` is a symbol whose whole definition is already known. */
    method IsSubSymbolOfBuiltType(name: string) returns (r: bool)
      requires Valid()
      ensures r <==> IsInBuiltType(name)
    {
      hide Tables.Valid, Tables.View, Tables.Abstract, LastDot;
      var prefix := name;
      while true
        invariant |prefix| <= |name| && prefix == name[..|prefix|]
        invariant prefix == name || name[|prefix|] == '.'
        invariant forall p | p in Core().symbols && |prefix| <= |p| < |name| && IsDottedPrefix(p, name) ::
                    Core().symbols[p].kind == Package
        decreases |prefix|
      {
        var dotPos := LastDot(prefix);
        if dotPos == -1 {
          return false;
        }
        prefix := prefix[..dotPos];
        var symbol := tables.FindSymbol(prefix);
        if symbol.Some? && symbol.value.kind != Package {
          assert prefix in Core().symbols && IsDottedPrefix(prefix, name);
          return true;
        }
      }
    }

    /** Some enclosing scope of `name` is a symbol whose whole definition is already known. */
    ghost predicate IsInBuiltType(name: string)
      reads tables
    {
      exists p | p in Core().symbols :: p != name && IsDottedPrefix(p, name) && Core().symbols[p].kind != Package
    }

    /**
     The file that is built for an unknown symbol: the one the database names, unless the pool has it or the symbol's
     type.
     */
    ghost function FileToLoad(name: string): Option<string>
      reads tables
    {
      if fallback.None? || IsInBuiltType(name) then None
      else match fallback.value.FindFileContainingSymbol(name)
        case Some(proto) => if proto.name in Core().files then None else Some(proto.name)
        case None => None
    }

    /**
     A file is to be loaded for a name exactly when the database names it and has it, the pool has not, and no
     message, field, enum, enum value, service or method is known of which the name would be a part.
     */
    lemma FileToLoadMeans(name: string, file: string)
      ensures FileToLoad(name) == Some(file) <==>
              && fallback.Some?
              && fallback.value.fileOfSymbol(name).Some?
              && fallback.value.fileOfSymbol(name).value in fallback.value.files
              && fallback.value.files[fallback.value.fileOfSymbol(name).value].name == file
              && file !in Core().files
              && forall p | p in Core().symbols && p + "." <= name ::
                   Core().symbols[p].kind !in {Message, Field, Enum, EnumValue, Service, Method}
    {
      hide Tables.View;
      forall p | p in Core().symbols
        ensures p != name && IsDottedPrefix(p, name) <==> p + "." <= name
      {
        DottedPrefixMeans(p, name);
      }
    }

    /** There was a file to load, and it is in the pool. */
    ghost predicate Brings(file: Option<string>)
      reads tables
    {
      file.Some? && file.value in Core().files
    }

    /** Builds the file the database names for a symbol, unless that file or the symbol's type is already built. */
    method TryFindSymbolInFallbackDatabase(name: string) returns (found: bool)
      requires Valid()
      modifies tables
      ensures Loaded()
      ensures found <==> Brings(old(FileToLoad(name)))
      ensures old(FileToLoad(name)).None? ==> unchanged(tables)
      ensures fallback.None? ==> !found && unchanged(tables)
      decreases 0, Unbuilt(), 3
    {
      hide Tables.Valid, Tables.View, Tables.Abstract, FilesSettled, FilesResolved, Steady, GoodCore;
      if fallback.None? {
        return false;
      }
      var known := IsSubSymbolOfBuiltType(name);
      if known {
        return false;
      }
      var proto := fallback.value.FindFileContainingSymbol(name);
      if proto.None? {
        return false;
      }
      var already := tables.FindFile(proto.value.name);
      if already.Some? {
        return false;
      }
      var builder := new DescriptorBuilder(this);
      ghost var base;
      found, base := builder.BuildFile(proto.value);
    }

    /** Builds the file of that name from the database; a failure is remembered. */
    method TryFindFileInFallbackDatabase(name: string) returns (found: bool)
      requires Valid() && name !in Core().files
      modifies tables
      ensures Loaded()
      ensures found <==> name in Core().files
      ensures fallback.Some? && !found ==> name in tables.knownBadFiles
      ensures name in old(tables.knownBadFiles) ==> unchanged(tables)
      ensures fallback.None? ==> !found && unchanged(tables)
      decreases 0, Unbuilt(), 3
    {
      hide Tables.Valid, Tables.View, Tables.Abstract, FilesSettled, FilesResolved, Steady, GoodCore;
      if fallback.None? {
        return false;
      }
      if name in tables.knownBadFiles {
        return false;
      }
      if name in fallback.value.files {
        var builder := new DescriptorBuilder(this);
        ghost var base;
        found, base := builder.BuildFile(fallback.value.files[name]);
      } else {
        found := false;
      }
      if !found {
        tables.MarkBad(name);
      }
    }

    /** The files of the database that are neither in the pool nor under construction. */
    ghost function Unbuilt(): set<string>
      reads tables
    {
      if fallback.None? then {}
      else set n | n in fallback.value.files && n !in tables.pendingFiles && n !in Core().files
    }
  }

  class DescriptorBuilder {
    const pool: DescriptorPool
    const tables: Tables
    var file: FileProto
    var filePtr: TablesSpec.Pointer
    var dependencies: set<string>
    var numbers: Numbers
    /** What each reference linked so far has claimed. */
    ghost var claims: Claims
    /** What names meant when the file had been declared. */
    ghost var answers: Finder
    var hadErrors: bool

    constructor (pool: DescriptorPool)
      ensures this.pool == pool && tables == pool.tables && !hadErrors && numbers == map[] && claims == []
    {
      this.pool := pool;
      tables := pool.tables;
      file := FileProto("", "", [], [], [], [], [], [], [], false, false);
      filePtr, dependencies, numbers, hadErrors := 0, {}, map[], false;
      claims := [];
      answers := _ => None;
    }

    /** The builder is under a checkpoint and its file is in the tables. */
    ghost predicate Ready()
      reads this, tables
    {
      && tables == pool.tables
      && pool.Valid()
      && tables.saved != []
      && file.name in tables.View().core.files
      && tables.View().core.files[file.name] == file
      && filePtr in tables.View().blocks
    }

    ghost function Core(): Core
      reads tables
    {
      tables.View().core
    }

    /** Nothing but symbols, owned strings and owned blocks, and the error flag, has changed. */
    twostate predicate OnlyDeclared()
      reads this, tables
    {
      && old(Ready()) && Ready()
      && file == old(file) && filePtr == old(filePtr) && dependencies == old(dependencies)
      && numbers == old(numbers) && claims == old(claims) && answers == old(answers)
      && tables.saved == old(tables.saved)
      && tables.pendingFiles == old(tables.pendingFiles) && tables.knownBadFiles == old(tables.knownBadFiles)
      && old(tables.View().cells) <= tables.View().cells
      && old(tables.View().blocks) <= tables.View().blocks
      && Core() == old(Core()).(symbols := Core().symbols)
    }

    ghost function SoFar(): Progress
      reads this, tables
    {
      Progress(Core().symbols, hadErrors)
    }

    /** Declaring `ds` and checking the rest to be `good`, from the old progress, gives the present one. */
    twostate predicate Declared(good: bool, ds: seq<Decl>)
      reads this, tables
    {
      OnlyDeclared() && SoFar() == Declares(old(SoFar()), good, ds)
    }

    /** Adds one symbol of the file; a taken name is an error. */
    method AddSymbol(fullName: TablesSpec.Cell, d: Decl, at: TablesSpec.Pointer)
      requires Ready() && fullName in tables.View().cells && at in tables.View().blocks
      requires fullName.value == d.symbol.fullName
      modifies tables, this`hadErrors
      ensures Declared(true, [d])
    {
      hide Tables.Valid, Tables.View, Tables.Abstract;
      DeclareOne(Core().symbols, d);
      var added := tables.AddSymbol(fullName, d.symbol, at);
      if !added {
        hadErrors := true;
      }
    }

    method CheckField(f: FieldProto, isExtension: bool)
      modifies this`hadErrors
      ensures hadErrors <==> old(hadErrors) || !FieldGood(f, isExtension)
    {
      if !IsIdentifier(f.name) {
        hadErrors := true;
      }
      if f.number <= 0 {
        hadErrors := true;
      } else if !isExtension && f.number > MAX_NUMBER {
        hadErrors := true;
      } else if FIRST_RESERVED_NUMBER <= f.number <= LAST_RESERVED_NUMBER {
        hadErrors := true;
      }
      if isExtension {
        if f.extendee.None? {
          hadErrors := true;
        }
      } else if f.extendee.Some? {
        hadErrors := true;
      }
    }

    method BuildFieldOrExtension(f: FieldProto, scope: string, isExtension: bool, at: TablesSpec.Pointer)
      requires Ready() && at in tables.View().blocks
      modifies tables, this`hadErrors
      ensures Declared(FieldGood(f, isExtension), [FieldDecl(file.name, scope, f)])
    {
      hide Tables.Valid, Tables.View, Tables.Abstract;
      hide FieldGood;
      var fullName := tables.AllocateString(Join(scope, f.name));
      var name := tables.AllocateString(f.name);
      CheckField(f, isExtension);
      AddSymbol(fullName, FieldDecl(file.name, scope, f), at);
    }

    method BuildFields(fs: seq<FieldProto>, scope: string, isExtension: bool)
      requires Ready()
      modifies tables, this`hadErrors
      ensures Declared(FieldsGood(fs, isExtension), FieldDecls(file.name, scope, fs))
    {
      hide Tables.Valid, Tables.View, Tables.Abstract, DeclareAll, Clash, FieldGood, FieldDecl;
      var fields := tables.AllocateBytes(|fs|);
      var i := 0;
      DeclaresNothing(SoFar());
      assert fs[..0] == [];
      while i < |fs|
        invariant i <= |fs| && (fs != [] ==> fields in tables.View().blocks)
        invariant Declared(FieldsGood(fs[..i], isExtension), FieldDecls(file.name, scope, fs[..i]))
      {
        BuildFieldOrExtension(fs[i], scope, isExtension, fields);
        FieldsOneMore(file.name, scope, fs, isExtension, i);
        DeclaresAppend(old(SoFar()), FieldsGood(fs[..i], isExtension), FieldDecls(file.name, scope, fs[..i]),
                       FieldGood(fs[i], isExtension), [FieldDecl(file.name, scope, fs[i])]);
        i := i + 1;
      }
      assert fs[..|fs|] == fs;
    }

    method BuildEnumValue(value: string, e: EnumProto, scope: string, parentFullName: string, at: TablesSpec.Pointer)
      requires Ready() && at in tables.View().blocks && parentFullName == Join(scope, e.name)
      modifies tables, this`hadErrors
      ensures Declared(IsIdentifier(value), [ValueDecl(file.name, scope, e, value)])
    {
      hide Tables.Valid, Tables.View, Tables.Abstract, DeclareAll, Clash, IsIdentifier;
      var name := tables.AllocateString(value);
      // The full name is a sibling of the parent's: the parent's own name is cut off and this one put in its place.
      var prefix := parentFullName[..|parentFullName| - |e.name|];
      SiblingName(scope, e.name, value);
      var fullName := tables.AllocateString(prefix + value);
      if !IsIdentifier(value) {
        hadErrors := true;
      }
      AddSymbol(fullName, ValueDecl(file.name, scope, e, value), at);
    }

    method BuildEnum(e: EnumProto, scope: string, at: TablesSpec.Pointer)
      requires Ready() && at in tables.View().blocks
      modifies tables, this`hadErrors
      ensures Declared(EnumGood(e), EnumDecls(file.name, scope, e))
    {
      hide Tables.Valid, Tables.View, Tables.Abstract, DeclareAll, Clash, IsIdentifier;
      var fullName := tables.AllocateString(Join(scope, e.name));
      var name := tables.AllocateString(e.name);
      if !IsIdentifier(e.name) || e.values == [] {
        hadErrors := true;
      }
      ghost var checked := IsIdentifier(e.name) && e.values != [];
      DeclaresNothing(old(SoFar()));
      BuildEnumValues(e, scope);
      DeclaresAppend(old(SoFar()), checked, [], IdentifiersUpTo(e.values, |e.values|),
                     ValueDecls(file.name, scope, e, e.values));
      var self := Decl(scope, e.name, SymbolIn(Enum, file.name, scope, e.name));
      AddSymbol(fullName, self, at);
      DeclaresAppend(old(SoFar()), EnumGood(e), [] + ValueDecls(file.name, scope, e, e.values), true, [self]);
      assert [] + ValueDecls(file.name, scope, e, e.values) == ValueDecls(file.name, scope, e, e.values);
    }

    method BuildEnumValues(e: EnumProto, scope: string)
      requires Ready()
      modifies tables, this`hadErrors
      ensures Declared(IdentifiersUpTo(e.values, |e.values|), ValueDecls(file.name, scope, e, e.values))
    {
      hide Tables.Valid, Tables.View, Tables.Abstract, DeclareAll, Clash, IsIdentifier;
      var values := tables.AllocateBytes(|e.values|);
      var i := 0;
      DeclaresNothing(SoFar());
      assert e.values[..0] == [];
      while i < |e.values|
        invariant i <= |e.values| && (e.values != [] ==> values in tables.View().blocks)
        invariant Declared(IdentifiersUpTo(e.values, i), ValueDecls(file.name, scope, e, e.values[..i]))
      {
        BuildEnumValue(e.values[i], e, scope, Join(scope, e.name), values);
        ValuesOneMore(file.name, scope, e, i);
        DeclaresAppend(old(SoFar()), IdentifiersUpTo(e.values, i), ValueDecls(file.name, scope, e, e.values[..i]),
                       IsIdentifier(e.values[i]), [ValueDecl(file.name, scope, e, e.values[i])]);
        i := i + 1;
      }
      assert e.values[..|e.values|] == e.values;
    }

    method BuildEnums(es: seq<EnumProto>, scope: string)
      requires Ready()
      modifies tables, this`hadErrors
      ensures Declared(EnumsGood(es), EnumsDecls(file.name, scope, es))
    {
      hide Tables.Valid, Tables.View, Tables.Abstract, DeclareAll, Clash, EnumGood, EnumDecls, ValueDecls;
      var enums := tables.AllocateBytes(|es|);
      var i := 0;
      DeclaresNothing(SoFar());
      assert es[..0] == [];
      while i < |es|
        invariant i <= |es| && (es != [] ==> enums in tables.View().blocks)
        invariant Declared(EnumsGood(es[..i]), EnumsDecls(file.name, scope, es[..i]))
      {
        BuildEnum(es[i], scope, enums);
        EnumsOneMore(file.name, scope, es, i);
        DeclaresAppend(old(SoFar()), EnumsGood(es[..i]), EnumsDecls(file.name, scope, es[..i]),
                       EnumGood(es[i]), EnumDecls(file.name, scope, es[i]));
        i := i + 1;
      }
      assert es[..|es|] == es;
    }

    method BuildMethod(rpc: MethodProto, service: string, at: TablesSpec.Pointer)
      requires Ready() && at in tables.View().blocks
      modifies tables, this`hadErrors
      ensures Declared(IsIdentifier(rpc.name), [MethodDecl(file.name, service, rpc)])
    {
      hide Tables.Valid, Tables.View, Tables.Abstract, DeclareAll, Clash, IsIdentifier;
      var name := tables.AllocateString(rpc.name);
      var fullName := tables.AllocateString(service + "." + rpc.name);
      if !IsIdentifier(rpc.name) {
        hadErrors := true;
      }
      AddSymbol(fullName, MethodDecl(file.name, service, rpc), at);
    }

    method BuildMethods(ms: seq<MethodProto>, service: string)
      requires Ready()
      modifies tables, this`hadErrors
      ensures Declared(MethodsGood(ms), MethodDecls(file.name, service, ms))
    {
      hide Tables.Valid, Tables.View, Tables.Abstract, DeclareAll, Clash, IsIdentifier;
      var methods := tables.AllocateBytes(|ms|);
      var i := 0;
      DeclaresNothing(SoFar());
      assert ms[..0] == [];
      while i < |ms|
        invariant i <= |ms| && (ms != [] ==> methods in tables.View().blocks)
        invariant Declared(MethodsGood(ms[..i]), MethodDecls(file.name, service, ms[..i]))
      {
        BuildMethod(ms[i], service, methods);
        MethodsOneMore(file.name, service, ms, i);
        DeclaresAppend(old(SoFar()), MethodsGood(ms[..i]), MethodDecls(file.name, service, ms[..i]),
                       IsIdentifier(ms[i].name), [MethodDecl(file.name, service, ms[i])]);
        i := i + 1;
      }
      assert ms[..|ms|] == ms;
    }

    method BuildService(s: ServiceProto, scope: string, at: TablesSpec.Pointer)
      requires Ready() && at in tables.View().blocks
      modifies tables, this`hadErrors
      ensures Declared(ServiceGood(s), ServiceDecls(file.name, scope, s))
    {
      hide Tables.Valid, Tables.View, Tables.Abstract, DeclareAll, Clash, IsIdentifier, MethodsGood;
      var fullName := tables.AllocateString(Join(scope, s.name));
      var name := tables.AllocateString(s.name);
      if !IsIdentifier(s.name) {
        hadErrors := true;
      }
      DeclaresNothing(old(SoFar()));
      BuildMethods(s.methods, Join(scope, s.name));
      ghost var inner := MethodDecls(file.name, Join(scope, s.name), s.methods);
      DeclaresAppend(old(SoFar()), IsIdentifier(s.name), [], MethodsGood(s.methods), inner);
      assert [] + inner == inner;
      var self := Decl(scope, s.name, SymbolIn(Service, file.name, scope, s.name));
      AddSymbol(fullName, self, at);
      DeclaresAppend(old(SoFar()), ServiceGood(s), inner, true, [self]);
    }

    method BuildServices(ss: seq<ServiceProto>, scope: string)
      requires Ready()
      modifies tables, this`hadErrors
      ensures Declared(ServicesGood(ss), ServicesDecls(file.name, scope, ss))
    {
      hide Tables.Valid, Tables.View, Tables.Abstract, DeclareAll, Clash, ServiceGood, ServiceDecls, MethodDecls;
      var services := tables.AllocateBytes(|ss|);
      var i := 0;
      DeclaresNothing(SoFar());
      assert ss[..0] == [];
      while i < |ss|
        invariant i <= |ss| && (ss != [] ==> services in tables.View().blocks)
        invariant Declared(ServicesGood(ss[..i]), ServicesDecls(file.name, scope, ss[..i]))
      {
        BuildService(ss[i], scope, services);
        ServicesOneMore(file.name, scope, ss, i);
        DeclaresAppend(old(SoFar()), ServicesGood(ss[..i]), ServicesDecls(file.name, scope, ss[..i]),
                       ServiceGood(ss[i]), ServiceDecls(file.name, scope, ss[i]));
        i := i + 1;
      }
      assert ss[..|ss|] == ss;
    }

    method BuildExtensionRange(r: Range)
      modifies this`hadErrors
      ensures hadErrors <==> old(hadErrors) || !RangeGood(r)
    {
      if r.start <= 0 {
        hadErrors := true;
      }
      if r.start >= r.end {
        hadErrors := true;
      }
    }

    method BuildExtensionRanges(rs: seq<Range>)
      modifies this`hadErrors
      ensures hadErrors <==> old(hadErrors) || !RangesGood(rs)
    {
      var i := 0;
      while i < |rs|
        invariant i <= |rs|
        invariant hadErrors <==> old(hadErrors) || !RangesGood(rs[..i])
      {
        BuildExtensionRange(rs[i]);
        RangesOneMore(rs, i);
        i := i + 1;
      }
      assert rs[..|rs|] == rs;
    }

    /** The ranges of a message, which declare nothing. */
    method BuildRanges(rs: seq<Range>)
      requires Ready()
      modifies tables, this`hadErrors
      ensures Declared(RangesGood(rs), [])
    {
      hide Tables.Valid, Tables.View, Tables.Abstract, RangesGood;
      var ranges := tables.AllocateBytes(|rs|);
      BuildExtensionRanges(rs);
    }

    /** No field number may lie in an extension range of the message. */
    method CheckFieldsOutside(m: MessageProto)
      modifies this`hadErrors
      ensures hadErrors <==> old(hadErrors) || !FieldsOutside(m.fields, m.ranges)
    {
      var i := 0;
      while i < |m.fields|
        invariant i <= |m.fields|
        invariant hadErrors <==> old(hadErrors) || !FieldsOutside(m.fields[..i], m.ranges)
      {
        var j := 0;
        ghost var before := hadErrors;
        while j < |m.ranges|
          invariant j <= |m.ranges|
          invariant hadErrors <==> before || exists k | 0 <= k < j :: RangeHolds(m.ranges[k], m.fields[i].number)
        {
          if m.ranges[j].start <= m.fields[i].number && m.fields[i].number < m.ranges[j].end {
            assert RangeHolds(m.ranges[j], m.fields[i].number);
            hadErrors := true;
          }
          j := j + 1;
        }
        OutsideOneMore(m.fields, m.ranges, i);
        i := i + 1;
      }
      assert m.fields[..|m.fields|] == m.fields;
    }

    /** No two extension ranges of the message may overlap. */
    method CheckRangesApart(rs: seq<Range>)
      modifies this`hadErrors
      ensures hadErrors <==> old(hadErrors) || !RangesApart(rs)
    {
      var i := 0;
      while i < |rs|
        invariant i <= |rs|
        invariant hadErrors <==> old(hadErrors) || exists a, b | 0 <= a < i && a < b < |rs| :: Overlap(rs[a], rs[b])
      {
        var j := i + 1;
        ghost var before := hadErrors;
        while j < |rs|
          invariant i < j <= |rs|
          invariant hadErrors <==> before || exists b | i < b < j :: Overlap(rs[i], rs[b])
        {
          if rs[i].end > rs[j].start && rs[j].end > rs[i].start {
            assert Overlap(rs[i], rs[j]);
            hadErrors := true;
          }
          j := j + 1;
        }
        i := i + 1;
      }
    }

    method CheckNumbers(m: MessageProto)
      modifies this`hadErrors
      ensures hadErrors <==> old(hadErrors) || !NumbersGood(m)
    {
      CheckFieldsOutside(m);
      CheckRangesApart(m.ranges);
    }

    /** What is inside a message, in the order it is built; the ranges declare nothing. */
    method BuildMessageParts(m: MessageProto, inner: string)
      requires Ready()
      modifies tables, this`hadErrors
      ensures Declared(PartsGood(m), PartsDecls(file.name, inner, m))
      decreases m, 1
    {
      hide Tables.Valid, Tables.View, Tables.Abstract, DeclareAll, Clash;
      hide FieldDecls, MessagesDecls, EnumsDecls, FieldsGood, MessagesGood, EnumsGood, RangesGood;
      ghost var p, f := old(SoFar()), file.name;
      BuildFields(m.fields, inner, false);
      BuildMessages(m.nested, inner);
      DeclaresAppend(p, FieldsGood(m.fields, false), FieldDecls(f, inner, m.fields),
                     MessagesGood(m.nested), MessagesDecls(f, inner, m.nested));
      BuildEnums(m.enums, inner);
      DeclaresAppend(p, FieldsGood(m.fields, false) && MessagesGood(m.nested),
                     FieldDecls(f, inner, m.fields) + MessagesDecls(f, inner, m.nested),
                     EnumsGood(m.enums), EnumsDecls(f, inner, m.enums));
      BuildRanges(m.ranges);
      ghost var ds :=
        FieldDecls(f, inner, m.fields) + MessagesDecls(f, inner, m.nested) + EnumsDecls(f, inner, m.enums);
      DeclaresAppend(p, FieldsGood(m.fields, false) && MessagesGood(m.nested) && EnumsGood(m.enums), ds,
                     RangesGood(m.ranges), []);
      assert ds + [] == ds;
      BuildFields(m.extensions, inner, true);
      DeclaresAppend(p, FieldsGood(m.fields, false) && MessagesGood(m.nested) && EnumsGood(m.enums) &&
                        RangesGood(m.ranges),
                     FieldDecls(f, inner, m.fields) + MessagesDecls(f, inner, m.nested) + EnumsDecls(f, inner, m.enums),
                     FieldsGood(m.extensions, true), FieldDecls(f, inner, m.extensions));
    }

    method BuildMessage(m: MessageProto, scope: string, at: TablesSpec.Pointer)
      requires Ready() && at in tables.View().blocks
      modifies tables, this`hadErrors
      ensures Declared(MessageGood(m), MessageDecls(file.name, scope, m))
      decreases m, 2
    {
      hide Tables.Valid, Tables.View, Tables.Abstract, DeclareAll, Clash, PartsGood, PartsDecls, IsIdentifier;
      hide MessageGood, MessageDecls, NumbersGood;
      ghost var p, f, inner := old(SoFar()), file.name, Join(scope, m.name);
      var fullName := tables.AllocateString(Join(scope, m.name));
      if !IsIdentifier(m.name) {
        hadErrors := true;
      }
      var name := tables.AllocateString(m.name);
      DeclaresNothing(p);
      BuildMessageParts(m, fullName.value);
      DeclaresAppend(p, IsIdentifier(m.name), [], PartsGood(m), PartsDecls(f, inner, m));
      assert [] + PartsDecls(f, inner, m) == PartsDecls(f, inner, m);
      var self := Decl(scope, m.name, MessageSymbol(file.name, scope, m));
      AddSymbol(fullName, self, at);
      DeclaresAppend(p, IsIdentifier(m.name) && PartsGood(m), PartsDecls(f, inner, m), true, [self]);
      CheckNumbers(m);
      DeclaresCheck(p, IsIdentifier(m.name) && PartsGood(m), PartsDecls(f, inner, m) + [self], NumbersGood(m));
      MessageInParts(f, scope, m);
    }

    method BuildMessages(ms: seq<MessageProto>, scope: string)
      requires Ready()
      modifies tables, this`hadErrors
      ensures Declared(MessagesGood(ms), MessagesDecls(file.name, scope, ms))
      decreases ms, 0
    {
      hide Tables.Valid, Tables.View, Tables.Abstract, DeclareAll, Clash, MessageGood, MessageDecls;
      var messages := tables.AllocateBytes(|ms|);
      var i := 0;
      DeclaresNothing(SoFar());
      assert ms[..0] == [];
      while i < |ms|
        invariant i <= |ms| && (ms != [] ==> messages in tables.View().blocks)
        invariant Declared(MessagesGood(ms[..i]), MessagesDecls(file.name, scope, ms[..i]))
      {
        BuildMessage(ms[i], scope, messages);
        MessagesOneMore(file.name, scope, ms, i);
        DeclaresAppend(old(SoFar()), MessagesGood(ms[..i]), MessagesDecls(file.name, scope, ms[..i]),
                       MessageGood(ms[i]), MessageDecls(file.name, scope, ms[i]));
        i := i + 1;
      }
      assert ms[..|ms|] == ms;
    }

    /** Adds a package and its parents, stopping at the first name that is already there. */
    method AddPackage(name: TablesSpec.Cell)
      requires Ready() && name in tables.View().cells
      modifies tables, this`hadErrors
      ensures OnlyDeclared()
      ensures SoFar() == PackageProgress(old(SoFar()), file.name, name.value)
      decreases |name.value|
    {
      hide Tables.Valid, Tables.View, Tables.Abstract, IsIdentifier;
      var added := tables.AddSymbol(name, PackageSymbol(file.name, name.value), filePtr);
      if added {
        var dot := LastDot(name.value);
        if dot == -1 {
          if !IsIdentifier(name.value) {
            hadErrors := true;
          }
        } else {
          var parent := tables.AllocateString(name.value[..dot]);
          AddPackage(parent);
          if !IsIdentifier(name.value[dot + 1..]) {
            hadErrors := true;
          }
        }
      } else {
        var existing := tables.FindSymbol(name.value);
        if existing.value.kind != Package {
          hadErrors := true;
        }
      }
    }

    /** Every import must be loaded, and listed once. */
    method CheckDependencies()
      requires Ready()
      modifies tables, this`hadErrors
      ensures OnlyDeclared() && Core() == old(Core())
      ensures hadErrors <==>
              old(hadErrors) || !(ImportsPresent(Core().files, file.dependencies) && ListedOnce(file.dependencies))
    {
      hide Tables.Valid, Tables.View, Tables.Abstract, ImportsPresent, ListedOnce, ImportProblem, IsSeen;
      var seen: set<string> := {};
      var links := tables.AllocateBytes(|file.dependencies|);
      var i := 0;
      NoProblemYet(Core().files, file.dependencies);
      while i < |file.dependencies|
        modifies this`hadErrors
        invariant i <= |file.dependencies|
        invariant OnlyDeclared() && Core() == old(Core())
        invariant IsSeen(seen, file.dependencies, i)
        invariant hadErrors <==> old(hadErrors) || ImportProblem(Core().files, file.dependencies, i)
      {
        SeenOneMore(Core().files, seen, file.dependencies, i);
        if file.dependencies[i] in seen {
          hadErrors := true;
        }
        seen := seen + {file.dependencies[i]};
        var dependency := tables.FindFile(file.dependencies[i]);
        if dependency.None? {
          hadErrors := true;
        }
        i := i + 1;
      }
      NoImportProblem(Core().files, file.dependencies);
    }

    /** Indexes into the list of imports must be in range. */
    method CheckIndexes(indexes: seq<int>)
      requires Ready()
      modifies tables, this`hadErrors
      ensures OnlyDeclared() && Core() == old(Core())
      ensures hadErrors <==> old(hadErrors) || !IndexesGood(file, indexes)
    {
      hide Tables.Valid, Tables.View, Tables.Abstract;
      var links := tables.AllocateBytes(|indexes|);
      var i := 0;
      while i < |indexes|
        invariant i <= |indexes|
        invariant OnlyDeclared() && Core() == old(Core())
        invariant hadErrors <==> old(hadErrors) || exists k | 0 <= k < i :: !(0 <= indexes[k] < |file.dependencies|)
      {
        if !(indexes[i] >= 0 && indexes[i] < |file.dependencies|) {
          hadErrors := true;
        }
        i := i + 1;
      }
    }

    /** Marks a file, and what it imports publicly, as visible. */
    method RecordPublicDependencies(name: string)
      modifies this`dependencies
      ensures Recorded(tables.View().core.files, old(dependencies), dependencies, name)
      decreases tables.View().core.files.Keys - dependencies
    {
      hide Tables.View;
      ghost var files := tables.View().core.files;
      var found := tables.FindFile(name);
      if found.None? || name in dependencies {
        return;
      }
      dependencies := dependencies + {name};
      ReachesItself(files, name);
      var targets := PublicTargets(found.value);
      var i := 0;
      while i < |targets|
        invariant i <= |targets|
        invariant RecordedSoFar(files, old(dependencies), dependencies, name, targets[..i])
        invariant files.Keys - dependencies < old(files.Keys - dependencies)
      {
        ghost var before := dependencies;
        RecordPublicDependencies(targets[i]);
        RecordedStep(files, old(dependencies), before, dependencies, name, targets, i);
        i := i + 1;
      }
      assert targets[..i] == targets;
      RecordedFinish(files, old(dependencies), dependencies, name);
    }

    /** The visible files: the imports, and what they import publicly. */
    method RecordAllDependencies()
      requires Ready()
      modifies this`dependencies
      ensures dependencies == Visible(Core().files, file.dependencies)
    {
      hide Tables.View;
      dependencies := {};
      var i := 0;
      while i < |file.dependencies|
        invariant i <= |file.dependencies|
        invariant RecordedAll(Core().files, file.dependencies, i, dependencies)
      {
        ghost var before := dependencies;
        RecordPublicDependencies(file.dependencies[i]);
        RecordOneMore(Core().files, file.dependencies, i, before, dependencies);
        i := i + 1;
      }
      RecordedAllIsVisible(Core().files, file.dependencies, dependencies);
    }

    // ----- finding symbols -----

    function Here(): Viewpoint
      reads this`file, this`dependencies
    {
      Viewpoint(file, dependencies, pool.enforceDependencies)
    }

    ghost function Finder(): Finder
      reads this`file, this`dependencies, tables
    {
      FinderOf(Core().symbols, Core().files, Here())
    }

    /**
     Names still mean what they did when the file had been declared. That is so in a pool with no database,
     whose tables do not change, and where imports are enforced and all has gone well.
     */
    ghost predicate Knows()
      reads this`file, this`dependencies, this`answers, tables
    {
      && (pool.fallback.None? || (Steady(Core().symbols, Core().files) && Established(Core(), Here())))
      && SameAnswers(answers, Finder())
    }

    /**
     Loading may have changed the tables, and an error may have been found, but the builder's file,
     its visible files and its place on the stacks are the same; without a fallback database only
     extension numbers can have been added.
     */
    twostate predicate OnlyLinked()
      reads this, tables
    {
      && old(Ready()) && Ready()
      && file == old(file) && filePtr == old(filePtr) && dependencies == old(dependencies)
      && tables.saved == old(tables.saved) && tables.pendingFiles == old(tables.pendingFiles)
      && old(tables.View().blocks) <= tables.View().blocks
      && Evolves(old(Core()), Core(), tables.pendingFiles, pool.enforceDependencies)
      && pool.Unbuilt() <= old(pool.Unbuilt())
      && (old(hadErrors) ==> hadErrors)
      && answers == old(answers) && (old(Knows()) ==> Knows())
      && (pool.fallback.None? ==> Core() == old(Core()).(extensions := Core().extensions))
    }

    method MayUseSymbol(name: string, s: Symbol) returns (usable: bool)
      requires Ready()
      ensures usable == MayUse(Core().files, Here(), name, s)
    {
      hide Tables.Valid, Tables.View, Tables.Abstract;
      if !pool.enforceDependencies {
        return true;
      }
      if s.file == file.name || s.file in dependencies {
        return true;
      }
      if s.kind == Package {
        if IsDottedPrefix(name, file.package) {
          return true;
        }
        var rest := dependencies;
        while rest != {}
          invariant rest <= dependencies
          invariant forall d | d in dependencies && d !in rest && d in Core().files ::
                      !IsDottedPrefix(name, Core().files[d].package)
        {
          var d :| d in rest;
          var dependency := tables.FindFile(d);
          if dependency.Some? && IsDottedPrefix(name, dependency.value.package) {
            return true;
          }
          rest := rest - {d};
        }
      }
      return false;
    }

    method FindSymbol(name: string) returns (r: Option<Symbol>)
      requires Ready()
      modifies tables
      ensures OnlyLinked()
      ensures pool.fallback.None? ==> unchanged(tables)
      ensures r.Some? ==> r == FindVisible(Core().symbols, Core().files, Here(), name)
      ensures r.Some? ==> name in Core().symbols && Core().symbols[name] == r.value
      ensures r == if old(name in Core().symbols) || pool.Brings(old(pool.FileToLoad(name)))
                   then FindVisible(Core().symbols, Core().files, Here(), name) else None
      ensures old(Knows()) ==> r == answers(name)
      decreases 0, pool.Unbuilt(), 4
    {
      hide Tables.Valid, Tables.View, Tables.Abstract, FilesSettled, FilesResolved, Steady, GoodCore;
      ghost var core1 := Core();
      r := tables.FindSymbol(name);
      if r.None? {
        var found := pool.TryFindSymbolInFallbackDatabase(name);
        if old(Knows()) && pool.fallback.Some? {
          AnswersStay(core1, Core(), tables.pendingFiles, pool.enforceDependencies, Here(), answers);
        }
        if found {
          r := tables.FindSymbol(name);
        }
      }
      if r.Some? {
        var usable := MayUseSymbol(name, r.value);
        if !usable {
          r := None;
        }
      }
    }

    /** Resolves a name used in `relativeTo`; the loop chops the last component off the scope each time round. */
    method LookupSymbolNoPlaceholder(name: string, relativeTo: string, typesOnly: bool) returns (r: Option<Symbol>)
      requires Ready()
      modifies tables
      ensures OnlyLinked()
      ensures r.Some? ==> Refers(Core().symbols, name, relativeTo, r.value)
      ensures pool.fallback.None? ==> unchanged(tables)
      ensures old(Knows()) ==> r == Lookup(answers, name, relativeTo, typesOnly)
      decreases 0, pool.Unbuilt(), 5
    {
      hide Tables.Valid, Tables.View, Tables.Abstract, Ready, Knows, Evolves, FindVisible, IsCandidate, LastDot;
      hide FirstDot;
      hide DescriptorPool.FileToLoad, DescriptorPool.Brings;
      if |name| > 0 && name[0] == '.' {
        r := FindSymbol(name[1..]);
        RootIsCandidate(name, relativeTo);
        return;
      }
      EvolvesNot(Core(), tables.pendingFiles, pool.enforceDependencies);
      var firstPart := FirstPart(name);
      var scopeToTry := relativeTo;
      while true
        invariant OnlyLinked() && old(pool.Unbuilt()) >= pool.Unbuilt()
        invariant IsScope(scopeToTry, relativeTo)
        invariant pool.fallback.None? ==> unchanged(tables)
        invariant old(Knows()) ==>
                    Lookup(answers, name, relativeTo, typesOnly) == Climb(answers, name, scopeToTry, typesOnly)
        decreases |scopeToTry|
      {
        ghost var core1 := Core();
        var dotPos := LastDot(scopeToTry);
        if dotPos == -1 {
          r := FindSymbol(name);
          RootIsCandidate(name, relativeTo);
          EvolvesTransitive(old(Core()), core1, Core(), tables.pendingFiles, pool.enforceDependencies);
          return;
        }
        OuterScope(scopeToTry, relativeTo);
        scopeToTry := scopeToTry[..dotPos];
        ScopedIsCandidate(scopeToTry, name, relativeTo);
        var result := FindSymbol(scopeToTry + "." + firstPart);
        EvolvesTransitive(old(Core()), core1, Core(), tables.pendingFiles, pool.enforceDependencies);
        if result.Some? {
          if firstPart != name {
            if result.value.IsAggregate() {
              core1 := Core();
              r := FindSymbol(scopeToTry + "." + name);
              EvolvesTransitive(old(Core()), core1, Core(), tables.pendingFiles, pool.enforceDependencies);
              return;
            }
          } else if !typesOnly || result.value.IsType() {
            r := result;
            return;
          }
        }
      }
    }

    // ----- linking -----

    ghost function LinkState(): Linked
      reads this, tables
    {
      Linked(numbers, Core().extensions, !hadErrors)
    }

    /** The number table holds what has been claimed. */
    ghost predicate TableKept()
      reads this`claims, this`numbers
    {
      Tabled(claims, numbers)
    }

    /**
     Linking `ls` has made fitting claims for them; and as long as names mean what they did, it has made the
     present state of the old one, up to the extensions of files that were loaded meanwhile.
     */
    twostate predicate LinkedBy(ls: seq<Link>)
      reads this, tables
    {
      && OnlyLinked()
      && (old(TableKept()) ==> TableKept())
      && ClaimsFrom(Core().symbols, old(claims), claims, ls, !hadErrors)
      && (old(Knows()) ==> LinkedAs(pool.fallback.None?, LinkState(), LinkAll(answers, old(LinkState()), ls)))
    }

    /** Finds the message of an extension; `kept` is false if the field cannot be linked any further. */
    method LinkExtendee(l: Link) returns (kept: bool, message: string)
      requires Ready() && l.FieldLink?
      modifies tables, this`hadErrors
      ensures OnlyLinked() && (!kept ==> hadErrors)
      ensures !hadErrors ==> NumberFits(Core().symbols, l, message)
      ensures pool.fallback.None? ==> unchanged(tables)
      ensures old(Knows()) ==>
                && kept == ResolveExtendee(answers, l).Kept?
                && (kept ==> message == ResolveExtendee(answers, l).message)
                && (hadErrors <==> old(hadErrors) || !(kept && ResolveExtendee(answers, l).good))
      decreases 0, pool.Unbuilt(), 6
    {
      hide Tables.Valid, Tables.View, Tables.Abstract, FilesSettled, FilesResolved, Steady, Knows, GoodCore;
      hide FindVisible, Lookup;
      if l.field.extendee.None? {
        return true, l.parent;
      }
      var extendee := LookupSymbolNoPlaceholder(l.field.extendee.value, l.fullName, false);
      if extendee.None? || extendee.value.kind != Message {
        hadErrors := true;
        return false, "";
      }
      message := extendee.value.fullName;
      if !IsExtensionNumber(extendee.value.ranges, l.field.number) {
        hadErrors := true;
      }
      kept := true;
    }

    /** Checks the default of an enum field: it must name a value of that enum. */
    method LinkDefault(l: Link, enumType: string)
      requires Ready() && l.FieldLink?
      modifies tables, this`hadErrors
      ensures OnlyLinked()
      ensures pool.fallback.None? ==> unchanged(tables)
      ensures old(Knows()) ==> (hadErrors <==> old(hadErrors) || !DefaultGood(answers, l.field, enumType))
      decreases 0, pool.Unbuilt(), 6
    {
      hide Tables.Valid, Tables.View, Tables.Abstract, FilesSettled, FilesResolved, Steady, Knows, GoodCore;
      hide FindVisible, Lookup;
      if l.field.defaultValue.Some? {
        var value := LookupSymbolNoPlaceholder(l.field.defaultValue.value, enumType, false);
        if !(value.Some? && value.value.kind == EnumValue && value.value.enumType == enumType) {
          hadErrors := true;
        }
      }
    }

    /** Finds the type of a field; `kept` is false if the field cannot be linked any further. */
    method LinkType(l: Link, ghost message: string) returns (kept: bool)
      requires Ready() && l.FieldLink?
      modifies tables, this`hadErrors
      ensures OnlyLinked() && (!kept ==> hadErrors)
      ensures !hadErrors ==> TypeFits(Core().symbols, l)
      ensures pool.fallback.None? ==> unchanged(tables)
      ensures old(Knows()) ==>
                && kept == ResolveType(answers, l, message).Kept?
                && (hadErrors <==> old(hadErrors) || !(kept && ResolveType(answers, l, message).good))
      decreases 0, pool.Unbuilt(), 8
    {
      hide Tables.Valid, Tables.View, Tables.Abstract, Knows, Evolves, FindVisible, Refers, Lookup, ResolveKind;
      hide HasType;
      EvolvesNot(Core(), tables.pendingFiles, pool.enforceDependencies);
      if l.field.typeName.None? {
        if l.field.fieldType == MessageType || l.field.fieldType == EnumType {
          hadErrors := true;
        }
        return true;
      }
      var t := LookupSymbolNoPlaceholder(l.field.typeName.value, l.fullName, true);
      if t.None? {
        hadErrors := true;
        return false;
      }
      ghost var core1 := Core();
      kept := LinkKind(l, t.value, message);
      EvolvesTransitive(old(Core()), core1, Core(), tables.pendingFiles, pool.enforceDependencies);
      if !hadErrors {
        assert TypeFits(core1.symbols, l);
        EvolvesGrow(core1, Core(), tables.pendingFiles, pool.enforceDependencies);
        TypeFitsLater(core1.symbols, Core().symbols, l);
      }
    }

    /** Checks that the symbol a type name leads to is of the kind the field needs. */
    method LinkKind(l: Link, t: Symbol, ghost message: string) returns (kept: bool)
      requires Ready() && l.FieldLink?
      modifies tables, this`hadErrors
      ensures OnlyLinked() && (!kept ==> hadErrors)
      ensures !hadErrors ==> HasType(l.field, t.kind)
      ensures pool.fallback.None? ==> unchanged(tables)
      ensures old(Knows()) ==>
                && kept == ResolveKind(answers, l.field, message, t).Kept?
                && (hadErrors <==> old(hadErrors) || !(kept && ResolveKind(answers, l.field, message, t).good))
      decreases 0, pool.Unbuilt(), 7
    {
      hide Tables.Valid, Tables.View, Tables.Abstract, Knows, Evolves, FindVisible, DefaultGood;
      EvolvesNot(Core(), tables.pendingFiles, pool.enforceDependencies);
      var fieldType := l.field.fieldType;
      if fieldType == Unset {
        if t.kind == Message {
          fieldType := MessageType;
        } else if t.kind == Enum {
          fieldType := EnumType;
        } else {
          hadErrors := true;
          return false;
        }
      }
      if fieldType == MessageType {
        if t.kind != Message {
          hadErrors := true;
          return false;
        }
        if l.field.defaultValue.Some? {
          hadErrors := true;
        }
      } else if fieldType == EnumType {
        if t.kind != Enum {
          hadErrors := true;
          return false;
        }
        LinkDefault(l, t.fullName);
      } else {
        hadErrors := true;
      }
      kept := true;
    }

    /** Gives a linked field its number: one field to a number of a message. */
    method AddFieldByNumber(l: Link, message: string)
      requires Ready() && l.FieldLink?
      modifies tables, this`numbers, this`claims, this`hadErrors
      ensures OnlyLinked() && (old(TableKept()) ==> TableKept())
      ensures (message, l.field.number) in old(numbers) ==> hadErrors
      ensures claims == old(claims) +
                        [if (message, l.field.number) in old(numbers) then None else Some((message, l.field.number))]
      ensures LinkState() == AddNumber(old(LinkState()), l, message, true)
      ensures Core() == old(Core()).(extensions := Core().extensions)
    {
      hide Tables.Valid, Tables.View, Tables.Abstract, Tables.Now, TablesSpec.AddExtension, Evolves, Tabled, Steady;
      hide SameAnswers, FinderOf;
      ghost var core1 := Core();
      var key := (message, l.field.number);
      if key in numbers {
        hadErrors := true;
        ClaimNothing();
      } else {
        ClaimNumber(key, l.fullName);
        numbers := numbers[key := l.fullName];
      }
      if l.isExtension {
        var added := tables.AddExtension(key, filePtr);
      }
      ExtensionsEvolve(core1, Core(), tables.pendingFiles, pool.enforceDependencies);
    }

    /** A reference that has no number claims none. */
    ghost method ClaimNothing()
      modifies this`claims
      ensures claims == old(claims) + [None] && (old(TableKept()) ==> TableKept())
    {
      if TableKept() {
        TabledNone(claims, numbers);
      }
      claims := claims + [None];
    }

    ghost method ClaimNumber(key: (string, int), field: string)
      requires key !in numbers
      modifies this`claims
      ensures claims == old(claims) + [Some(key)]
      ensures old(TableKept()) ==> Tabled(claims, numbers[key := field])
    {
      if TableKept() {
        TabledNext(claims, numbers, key, field);
      }
      claims := claims + [Some(key)];
    }

    /** Resolves the names of a field; `kept` is false if the field gets no number. */
    method LinkNames(l: Link) returns (kept: bool, message: string)
      requires Ready() && l.FieldLink?
      modifies tables, this`hadErrors
      ensures OnlyLinked() && (!kept ==> hadErrors)
      ensures !hadErrors ==> ClaimFits(Core().symbols, l, Some((message, l.field.number)))
      ensures pool.fallback.None? ==> unchanged(tables)
      ensures old(Knows()) ==>
                && kept == ResolveField(answers, l).Kept?
                && (kept ==> message == ResolveField(answers, l).message)
                && (hadErrors <==> old(hadErrors) || !(kept && ResolveField(answers, l).good))
      decreases 0, pool.Unbuilt(), 9
    {
      hide Tables.Valid, Tables.View, Tables.Abstract, Knows, Evolves, FindVisible, ResolveExtendee, ResolveType;
      hide NumberFits, TypeFits;
      kept, message := LinkExtendee(l);
      ghost var core1 := Core();
      if kept {
        kept := LinkType(l, message);
        EvolvesTransitive(old(Core()), core1, Core(), tables.pendingFiles, pool.enforceDependencies);
        if !hadErrors {
          EvolvesGrow(core1, Core(), tables.pendingFiles, pool.enforceDependencies);
          NumberFitsLater(core1.symbols, Core().symbols, l, message);
        }
      }
    }

    method CrossLinkField(l: Link)
      requires Ready() && l.FieldLink?
      modifies tables, this`numbers, this`claims, this`hadErrors
      ensures LinkedBy([l])
      decreases 0, pool.Unbuilt(), 10
    {
      hide Tables.Valid, Tables.View, Tables.Abstract, Knows, Evolves, FindVisible, ResolveField, ClaimFits;
      hide ClaimsFrom, TableKept;
      LinkOneAlone(answers, LinkState(), l);
      var kept, message := LinkNames(l);
      ghost var core1 := Core();
      if kept {
        AddFieldByNumber(l, message);
        EvolvesTransitive(old(Core()), core1, Core(), tables.pendingFiles, pool.enforceDependencies);
      } else {
        ClaimNothing();
      }
      assert claims == old(claims) + [claims[|old(claims)|]];
      ClaimsFromOne(Core().symbols, old(claims), l, claims[|old(claims)|], !hadErrors);
    }

    method CrossLinkFields(fs: seq<FieldProto>, scope: string, parent: string, isExtension: bool)
      requires Ready()
      modifies tables, this`numbers, this`claims, this`hadErrors
      ensures LinkedBy(FieldLinks(scope, parent, fs, isExtension))
      decreases 0, pool.Unbuilt(), 11
    {
      hide Tables.Valid, Tables.View, Tables.Abstract, DescriptorPool.Unbuilt, Ready, Evolves, FindVisible;
      hide ClaimsFrom, TableKept, Knows, LinkAll, LinkedAs;
      LinkNothing(pool.fallback.None?, answers, LinkState());
      ClaimsFromNothing(Core().symbols, claims, !hadErrors);
      EvolvesNot(Core(), tables.pendingFiles, pool.enforceDependencies);
      var i := 0;
      assert fs[..0] == [];
      while i < |fs|
        invariant i <= |fs| && old(pool.Unbuilt()) >= pool.Unbuilt()
        invariant LinkedBy(FieldLinks(scope, parent, fs[..i], isExtension))
      {
        var l := FieldLink(fs[i], Join(scope, fs[i].name), parent, isExtension);
        ghost var core1, state1, claims1, good1 := Core(), LinkState(), claims, !hadErrors;
        CrossLinkField(l);
        FieldLinksOneMore(scope, parent, fs, isExtension, i);
        if old(Knows()) {
          LinkedAsTwice(pool.fallback.None?, answers, old(LinkState()), state1, LinkState(),
                        FieldLinks(scope, parent, fs[..i], isExtension), [l]);
        }
        LinkedTwice(old(Core()), core1, Core(), tables.pendingFiles, pool.enforceDependencies,
                    old(claims), claims1, claims,
                    FieldLinks(scope, parent, fs[..i], isExtension), [l], good1, !hadErrors);
        i := i + 1;
      }
      assert fs[..|fs|] == fs;
    }

    method CrossLinkMessage(m: MessageProto, scope: string)
      requires Ready()
      modifies tables, this`numbers, this`claims, this`hadErrors
      ensures LinkedBy(MessageLinks(scope, m))
      decreases 0, pool.Unbuilt(), 12, m, 1
    {
      hide Tables.Valid, Tables.View, Tables.Abstract, DescriptorPool.Unbuilt, Ready, Evolves, FindVisible;
      hide ClaimsFrom, TableKept, Knows, LinkAll, LinkedAs, FieldLinks, MessagesLinks;
      var inner := Join(scope, m.name);
      CrossLinkMessages(m.nested, inner);
      ghost var core1, state1, claims1, good1 := Core(), LinkState(), claims, !hadErrors;
      CrossLinkFields(m.fields, inner, inner, false);
      if old(Knows()) {
        LinkedAsTwice(pool.fallback.None?, answers, old(LinkState()), state1, LinkState(),
                      MessagesLinks(inner, m.nested), FieldLinks(inner, inner, m.fields, false));
      }
      LinkedTwice(old(Core()), core1, Core(), tables.pendingFiles, pool.enforceDependencies,
                  old(claims), claims1, claims,
                  MessagesLinks(inner, m.nested), FieldLinks(inner, inner, m.fields, false), good1, !hadErrors);
      core1, state1, claims1, good1 := Core(), LinkState(), claims, !hadErrors;
      CrossLinkFields(m.extensions, inner, "", true);
      if old(Knows()) {
        LinkedAsTwice(pool.fallback.None?, answers, old(LinkState()), state1, LinkState(),
                      MessagesLinks(inner, m.nested) + FieldLinks(inner, inner, m.fields, false),
                      FieldLinks(inner, "", m.extensions, true));
      }
      LinkedTwice(old(Core()), core1, Core(), tables.pendingFiles, pool.enforceDependencies,
                  old(claims), claims1, claims,
                  MessagesLinks(inner, m.nested) + FieldLinks(inner, inner, m.fields, false),
                  FieldLinks(inner, "", m.extensions, true), good1, !hadErrors);
    }

    method CrossLinkMessages(ms: seq<MessageProto>, scope: string)
      requires Ready()
      modifies tables, this`numbers, this`claims, this`hadErrors
      ensures LinkedBy(MessagesLinks(scope, ms))
      decreases 0, pool.Unbuilt(), 12, ms, 0
    {
      hide Tables.Valid, Tables.View, Tables.Abstract, DescriptorPool.Unbuilt, Ready, Evolves, FindVisible;
      hide ClaimsFrom, TableKept, Knows, LinkAll, LinkedAs, MessageLinks;
      LinkNothing(pool.fallback.None?, answers, LinkState());
      ClaimsFromNothing(Core().symbols, claims, !hadErrors);
      EvolvesNot(Core(), tables.pendingFiles, pool.enforceDependencies);
      var i := 0;
      assert ms[..0] == [];
      while i < |ms|
        invariant i <= |ms| && old(pool.Unbuilt()) >= pool.Unbuilt()
        invariant LinkedBy(MessagesLinks(scope, ms[..i]))
      {
        ghost var core1, state1, claims1, good1 := Core(), LinkState(), claims, !hadErrors;
        CrossLinkMessage(ms[i], scope);
        MessagesLinksOneMore(scope, ms, i);
        if old(Knows()) {
          LinkedAsTwice(pool.fallback.None?, answers, old(LinkState()), state1, LinkState(),
                        MessagesLinks(scope, ms[..i]), MessageLinks(scope, ms[i]));
        }
        LinkedTwice(old(Core()), core1, Core(), tables.pendingFiles, pool.enforceDependencies,
                    old(claims), claims1, claims,
                    MessagesLinks(scope, ms[..i]), MessageLinks(scope, ms[i]), good1, !hadErrors);
        i := i + 1;
      }
      assert ms[..|ms|] == ms;
    }

    method LinkRpcType(l: Link, name: string)
      requires Ready() && l.MethodLink?
      modifies tables, this`hadErrors
      ensures OnlyLinked()
      ensures !hadErrors ==> RefersToMessage(Core().symbols, name, l.methodName)
      ensures pool.fallback.None? ==> unchanged(tables)
      ensures old(Knows()) ==>
                (hadErrors <==> old(hadErrors) || !IsMessage(Lookup(answers, name, l.methodName, false)))
      decreases 0, pool.Unbuilt(), 6
    {
      hide Tables.Valid, Tables.View, Tables.Abstract, FilesSettled, FilesResolved, Steady, Knows, GoodCore;
      hide FindVisible, Lookup;
      var t := LookupSymbolNoPlaceholder(name, l.methodName, false);
      if t.None? {
        hadErrors := true;
      } else if t.value.kind != Message {
        hadErrors := true;
      }
    }

    method CrossLinkMethod(l: Link)
      requires Ready() && l.MethodLink?
      modifies tables, this`claims, this`hadErrors
      ensures LinkedBy([l])
      decreases 0, pool.Unbuilt(), 7
    {
      hide Tables.Valid, Tables.View, Tables.Abstract, Knows, Evolves, FindVisible, Lookup, RefersToMessage;
      hide ClaimsFrom, TableKept;
      LinkOneAlone(answers, LinkState(), l);
      LinkRpcType(l, l.rpc.inputType);
      ghost var core1 := Core();
      LinkRpcType(l, l.rpc.outputType);
      EvolvesTransitive(old(Core()), core1, Core(), tables.pendingFiles, pool.enforceDependencies);
      if !hadErrors {
        EvolvesGrow(core1, Core(), tables.pendingFiles, pool.enforceDependencies);
        RefersToMessageLater(core1.symbols, Core().symbols, l.rpc.inputType, l.methodName);
      }
      ClaimNothing();
      ClaimsFromOne(Core().symbols, old(claims), l, None, !hadErrors);
    }

    method CrossLinkService(s: ServiceProto, scope: string)
      requires Ready()
      modifies tables, this`claims, this`hadErrors
      ensures LinkedBy(MethodLinks(Join(scope, s.name), s.methods))
      decreases 0, pool.Unbuilt(), 8
    {
      hide Tables.Valid, Tables.View, Tables.Abstract, DescriptorPool.Unbuilt, Ready, Evolves, FindVisible;
      hide ClaimsFrom, TableKept, Knows, LinkAll, LinkedAs;
      LinkNothing(pool.fallback.None?, answers, LinkState());
      ClaimsFromNothing(Core().symbols, claims, !hadErrors);
      EvolvesNot(Core(), tables.pendingFiles, pool.enforceDependencies);
      var service := Join(scope, s.name);
      var i := 0;
      assert s.methods[..0] == [];
      while i < |s.methods|
        invariant i <= |s.methods| && old(pool.Unbuilt()) >= pool.Unbuilt()
        invariant LinkedBy(MethodLinks(service, s.methods[..i]))
      {
        var l := MethodLink(s.methods[i], service + "." + s.methods[i].name);
        ghost var core1, state1, claims1, good1 := Core(), LinkState(), claims, !hadErrors;
        CrossLinkMethod(l);
        MethodLinksOneMore(service, s.methods, i);
        if old(Knows()) {
          LinkedAsTwice(pool.fallback.None?, answers, old(LinkState()), state1, LinkState(),
                        MethodLinks(service, s.methods[..i]), [l]);
        }
        LinkedTwice(old(Core()), core1, Core(), tables.pendingFiles, pool.enforceDependencies,
                    old(claims), claims1, claims,
                    MethodLinks(service, s.methods[..i]), [l], good1, !hadErrors);
        i := i + 1;
      }
      assert s.methods[..|s.methods|] == s.methods;
    }

    method CrossLinkServices(ss: seq<ServiceProto>, scope: string)
      requires Ready()
      modifies tables, this`claims, this`hadErrors
      ensures LinkedBy(ServicesLinks(scope, ss))
      decreases 0, pool.Unbuilt(), 9
    {
      hide Tables.Valid, Tables.View, Tables.Abstract, DescriptorPool.Unbuilt, Ready, Evolves, FindVisible;
      hide ClaimsFrom, TableKept, Knows, LinkAll, LinkedAs, MethodLinks;
      LinkNothing(pool.fallback.None?, answers, LinkState());
      ClaimsFromNothing(Core().symbols, claims, !hadErrors);
      EvolvesNot(Core(), tables.pendingFiles, pool.enforceDependencies);
      var i := 0;
      assert ss[..0] == [];
      while i < |ss|
        invariant i <= |ss| && old(pool.Unbuilt()) >= pool.Unbuilt()
        invariant LinkedBy(ServicesLinks(scope, ss[..i]))
      {
        ghost var core1, state1, claims1, good1 := Core(), LinkState(), claims, !hadErrors;
        CrossLinkService(ss[i], scope);
        ServicesLinksOneMore(scope, ss, i);
        if old(Knows()) {
          LinkedAsTwice(pool.fallback.None?, answers, old(LinkState()), state1, LinkState(),
                        ServicesLinks(scope, ss[..i]),
                        MethodLinks(Join(scope, ss[i].name), ss[i].methods));
        }
        LinkedTwice(old(Core()), core1, Core(), tables.pendingFiles, pool.enforceDependencies,
                    old(claims), claims1, claims,
                    ServicesLinks(scope, ss[..i]), MethodLinks(Join(scope, ss[i].name), ss[i].methods),
                    good1, !hadErrors);
        i := i + 1;
      }
      assert ss[..|ss|] == ss;
    }

    method CrossLinkFile()
      requires Ready()
      modifies tables, this`numbers, this`claims, this`hadErrors
      ensures LinkedBy(FileLinks(file))
      decreases 0, pool.Unbuilt(), 13
    {
      hide Tables.Valid, Tables.View, Tables.Abstract, DescriptorPool.Unbuilt, Ready, Evolves, FindVisible;
      hide ClaimsFrom, TableKept, Knows, LinkAll, LinkedAs, FieldLinks, MessagesLinks, ServicesLinks;
      var scope := file.package;
      CrossLinkMessages(file.messages, scope);
      ghost var core1, state1, claims1, good1 := Core(), LinkState(), claims, !hadErrors;
      CrossLinkFields(file.extensions, scope, "", true);
      if old(Knows()) {
        LinkedAsTwice(pool.fallback.None?, answers, old(LinkState()), state1, LinkState(),
                      MessagesLinks(scope, file.messages), FieldLinks(scope, "", file.extensions, true));
      }
      LinkedTwice(old(Core()), core1, Core(), tables.pendingFiles, pool.enforceDependencies,
                  old(claims), claims1, claims,
                  MessagesLinks(scope, file.messages), FieldLinks(scope, "", file.extensions, true), good1, !hadErrors);
      core1, state1, claims1, good1 := Core(), LinkState(), claims, !hadErrors;
      CrossLinkServices(file.services, scope);
      if old(Knows()) {
        LinkedAsTwice(pool.fallback.None?, answers, old(LinkState()), state1, LinkState(),
                      MessagesLinks(scope, file.messages) + FieldLinks(scope, "", file.extensions, true),
                      ServicesLinks(scope, file.services));
      }
      LinkedTwice(old(Core()), core1, Core(), tables.pendingFiles, pool.enforceDependencies,
                  old(claims), claims1, claims,
                  MessagesLinks(scope, file.messages) + FieldLinks(scope, "", file.extensions, true),
                  ServicesLinks(scope, file.services), good1, !hadErrors);
    }

    // ----- building a file -----

    method ValidateMessageOptions(m: MessageProto)
      modifies this`hadErrors
      ensures hadErrors <==> old(hadErrors) || !RangesBounded(m)
      decreases m, 1
    {
      ValidateMessagesOptions(m.nested);
      var maxExtensionRange := if m.messageSet then INT32_MAX else MAX_NUMBER;
      var i := 0;
      while i < |m.ranges|
        invariant i <= |m.ranges|
        invariant hadErrors <==> old(hadErrors) || !AllRangesBounded(m.nested) ||
                                 exists k | 0 <= k < i :: !(m.ranges[k].end <= MaxExtension(m) + 1)
      {
        if m.ranges[i].end > maxExtensionRange + 1 {
          hadErrors := true;
        }
        i := i + 1;
      }
    }

    method ValidateMessagesOptions(ms: seq<MessageProto>)
      modifies this`hadErrors
      ensures hadErrors <==> old(hadErrors) || !AllRangesBounded(ms)
      decreases ms, 0
    {
      var i := 0;
      while i < |ms|
        invariant i <= |ms|
        invariant hadErrors <==> old(hadErrors) || !AllRangesBounded(ms[..i])
      {
        ValidateMessageOptions(ms[i]);
        BoundedOneMore(ms, i);
        i := i + 1;
      }
      assert ms[..|ms|] == ms;
    }

    /** Builds everything a file declares. */
    method BuildChildren()
      requires Ready()
      modifies tables, this`hadErrors
      ensures Declared(FileGood(file), FileDecls(file))
    {
      hide Tables.Valid, Tables.View, Tables.Abstract, DeclareAll, Clash;
      hide FieldDecls, MessagesDecls, EnumsDecls, ServicesDecls, FieldsGood, MessagesGood, EnumsGood, ServicesGood;
      ghost var p, f, scope := SoFar(), file.name, file.package;
      BuildMessages(file.messages, file.package);
      BuildEnums(file.enums, file.package);
      DeclaresAppend(p, MessagesGood(file.messages), MessagesDecls(f, scope, file.messages),
                     EnumsGood(file.enums), EnumsDecls(f, scope, file.enums));
      BuildServices(file.services, file.package);
      DeclaresAppend(p, MessagesGood(file.messages) && EnumsGood(file.enums),
                     MessagesDecls(f, scope, file.messages) + EnumsDecls(f, scope, file.enums),
                     ServicesGood(file.services), ServicesDecls(f, scope, file.services));
      BuildFields(file.extensions, file.package, true);
      DeclaresAppend(p, MessagesGood(file.messages) && EnumsGood(file.enums) && ServicesGood(file.services),
                     MessagesDecls(f, scope, file.messages) + EnumsDecls(f, scope, file.enums) +
                       ServicesDecls(f, scope, file.services),
                     FieldsGood(file.extensions, true), FieldDecls(f, scope, file.extensions));
    }

    /** The package, the imports and the declarations of the file. */
    method DeclareFile(package: TablesSpec.Cell)
      requires Ready() && package in tables.View().cells && package.value == file.package
      modifies tables, this`hadErrors, this`dependencies
      ensures Ready() && tables.saved == old(tables.saved) && tables.pendingFiles == old(tables.pendingFiles)
      ensures old(tables.View().blocks) <= tables.View().blocks
      ensures dependencies == Visible(Core().files, file.dependencies)
      ensures Core() == old(Core()).(symbols := FileSymbols(old(Core()).symbols, file))
      ensures hadErrors <==>
              old(hadErrors) || !(ImportsGood(Core().files, file) && FileSymbolsGood(old(Core()).symbols, file))
    {
      hide Tables.Valid, Tables.View, Tables.Abstract, DeclareAll, Clash, PackageGood, WithPackage, FileDecls, FileGood;
      hide ImportsPresent, ListedOnce, IndexesGood;
      if package.value != "" {
        AddPackage(package);
      }
      CheckDependencies();
      CheckIndexes(file.publicDependencies);
      RecordAllDependencies();
      CheckIndexes(file.weakDependencies);
      BuildChildren();
    }

    /** Allocates the descriptor of the file and puts it in the tables; false if its name is taken. */
    method StartFile(proto: FileProto) returns (added: bool, package: TablesSpec.Cell)
      requires tables == pool.tables && pool.Valid() && tables.saved != []
      modifies this, tables
      ensures pool.Valid() && tables.saved == old(tables.saved) && tables.pendingFiles == old(tables.pendingFiles)
      ensures old(tables.View().blocks) <= tables.View().blocks
      ensures hadErrors == old(hadErrors) && numbers == old(numbers) && claims == old(claims)
      ensures added == (proto.name !in old(Core()).files)
      ensures added ==> Ready() && file == proto && package in tables.View().cells && package.value == proto.package
      ensures added ==> forall f | f in old(Core()).ranks :: old(Core()).ranks[f] < filePtr
      ensures Core() == if !added then old(Core()) else
                old(Core()).(files := old(Core()).files[proto.name := proto],
                             ranks := old(Core()).ranks[proto.name := filePtr])
    {
      hide Tables.Valid, Tables.View, Tables.Abstract, Tables.Now, TablesSpec.AddFile, TablesSpec.AllocateString;
      filePtr := tables.AllocateBytes(1);
      file := proto;
      if proto.hasSourceInfo {
        tables.AllocateMessage();
      }
      tables.AllocateFileTables();
      var name := tables.AllocateString(proto.name);
      package := tables.AllocateString(proto.package);
      added := tables.AddFile(name, proto, filePtr);
    }

    /** Starts and declares the file; false if its name is taken. */
    method BuildDeclarations(proto: FileProto) returns (added: bool)
      requires tables == pool.tables && pool.Valid() && tables.saved != []
      requires !hadErrors && numbers == map[] && claims == []
      requires proto.name !in tables.pendingFiles
      modifies this, tables
      ensures pool.Valid() && tables.saved == old(tables.saved) && tables.pendingFiles == old(tables.pendingFiles)
      ensures old(tables.View().blocks) <= tables.View().blocks
      ensures added == (proto.name !in old(Core()).files)
      ensures added ==>
                && Ready() && file == proto && numbers == map[] && claims == []
                && Here() == ViewpointOf(old(Core()), pool.enforceDependencies, proto)
                && Core() == DeclaredCore(old(Core()), proto, filePtr)
                && (!hadErrors <==>
                      ImportsGood(FilesWith(old(Core()), proto), proto) && FileSymbolsGood(old(Core()).symbols, proto))
                && answers == LinkFinder(old(Core()), pool.enforceDependencies, proto)
                && (pool.fallback.None? || (!hadErrors && pool.Decides(old(Core()))) ==> Knows())
                && (DeclaredGood(old(Core()), proto) ==> DeclaresFile(old(Core()), Core(), tables.pendingFiles, proto))
    {
      hide Tables.Valid, Tables.View, Tables.Abstract, FilesSettled, FilesResolved, Steady, GoodCore, FileSymbols;
      hide FileSymbolsGood, ImportsGood, Visible, AllRangesBounded;
      ghost var c := Core();
      tables.ViewFacts();
      var package;
      added, package := StartFile(proto);
      if added {
        DeclareFile(package);
        answers := Finder();
        VisibleWithin(Core().files, proto.dependencies);
        if !hadErrors && Steady(c.symbols, c.files) {
          ImportsGoodPresent(FilesWith(c, proto), proto);
          SteadyWith(c.symbols, c.files, proto);
        }
        if DeclaredGood(c, proto) {
          DeclaringEvolves(c, proto, filePtr, tables.pendingFiles);
        }
      }
    }

    /** Everything between the checkpoint of a build and its commit or rollback; `hadErrors` is the outcome. */
    method BuildBody(proto: FileProto)
      requires tables == pool.tables && pool.Valid() && tables.saved != []
      requires !hadErrors && numbers == map[] && claims == []
      requires proto.name !in tables.pendingFiles
      requires pool.fallback.Some? ==> proto.name in pool.Unbuilt() && pool.fallback.value.files[proto.name] == proto
      modifies this, tables
      ensures pool.Valid() && tables.saved == old(tables.saved) && tables.pendingFiles == old(tables.pendingFiles)
      ensures !hadErrors ==>
                && old(tables.View().blocks) <= tables.View().blocks
                && Evolves(old(Core()), Core(), tables.pendingFiles, pool.enforceDependencies)
                && proto.name in Core().files && Core().files[proto.name] == proto && proto.name !in old(Core()).files
      ensures !hadErrors ==>
                && MapGrows(FileSymbols(old(Core()).symbols, proto), Core().symbols)
                && MapGrows(FilesWith(old(Core()), proto), Core().files)
      ensures pool.Decides(old(Core())) ==> (!hadErrors <==> Accepts(old(Core()), pool.enforceDependencies, proto))
      ensures pool.fallback.None? && !hadErrors ==>
                proto.name in Core().ranks &&
                Core() == Accepted(old(Core()), pool.enforceDependencies, proto, Core().ranks[proto.name])
      decreases if pool.fallback.None? then 1 else 0, pool.Unbuilt(), 0
    {
      hide Tables.Valid, Tables.View, Tables.Abstract, FilesSettled, FilesResolved, Steady, GoodCore, FileSymbols;
      hide FileSymbolsGood, LinkAll, FileLinks, ImportsGood;
      hide FindVisible, Visible, AllRangesBounded;
      var added := BuildDeclarations(proto);
      if !added {
        hadErrors := true;
        return;
      }
      ghost var core0, core1, knows, declared := old(Core()), Core(), Knows(), !hadErrors;
      CrossLinkFile();
      ghost var linked := !hadErrors;
      if !hadErrors {
        ValidateMessagesOptions(proto.messages);
      }
      if !hadErrors && proto.otherErrors {
        hadErrors := true;
      }
      if !hadErrors {
        EvolvesGrow(core1, Core(), tables.pendingFiles, pool.enforceDependencies);
        if pool.enforceDependencies && Steady(core0.symbols, core0.files) {
          LinkedIsResolved(answers, core0.extensions, proto);
          BuiltIsResolved(core1, Core(), tables.pendingFiles, proto, answers);
        }
        BuildingEvolves(core0, core1, Core(), tables.pendingFiles, pool.enforceDependencies, proto, claims);
      }
    }

    /** Builds a file between a checkpoint and its commit or rollback. */
    method BuildUnderCheckpoint(proto: FileProto) returns (built: bool)
      requires tables == pool.tables && pool.Valid() && !hadErrors && numbers == map[] && claims == []
      requires proto.name !in tables.pendingFiles
      requires pool.fallback.Some? ==> proto.name in pool.Unbuilt() && pool.fallback.value.files[proto.name] == proto
      modifies this, tables
      ensures pool.Loaded()
      ensures !built ==> tables.Now() == old(tables.Now()) && Core() == old(Core())
      ensures built ==>
                proto.name in Core().files && Core().files[proto.name] == proto && proto.name !in old(Core()).files
      ensures built ==>
                && MapGrows(FileSymbols(old(Core()).symbols, proto), Core().symbols)
                && MapGrows(FilesWith(old(Core()), proto), Core().files)
      ensures pool.Decides(old(Core())) ==> (built <==> Accepts(old(Core()), pool.enforceDependencies, proto))
      ensures pool.fallback.None? && built ==>
                proto.name in Core().ranks &&
                Core() == Accepted(old(Core()), pool.enforceDependencies, proto, Core().ranks[proto.name])
      decreases if pool.fallback.None? then 1 else 0, pool.Unbuilt(), 1
    {
      hide Tables.Valid, Tables.View, Tables.Abstract, FilesSettled, FilesResolved, Steady, GoodCore, Accepts, Accepted;
      tables.ViewFacts();
      tables.AddCheckpoint();
      BuildBody(proto);
      if hadErrors {
        tables.RollbackToLastCheckpoint();
        tables.ViewFacts();
        built := false;
      } else {
        tables.ClearLastCheckpoint();
        built := true;
      }
    }

    /** Loads the imports of a file that are not in the pool, before its checkpoint. */
    method PreloadDependencies(proto: FileProto)
      requires tables == pool.tables && pool.Valid() && pool.fallback.Some? && proto.name in pool.Unbuilt()
      modifies tables
      ensures pool.Loaded() && proto.name !in Core().files
      decreases 0, pool.Unbuilt(), 1
    {
      hide Tables.Valid, Tables.View, Tables.Abstract, Evolves;
      tables.PushPending(proto.name);
      ghost var pending, c := tables.pendingFiles, Core();
      EvolvesNot(c, pending, pool.enforceDependencies);
      var i := 0;
      while i < |proto.dependencies|
        invariant i <= |proto.dependencies|
        invariant pool.Valid() && tables.saved == old(tables.saved) && tables.pendingFiles == pending
        invariant old(tables.View().blocks) <= tables.View().blocks
        invariant Evolves(c, Core(), pending, pool.enforceDependencies)
        invariant pool.Unbuilt() <= old(pool.Unbuilt()) - {proto.name}
      {
        var loaded := tables.FindFile(proto.dependencies[i]);
        if loaded.None? {
          ghost var core1 := Core();
          var found := pool.TryFindFileInFallbackDatabase(proto.dependencies[i]);
          EvolvesTransitive(c, core1, Core(), pending, pool.enforceDependencies);
          EvolvesGrow(core1, Core(), pending, pool.enforceDependencies);
        }
        i := i + 1;
      }
      EvolvesApart(c, Core(), pending, proto.name, pool.enforceDependencies);
      tables.PopPending();
    }

    /**
     Builds a file. `base` is what the tables held when the build's own checkpoint was taken, or at the
     exit of a build that took none: a failed build leaves exactly that.
     */
    method BuildFile(proto: FileProto) returns (built: bool, ghost base: TablesSpec.Contents)
      requires tables == pool.tables && pool.Valid() && !hadErrors && numbers == map[] && claims == []
      requires pool.fallback.Some? ==>
                 && proto.name in pool.fallback.value.files && pool.fallback.value.files[proto.name] == proto
                 && proto.name !in Core().files
      modifies this, tables
      ensures pool.Loaded()
      ensures !built ==> tables.Now() == base
      ensures Evolves(old(Core()), CoreOf(base), tables.pendingFiles, pool.enforceDependencies)
      ensures Evolves(CoreOf(base), Core(), tables.pendingFiles, pool.enforceDependencies)
      ensures pool.fallback.None? ==> base == old(tables.Now())
      ensures built ==> proto.name in Core().files
      ensures pool.fallback.Some? && !built ==> proto.name !in Core().files
      ensures pool.Decides(old(Core())) ==> built == BuiltSpec(CoreOf(base), tables.pendingFiles, pool, proto)
      ensures pool.fallback.None? && built && proto.name !in old(Core()).files ==>
                proto.name in Core().ranks &&
                Core() == Accepted(old(Core()), pool.enforceDependencies, proto, Core().ranks[proto.name])
      ensures pool.fallback.None? && proto.name in old(Core()).files ==> tables.Now() == old(tables.Now())
      decreases if pool.fallback.None? then 1 else 0, pool.Unbuilt(), 2
    {
      hide Tables.Valid, Tables.View, Tables.Abstract, Evolves, Steady, Accepts, Accepted;
      base := tables.Now();
      tables.ViewFacts();
      EvolvesNot(Core(), tables.pendingFiles, pool.enforceDependencies);
      var existing := tables.FindFile(proto.name);
      if existing.Some? && pool.identical(existing.value, proto) {
        return true, base;
      }
      if proto.name in tables.pendingFiles {
        hadErrors := true;
        return false, base;
      }
      ghost var core0 := Core();
      if pool.fallback.Some? {
        PreloadDependencies(proto);
      }
      base := tables.Now();
      tables.ViewFacts();
      ghost var core1 := Core();
      if Steady(core0.symbols, core0.files) {
        EvolvesSteady(core0, core1, tables.pendingFiles, pool.enforceDependencies);
      }
      EvolvesGrow(core0, core1, tables.pendingFiles, pool.enforceDependencies);
      built := BuildUnderCheckpoint(proto);
      EvolvesTransitive(core0, core1, Core(), tables.pendingFiles, pool.enforceDependencies);
    }
  }

  /** Whether a build is answered with a file, from the tables its checkpoint would save. */
  ghost predicate BuiltSpec(c: Core, pending: seq<string>, pool: DescriptorPool, proto: FileProto) {
    || (proto.name in c.files && pool.identical(c.files[proto.name], proto))
    || (proto.name !in pending && Accepts(c, pool.enforceDependencies, proto))
  }
}
