/** Where the names used in a resolved file lead: into the file itself or a file that is visible to it. */
module References {
  import opened Declarations
  import opened Descriptors
  import opened Linking
  import opened Names
  import opened NumberClaims
  import opened PublicImports
  import opened Resolver
  import opened StableTables
  import opened Wrappers

  /** The message or enum names that a reference uses. */
  function TypeNames(l: Link): seq<string> {
    match l
    case FieldLink(f, _, _, _) =>
      (if f.extendee.Some? then [f.extendee.value] else []) + (if f.typeName.Some? then [f.typeName.value] else [])
    case MethodLink(rpc, _) => [rpc.inputType, rpc.outputType]
  }

  function ScopeOf(l: Link): string {
    match l
    case FieldLink(_, fullName, _, _) => fullName
    case MethodLink(_, methodName) => methodName
  }

  /** The name stands for a message or an enum of the file itself or of a file visible to it. */
  ghost predicate TypeInSight(symbols: Symbols, files: Files, f: FileProto, name: string, relativeTo: string) {
    exists key | key in symbols ::
      && IsCandidate(key, name, relativeTo)
      && (symbols[key].kind == Message || symbols[key].kind == Enum)
      && (symbols[key].file == f.name || symbols[key].file in Visible(files, f.dependencies))
  }

  lemma {:induction false} ClimbIsCandidate(find: Finder, name: string, scope: string, relativeTo: string,
                                            typesOnly: bool)
    requires IsScope(scope, relativeTo) && !(name != "" && name[0] == '.')
    requires Climb(find, name, scope, typesOnly).Some?
    ensures exists key :: IsCandidate(key, name, relativeTo) && find(key) == Climb(find, name, scope, typesOnly)
    decreases |scope|
  {
    hide LastDot, IsCandidate;
    var d := LastDot(scope);
    if d == -1 {
      RootIsCandidate(name, relativeTo);
    } else {
      OuterScope(scope, relativeTo);
      ScopedIsCandidate(scope[..d], name, relativeTo);
      if !Settles(find, scope[..d] + "." + FirstPart(name), FirstPart(name) != name, typesOnly) {
        ClimbIsCandidate(find, name, scope[..d], relativeTo, typesOnly);
      }
    }
  }

  lemma LookupIsCandidate(find: Finder, name: string, relativeTo: string, typesOnly: bool)
    requires Lookup(find, name, relativeTo, typesOnly).Some?
    ensures exists key :: IsCandidate(key, name, relativeTo) && find(key) == Lookup(find, name, relativeTo, typesOnly)
  {
    if name != "" && name[0] == '.' {
      RootIsCandidate(name, relativeTo);
    } else {
      ClimbIsCandidate(find, name, relativeTo, relativeTo, typesOnly);
    }
  }

  lemma FoundInSight(symbols: Symbols, files: Files, f: FileProto, name: string, relativeTo: string, typesOnly: bool)
    requires
      var r := Lookup(FinderOf(symbols, files, Viewpoint(f, Visible(files, f.dependencies), true)), name, relativeTo,
                      typesOnly);
      r.Some? && (r.value.kind == Message || r.value.kind == Enum)
    ensures TypeInSight(symbols, files, f, name, relativeTo)
  {
    hide Lookup, IsCandidate, Visible;
    LookupIsCandidate(FinderOf(symbols, files, Viewpoint(f, Visible(files, f.dependencies), true)), name, relativeTo,
                      typesOnly);
  }

  /** In resolved tables every type name used in a file leads into that file or one that is visible to it. */
  lemma ReferencesInSight(symbols: Symbols, files: Files, f: FileProto, l: Link)
    requires FilesResolved(symbols, files, {}) && f.name in files && files[f.name] == f && l in FileLinks(f)
    ensures forall name <- TypeNames(l) :: TypeInSight(symbols, files, f, name, ScopeOf(l))
  {
    hide Lookup, TypeInSight, Visible, FinderOf;
    var find := FinderOf(symbols, files, Viewpoint(f, Visible(files, f.dependencies), true));
    assert ResolvesWell(find, l);
    forall name | name in TypeNames(l)
      ensures TypeInSight(symbols, files, f, name, ScopeOf(l))
    {
      match l
      case FieldLink(field, fullName, _, _) =>
        FoundInSight(symbols, files, f, name, fullName, !(field.extendee.Some? && name == field.extendee.value));
      case MethodLink(_, methodName) =>
        FoundInSight(symbols, files, f, name, methodName, false);
    }
  }
}
