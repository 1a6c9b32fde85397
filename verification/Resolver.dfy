/** Which symbol a name in a file means. */
module Resolver {
  import opened Descriptors
  import opened Names
  import opened Wrappers

  type Finder = string -> Option<Symbol>

  // ----- visibility -----

  /** The file being built, the files visible to it, and whether visibility is enforced. */
  datatype Viewpoint = Viewpoint(file: FileProto, visible: set<string>, enforced: bool)

  predicate KnowsPackage(files: map<string, FileProto>, at: Viewpoint, name: string) {
    || IsDottedPrefix(name, at.file.package)
    || exists d | d in at.visible :: d in files && IsDottedPrefix(name, files[d].package)
  }

  predicate MayUse(files: map<string, FileProto>, at: Viewpoint, name: string, s: Symbol) {
    || !at.enforced
    || s.file == at.file.name
    || s.file in at.visible
    || (s.kind == Package && KnowsPackage(files, at, name))
  }

  /** A symbol of the table, if the file being built may use it. */
  function FindVisible(symbols: map<string, Symbol>, files: map<string, FileProto>, at: Viewpoint, name: string)
    : Option<Symbol>
  {
    if name in symbols && MayUse(files, at, name, symbols[name]) then Some(symbols[name]) else None
  }

  // ----- scopes -----

  function FirstPart(name: string): string {
    if FirstDot(name) == -1 then name else name[..FirstDot(name)]
  }

  /**
   Whether what was found under `key` settles the search: an aggregate for a compound name, else any symbol of the
   wanted sort.
   */
  predicate Settles(find: Finder, key: string, compound: bool, typesOnly: bool) {
    && find(key).Some?
    && if compound then find(key).value.IsAggregate() else !typesOnly || find(key).value.IsType()
  }

  /** The search from `scope` outwards, as the source's loop goes: drop the last component, try, repeat. */
  function Climb(find: Finder, name: string, scope: string, typesOnly: bool): Option<Symbol>
    decreases |scope|
  {
    var d := LastDot(scope);
    if d == -1 then find(name)
    else if Settles(find, scope[..d] + "." + FirstPart(name), FirstPart(name) != name, typesOnly) then
      find(scope[..d] + "." + name)
    else Climb(find, name, scope[..d], typesOnly)
  }

  function Lookup(find: Finder, name: string, relativeTo: string, typesOnly: bool): Option<Symbol> {
    if name != "" && name[0] == '.' then find(name[1..])
    else Climb(find, name, relativeTo, typesOnly)
  }

  /**
   What a file may use, from its viewpoint: what it defines itself, what a visible file defines, and a package
   that it or a visible file is in or below. Everything, if imports are not enforced.
   */
  lemma VisibleMeans(symbols: map<string, Symbol>, files: map<string, FileProto>, at: Viewpoint, name: string)
    ensures FindVisible(symbols, files, at, name).Some? <==>
            name in symbols && (
              || !at.enforced
              || symbols[name].file == at.file.name
              || symbols[name].file in at.visible
              || (symbols[name].kind == Package && (
                    || IsAtOrAbove(name, at.file.package)
                    || exists d | d in at.visible :: d in files && IsAtOrAbove(name, files[d].package))))
    ensures FindVisible(symbols, files, at, name).Some? ==> FindVisible(symbols, files, at, name).value == symbols[name]
  {
    forall outer: string, inner: string
      ensures IsDottedPrefix(outer, inner) <==> IsAtOrAbove(outer, inner)
    {
      DottedPrefixMeans(outer, inner);
    }
  }

  /** `inner` is `outer`, or goes on after it with a dot. */
  predicate IsAtOrAbove(outer: string, inner: string) {
    inner == outer || outer + "." <= inner
  }

  lemma DottedPrefixMeans(outer: string, inner: string)
    ensures IsDottedPrefix(outer, inner) <==> IsAtOrAbove(outer, inner)
  {
  }

  /**
   One step outwards, kind by kind. A name with a leading dot is looked up as it is, and so is any name when the
   scope has no dot. Otherwise the last component of the scope is dropped. What the first part of a compound name
   is there decides: nothing, a field, an enum value or a method does not stop the search, anything else does.
   A simple name stops it when it is found, and is a message or an enum if only types are wanted.
   */
  lemma LookupUnfolds(find: Finder, name: string, relativeTo: string, typesOnly: bool)
    ensures name != "" && name[0] == '.' ==> Lookup(find, name, relativeTo, typesOnly) == find(name[1..])
    ensures !(name != "" && name[0] == '.') && LastDot(relativeTo) == -1 ==>
              Lookup(find, name, relativeTo, typesOnly) == find(name)
    ensures !(name != "" && name[0] == '.') && LastDot(relativeTo) >= 0 ==>
              var scope := relativeTo[..LastDot(relativeTo)];
              var found := find(scope + "." + if FirstDot(name) >= 0 then name[..FirstDot(name)] else name);
              var goesOn :=
                if found.None? then true
                else if FirstDot(name) >= 0 then found.value.kind in {Field, EnumValue, Method}
                else typesOnly && found.value.kind in {Field, EnumValue, Method, Service, Package};
              Lookup(find, name, relativeTo, typesOnly)
                == if goesOn then Lookup(find, name, scope, typesOnly) else find(scope + "." + name)
  {
    hide LastDot, FirstDot;
    assert FirstPart(name) != name <==> FirstDot(name) >= 0;
  }

  // ----- dotted components -----

  predicate Dotless(s: string) {
    forall i | 0 <= i < |s| :: s[i] != '.'
  }

  lemma LastIsDotless(s: string)
    requires LastDot(s) != -1
    ensures Dotless(s[LastDot(s) + 1..])
  {
    hide LastDot;
    var d := LastDot(s);
    var last := s[d + 1..];
    assert forall i | 0 <= i < |last| :: last[i] == s[d + 1 + i];
  }

  lemma DotlessHasNoDot(s: string)
    requires Dotless(s)
    ensures LastDot(s) == -1
  {
  }

  function Components(s: string): (cs: seq<string>)
    ensures cs != []
    decreases |s|
  {
    var d := LastDot(s);
    if d == -1 then [s] else Components(s[..d]) + [s[d + 1..]]
  }

  lemma {:induction false} ComponentsAreDotless(s: string)
    ensures forall i | 0 <= i < |Components(s)| :: Dotless(Components(s)[i])
    decreases |s|
  {
    hide LastDot, Dotless;
    if LastDot(s) != -1 {
      ComponentsAreDotless(s[..LastDot(s)]);
      LastIsDotless(s);
    } else {
      NoDotIsDotless(s);
    }
  }

  lemma NoDotIsDotless(s: string)
    requires LastDot(s) == -1
    ensures Dotless(s)
  {
    hide LastDot;
  }

  lemma ComponentsSplit(s: string)
    ensures Components(s) == if LastDot(s) == -1 then [s] else Components(s[..LastDot(s)]) + [s[LastDot(s) + 1..]]
  {
  }

  function Dotted(cs: seq<string>): string
    requires cs != []
  {
    if |cs| == 1 then cs[0] else Dotted(cs[..|cs| - 1]) + "." + cs[|cs| - 1]
  }

  lemma DottedSnoc(cs: seq<string>, last: string)
    requires cs != []
    ensures Dotted(cs + [last]) == Dotted(cs) + "." + last
  {
  }

  lemma LastDotOfDotted(cs: seq<string>)
    requires |cs| > 1 && Dotless(cs[|cs| - 1])
    ensures LastDot(Dotted(cs)) == |Dotted(cs[..|cs| - 1])|
    ensures Dotted(cs)[..LastDot(Dotted(cs))] == Dotted(cs[..|cs| - 1])
    ensures Dotted(cs)[LastDot(Dotted(cs)) + 1..] == cs[|cs| - 1]
  {
    var init := Dotted(cs[..|cs| - 1]);
    var s := Dotted(cs);
    assert s[|init|] == '.';
    assert forall i | |init| < i < |s| :: s[i] == cs[|cs| - 1][i - |init| - 1];
    assert LastDot(s) == |init|;
  }

  lemma SplitAt(s: string, d: nat)
    requires d < |s| && s[d] == '.'
    ensures s[..d] + "." + s[d + 1..] == s
  {
  }

  /** Splitting a name and joining its components gives the name back. */
  lemma {:induction false} DottedComponents(s: string)
    ensures Dotted(Components(s)) == s
    decreases |s|
  {
    var d := LastDot(s);
    if d != -1 {
      var outer, last := s[..d], s[d + 1..];
      DottedComponents(outer);
      DottedSnoc(Components(outer), last);
      SplitAt(s, d);
    }
  }

  /** Joining dotless components and splitting gives the components back. */
  lemma {:induction false} ComponentsDotted(cs: seq<string>)
    requires cs != [] && forall i | 0 <= i < |cs| :: Dotless(cs[i])
    ensures Components(Dotted(cs)) == cs
    decreases |cs|
  {
    hide LastDot, Components;
    ComponentsSplit(Dotted(cs));
    if |cs| > 1 {
      LastDotOfDotted(cs);
      ComponentsDotted(cs[..|cs| - 1]);
    } else {
      assert Dotless(cs[0]);
    }
  }

  lemma {:induction false} DottedAppend(a: seq<string>, b: seq<string>)
    requires a != [] && b != []
    ensures Dotted(a + b) == Dotted(a) + "." + Dotted(b)
    decreases |b|
  {
    var ab := a + b;
    assert ab[|ab| - 1] == b[|b| - 1];
    if |b| == 1 {
      assert ab[..|ab| - 1] == a;
    } else {
      assert ab[..|ab| - 1] == a + b[..|b| - 1];
      DottedAppend(a, b[..|b| - 1]);
      assert Dotted(ab) == Dotted(a) + "." + Dotted(b[..|b| - 1]) + "." + b[|b| - 1];
    }
  }

  /** Cutting a name at a dot leaves the first dot where it was, unless it was that one. */
  lemma FirstDotOfPrefix(s: string, d: nat)
    requires d < |s| && s[d] == '.'
    ensures FirstDot(s) == if FirstDot(s[..d]) == -1 then d else FirstDot(s[..d])
  {
    hide FirstDot;
    var outer := s[..d];
    assert forall i | 0 <= i < d :: outer[i] == s[i];
    assert FirstDot(s) != -1;
  }

  lemma FirstPartOfPrefix(s: string, d: nat)
    requires d < |s| && s[d] == '.'
    ensures FirstPart(s) == FirstPart(s[..d]) && FirstPart(s) != s
  {
    hide FirstDot;
    FirstDotOfPrefix(s, d);
    var f := FirstDot(s);
    assert f <= d && s[..f] == s[..d][..f];
  }

  lemma FirstPartOfDotless(s: string)
    requires LastDot(s) == -1
    ensures FirstPart(s) == s
  {
    hide FirstDot, LastDot;
  }

  /** The first part of a name is its first component. */
  lemma {:induction false} FirstPartIsFirstComponent(name: string)
    ensures FirstPart(name) == Components(name)[0]
    ensures FirstPart(name) != name <==> |Components(name)| > 1
    decreases |name|
  {
    hide FirstPart, LastDot, Components, Dotless;
    var d := LastDot(name);
    ComponentsSplit(name);
    if d == -1 {
      FirstPartOfDotless(name);
    } else {
      FirstPartIsFirstComponent(name[..d]);
      FirstPartOfPrefix(name, d);
    }
  }

  // ----- the innermost acceptable scope decides -----

  /** Whether the scope made of the first `k` components of `relativeTo` settles the search for `name`. */
  predicate ScopeSettles(find: Finder, name: string, relativeTo: string, k: nat, typesOnly: bool)
    requires 1 <= k < |Components(relativeTo)|
  {
    Settles(find, Dotted(Components(relativeTo)[..k] + [Components(name)[0]]), |Components(name)| > 1, typesOnly)
  }

  /** The innermost of the scopes with fewer than `n` components that settles the search; 0 if none does. */
  function Innermost(find: Finder, name: string, relativeTo: string, n: nat, typesOnly: bool): (k: nat)
    requires 1 <= n <= |Components(relativeTo)|
    ensures k < n
    ensures k > 0 ==> ScopeSettles(find, name, relativeTo, k, typesOnly)
    ensures forall j | k < j < n :: !ScopeSettles(find, name, relativeTo, j, typesOnly)
  {
    if n == 1 then 0
    else if ScopeSettles(find, name, relativeTo, n - 1, typesOnly) then n - 1
    else Innermost(find, name, relativeTo, n - 1, typesOnly)
  }

  lemma ScopeSettlesMeans(find: Finder, name: string, relativeTo: string, k: nat, typesOnly: bool)
    requires 1 <= k < |Components(relativeTo)|
    ensures ScopeSettles(find, name, relativeTo, k, typesOnly)
         == Settles(find, Dotted(Components(relativeTo)[..k]) + "." + FirstPart(name), FirstPart(name) != name,
                    typesOnly)
  {
    hide Components, FirstPart, Settles;
    FirstPartIsFirstComponent(name);
    DottedAppend(Components(relativeTo)[..k], [Components(name)[0]]);
  }

  lemma {:induction false} ClimbFindsInnermost(find: Finder, name: string, relativeTo: string, n: nat, typesOnly: bool)
    requires 1 <= n <= |Components(relativeTo)|
    ensures Climb(find, name, Dotted(Components(relativeTo)[..n]), typesOnly) ==
            var k := Innermost(find, name, relativeTo, n, typesOnly);
            if k == 0 then find(name) else find(Dotted(Components(relativeTo)[..k] + Components(name)))
    decreases n
  {
    hide Components, LastDot, FirstPart, Settles, Dotless, ScopeSettles;
    var cs := Components(relativeTo);
    var scope := cs[..n];
    ComponentsAreDotless(relativeTo);
    if n > 1 {
      LastDotOfDotted(scope);
      assert scope[..n - 1] == cs[..n - 1];
      DottedAppend(cs[..n - 1], Components(name));
      DottedComponents(name);
      ScopeSettlesMeans(find, name, relativeTo, n - 1, typesOnly);
      ClimbFindsInnermost(find, name, relativeTo, n - 1, typesOnly);
    } else {
      assert scope == [cs[0]];
      DotlessHasNoDot(cs[0]);
    }
  }

  lemma LookupFindsInnermost(find: Finder, name: string, relativeTo: string, typesOnly: bool)
    requires name == "" || name[0] != '.'
    ensures Lookup(find, name, relativeTo, typesOnly) ==
            var k := Innermost(find, name, relativeTo, |Components(relativeTo)|, typesOnly);
            if k == 0 then find(name) else find(Dotted(Components(relativeTo)[..k] + Components(name)))
  {
    var cs := Components(relativeTo);
    ClimbFindsInnermost(find, name, relativeTo, |cs|, typesOnly);
    assert cs[..|cs|] == cs;
    DottedComponents(relativeTo);
  }

  /** `k` is the innermost scope of `relativeTo` that settles the search for `name`. */
  predicate IsInnermost(find: Finder, name: string, relativeTo: string, typesOnly: bool, k: nat) {
    && 1 <= k < |Components(relativeTo)|
    && ScopeSettles(find, name, relativeTo, k, typesOnly)
    && forall j | k < j < |Components(relativeTo)| :: !ScopeSettles(find, name, relativeTo, j, typesOnly)
  }

  /**
   The scope rule. For a name that is not fully qualified, the innermost enclosing scope in which the
   first component of the name settles the search decides the answer, even when the rest of the name
   is not defined there; when no scope settles it, the name is looked up at the root.
   */
  lemma InnermostScopeDecides(find: Finder, name: string, relativeTo: string, typesOnly: bool)
    requires name == "" || name[0] != '.'
    ensures forall k: nat | IsInnermost(find, name, relativeTo, typesOnly, k) ::
              Lookup(find, name, relativeTo, typesOnly) == find(Dotted(Components(relativeTo)[..k] + Components(name)))
    ensures (forall k | 1 <= k < |Components(relativeTo)| :: !ScopeSettles(find, name, relativeTo, k, typesOnly)) ==>
              Lookup(find, name, relativeTo, typesOnly) == find(name)
  {
    LookupFindsInnermost(find, name, relativeTo, typesOnly);
    var k := Innermost(find, name, relativeTo, |Components(relativeTo)|, typesOnly);
    forall k' | IsInnermost(find, name, relativeTo, typesOnly, k')
      ensures k' == k
    {
    }
  }

  // ----- looking for types only -----

  predicate IsNonType(r: Option<Symbol>) {
    r.Some? && !r.value.IsType()
  }

  predicate NoScopeSettles(find: Finder, name: string, relativeTo: string, typesOnly: bool) {
    forall k | 1 <= k < |Components(relativeTo)| :: !ScopeSettles(find, name, relativeTo, k, typesOnly)
  }

  /** A scope settles the search for a compound name, and the rest of the name is a non-type there. */
  predicate NonTypeInScope(find: Finder, name: string, relativeTo: string) {
    |Components(name)| > 1 &&
    exists k | 1 <= k < |Components(relativeTo)| ::
      IsInnermost(find, name, relativeTo, true, k) &&
      IsNonType(find(Dotted(Components(relativeTo)[..k] + Components(name))))
  }

  /**
   When only types are wanted, a symbol that is no type is returned in exactly these cases: the name is
   fully qualified and stands for one; no scope settles the search and the name stands for one at the
   root; or the name is compound and stands for one in the scope that settles the search. So a simple
   name found in an enclosing scope is always a type.
   */
  lemma NonTypeReturned(find: Finder, name: string, relativeTo: string)
    ensures IsNonType(Lookup(find, name, relativeTo, true)) <==>
            if name != "" && name[0] == '.' then IsNonType(find(name[1..]))
            else
              || NonTypeInScope(find, name, relativeTo)
              || (NoScopeSettles(find, name, relativeTo, true) && IsNonType(find(name)))
  {
    if !(name != "" && name[0] == '.') {
      hide Components, Dotted, IsInnermost, NoScopeSettles, ScopeSettles, Innermost;
      LookupFindsInnermost(find, name, relativeTo, true);
      InnermostMeans(find, name, relativeTo, true);
      var k := Innermost(find, name, relativeTo, |Components(relativeTo)|, true);
      if k > 0 && |Components(name)| == 1 {
        SimpleInScopeIsType(find, name, relativeTo, k);
      }
    }
  }

  lemma InnermostMeans(find: Finder, name: string, relativeTo: string, typesOnly: bool)
    ensures
      var k := Innermost(find, name, relativeTo, |Components(relativeTo)|, typesOnly);
      && (forall j: nat :: IsInnermost(find, name, relativeTo, typesOnly, j) <==> j == k > 0)
      && (NoScopeSettles(find, name, relativeTo, typesOnly) <==> k == 0)
  {
    hide Components, Settles;
  }

  lemma SimpleInScopeIsType(find: Finder, name: string, relativeTo: string, k: nat)
    requires 1 <= k < |Components(relativeTo)| && ScopeSettles(find, name, relativeTo, k, true)
    requires |Components(name)| == 1
    ensures find(Dotted(Components(relativeTo)[..k] + Components(name))).Some?
    ensures find(Dotted(Components(relativeTo)[..k] + Components(name))).value.IsType()
  {
    assert Components(name) == [Components(name)[0]];
  }

  /** The fields used below, and a table of a message `p.A` with a field `p.A.f` and a field `f` at the root. */
  function ExampleFinder(): Finder {
    key =>
      if key == "p.A" then Some(Symbol(Message, "a.proto", key, [], ""))
      else if key == "p.A.f" || key == "f" then Some(Symbol(Field, "a.proto", key, [], ""))
      else None
  }

  /** Each of the three cases comes up. */
  lemma NonTypeExamples()
    ensures IsNonType(Lookup(ExampleFinder(), ".p.A.f", "p.x", true))
    ensures IsNonType(Lookup(ExampleFinder(), "f", "p.x", true))
    ensures IsNonType(Lookup(ExampleFinder(), "A.f", "p.x", true))
  {
    var find := ExampleFinder();
    assert ".p.A.f"[1..] == "p.A.f";
    assert LastDot("p.x") == 1 && "p.x"[..1] == "p" && LastDot("p") == -1;
    FirstPartOfDotless("f");
    assert "p" + "." + "f" == "p.f";
    assert FirstDot("A.f") == 1;
    assert "A.f"[..1] == "A" && "p" + "." + "A" == "p.A" && "p" + "." + "A.f" == "p.A.f";
  }
}
