/**
 * What linking a file settles, in any pool: its references lead to symbols of the table, and every field
 * and extension gets a number of a message of its own. Names may be resolved against tables that grow meanwhile, so
 * this speaks of the tables afterwards.
 */
module NumberClaims {
  import opened Declarations
  import opened Descriptors
  import opened Linking
  import opened Names
  import opened Wrappers

  /** The message and number each reference has got, in order; nothing for methods. */
  type Claims = seq<Option<(string, int)>>

  ghost predicate MapGrows<K, V>(m: map<K, V>, m': map<K, V>) {
    forall k | k in m :: k in m' && m'[k] == m[k]
  }

  /** The keys under which a name used in `relativeTo` may be found: one for each enclosing scope, and the root. */
  predicate IsCandidate(key: string, name: string, relativeTo: string) {
    if name != "" && name[0] == '.' then key == name[1..]
    else key == name || exists d | 0 <= d < |relativeTo| && relativeTo[d] == '.' :: key == relativeTo[..d] + "." + name
  }

  /** The symbol is in the table under a key that the name may stand for. */
  ghost predicate Refers(symbols: Symbols, name: string, relativeTo: string, s: Symbol) {
    exists key | key in symbols :: IsCandidate(key, name, relativeTo) && symbols[key] == s
  }

  /** `scope` is `relativeTo` or one of the scopes that enclose it. */
  predicate IsScope(scope: string, relativeTo: string) {
    |scope| <= |relativeTo| && scope == relativeTo[..|scope|] && (|scope| < |relativeTo| ==> relativeTo[|scope|] == '.')
  }

  lemma OuterScope(scope: string, relativeTo: string)
    requires IsScope(scope, relativeTo) && LastDot(scope) != -1
    ensures IsScope(scope[..LastDot(scope)], relativeTo) && LastDot(scope) < |relativeTo|
    ensures relativeTo[LastDot(scope)] == '.'
  {
    var d := LastDot(scope);
    assert scope[..d] == relativeTo[..|scope|][..d] == relativeTo[..d];
    assert relativeTo[..|scope|][d] == relativeTo[d];
  }

  lemma RootIsCandidate(name: string, relativeTo: string)
    ensures IsCandidate(if name != "" && name[0] == '.' then name[1..] else name, name, relativeTo)
  {
  }

  lemma ScopedIsCandidate(scope: string, name: string, relativeTo: string)
    requires IsScope(scope, relativeTo) && |scope| < |relativeTo| && !(name != "" && name[0] == '.')
    ensures IsCandidate(scope + "." + name, name, relativeTo)
  {
    assert relativeTo[|scope|] == '.' && scope + "." + name == relativeTo[..|scope|] + "." + name;
  }

  /** An extension names a message that takes its number; any other field belongs to its parent. */
  ghost predicate NumberFits(symbols: Symbols, l: Link, message: string)
    requires l.FieldLink?
  {
    if l.field.extendee.None? then message == l.parent
    else
      exists s ::
        && Refers(symbols, l.field.extendee.value, l.fullName, s)
        && s.kind == Message
        && s.fullName == message
        && IsExtensionNumber(s.ranges, l.field.number)
  }

  /** A field's type may be that kind of symbol. */
  predicate HasType(f: FieldProto, kind: SymbolKind) {
    match TypeOf(f, kind)
    case Some(MessageType) => kind == Message && f.defaultValue.None?
    case Some(EnumType) => kind == Enum
    case _ => false
  }

  /** A field that names a type has that type; a field that names none needs none. */
  ghost predicate TypeFits(symbols: Symbols, l: Link)
    requires l.FieldLink?
  {
    if l.field.typeName.None? then l.field.fieldType != MessageType && l.field.fieldType != EnumType
    else exists s :: Refers(symbols, l.field.typeName.value, l.fullName, s) && HasType(l.field, s.kind)
  }

  ghost predicate RefersToMessage(symbols: Symbols, name: string, relativeTo: string) {
    exists s :: Refers(symbols, name, relativeTo, s) && s.kind == Message
  }

  /**
   What a reference leads to is in the table: a field has a type, and its number is one of its message;
   both types of a method are messages.
   */
  ghost predicate ClaimFits(symbols: Symbols, l: Link, claim: Option<(string, int)>) {
    match l
    case FieldLink(_, _, _, _) =>
      && claim.Some?
      && claim.value.1 == l.field.number
      && NumberFits(symbols, l, claim.value.0)
      && TypeFits(symbols, l)
    case MethodLink(rpc, name) =>
      && RefersToMessage(symbols, rpc.inputType, name)
      && RefersToMessage(symbols, rpc.outputType, name)
  }

  ghost predicate ClaimsFit(symbols: Symbols, ls: seq<Link>, claims: Claims) {
    |claims| == |ls| && forall i | 0 <= i < |ls| :: ClaimFits(symbols, ls[i], claims[i])
  }

  /** No two references have the same number of the same message. */
  predicate AllDiffer(claims: Claims) {
    forall i, j | 0 <= i < j < |claims| && claims[i].Some? :: claims[i] != claims[j]
  }

  /** The number table of a builder holds exactly the claims, each of which is made once. */
  ghost predicate Tabled(claims: Claims, numbers: Numbers) {
    AllDiffer(claims) && forall key :: key in numbers <==> Some(key) in claims
  }

  /** From `before` to `after`, one claim has been made for each of `ls`, and fits if all went well. */
  ghost predicate ClaimsFrom(symbols: Symbols, before: Claims, after: Claims, ls: seq<Link>, good: bool) {
    && |after| == |before| + |ls|
    && after[..|before|] == before
    && (good ==> ClaimsFit(symbols, ls, after[|before|..]))
  }

  lemma NumberFitsLater(s: Symbols, t: Symbols, l: Link, message: string)
    requires MapGrows(s, t) && l.FieldLink? && NumberFits(s, l, message)
    ensures NumberFits(t, l, message)
  {
  }

  lemma TypeFitsLater(s: Symbols, t: Symbols, l: Link)
    requires MapGrows(s, t) && l.FieldLink? && TypeFits(s, l)
    ensures TypeFits(t, l)
  {
  }

  lemma RefersToMessageLater(s: Symbols, t: Symbols, name: string, relativeTo: string)
    requires MapGrows(s, t) && RefersToMessage(s, name, relativeTo)
    ensures RefersToMessage(t, name, relativeTo)
  {
  }

  lemma ClaimsFitLater(s: Symbols, t: Symbols, ls: seq<Link>, claims: Claims)
    requires MapGrows(s, t) && ClaimsFit(s, ls, claims)
    ensures ClaimsFit(t, ls, claims)
  {
    hide NumberFits, TypeFits, RefersToMessage;
    forall i | 0 <= i < |ls|
      ensures ClaimFits(t, ls[i], claims[i])
    {
      match ls[i]
      case FieldLink(_, _, _, _) =>
        NumberFitsLater(s, t, ls[i], claims[i].value.0);
        TypeFitsLater(s, t, ls[i]);
      case MethodLink(rpc, name) =>
        RefersToMessageLater(s, t, rpc.inputType, name);
        RefersToMessageLater(s, t, rpc.outputType, name);
    }
  }

  lemma ClaimsFromNothing(symbols: Symbols, claims: Claims, good: bool)
    ensures ClaimsFrom(symbols, claims, claims, [], good)
  {
  }

  lemma ClaimsFromOne(symbols: Symbols, before: Claims, l: Link, claim: Option<(string, int)>, good: bool)
    requires good ==> ClaimFits(symbols, l, claim)
    ensures ClaimsFrom(symbols, before, before + [claim], [l], good)
  {
  }

  /** Claims made one after the other, while the tables grow, make up the claims of both. */
  lemma ClaimsFromAppend(s: Symbols, t: Symbols, c0: Claims, c1: Claims, c2: Claims, a: seq<Link>, b: seq<Link>,
                         good1: bool, good2: bool)
    requires ClaimsFrom(s, c0, c1, a, good1) && ClaimsFrom(t, c1, c2, b, good2)
    requires MapGrows(s, t) && (good2 ==> good1)
    ensures ClaimsFrom(t, c0, c2, a + b, good2)
  {
    assert c2[..|c0|] == c2[..|c1|][..|c0|];
    if good2 {
      ClaimsFitLater(s, t, a, c1[|c0|..]);
      var more := c2[|c0|..];
      forall i | 0 <= i < |a + b|
        ensures ClaimFits(t, (a + b)[i], more[i])
      {
        if i < |a| {
          assert more[i] == c2[..|c1|][|c0| + i] == c1[|c0|..][i];
        } else {
          assert more[i] == c2[|c1|..][i - |a|];
        }
      }
    }
  }

  /** A new claim, of a key not in the table, keeps the table in step. */
  lemma TabledNext(claims: Claims, numbers: Numbers, key: (string, int), name: string)
    requires Tabled(claims, numbers) && key !in numbers
    ensures Tabled(claims + [Some(key)], numbers[key := name])
  {
    var claims' := claims + [Some(key)];
    forall k
      ensures k in numbers[key := name] <==> Some(k) in claims'
    {
      assert Some(k) in claims' <==> Some(k) in claims || k == key;
    }
    forall i, j | 0 <= i < j < |claims'| && claims'[i].Some?
      ensures claims'[i] != claims'[j]
    {
      assert claims'[i] == claims[i] && claims[i] in claims;
    }
  }

  lemma TabledNone(claims: Claims, numbers: Numbers)
    requires Tabled(claims, numbers)
    ensures Tabled(claims + [None], numbers)
  {
    forall k: (string, int)
      ensures k in numbers <==> Some(k) in claims + [None]
    {
      assert Some(k) in claims + [None] <==> Some(k) in claims;
    }
  }

  // ----- settled files -----

  /** Every declaration is in the table under its full name. */
  predicate AllDeclared(symbols: Symbols, ds: seq<Decl>) {
    forall i | 0 <= i < |ds| :: ds[i].symbol.fullName in symbols && symbols[ds[i].symbol.fullName] == ds[i].symbol
  }

  lemma FileDeclared(s: Symbols, f: FileProto)
    requires FileSymbolsGood(s, f)
    ensures AllDeclared(FileSymbols(s, f), FileDecls(f))
  {
    DeclaredAsGiven(if f.package == "" then s else WithPackage(s, f.name, f.package), FileDecls(f));
  }

  /**
   What the file declares is in the table, and so is all it refers to; fields and extensions have numbers of their
   own.
   */
  ghost predicate Settled(symbols: Symbols, f: FileProto) {
    && AllDeclared(symbols, FileDecls(f))
    && exists claims: Claims :: ClaimsFit(symbols, FileLinks(f), claims) && AllDiffer(claims)
  }

  lemma SettledLater(s: Symbols, t: Symbols, f: FileProto)
    requires MapGrows(s, t) && Settled(s, f)
    ensures Settled(t, f)
  {
    hide FileDecls, FileLinks, AllDiffer, ClaimsFit;
    var claims :| ClaimsFit(s, FileLinks(f), claims) && AllDiffer(claims);
    ClaimsFitLater(s, t, FileLinks(f), claims);
  }

  /** Every file of the table is settled but those still open. */
  ghost predicate FilesSettled(symbols: Symbols, files: map<string, FileProto>, open: set<string>) {
    forall n | n in files && n !in open :: Settled(symbols, files[n])
  }

  /** A file that is opened does not unsettle the others. */
  lemma FilesSettledWith(s: Symbols, t: Symbols, files: map<string, FileProto>, f: FileProto, open: set<string>)
    requires MapGrows(s, t) && FilesSettled(s, files, open)
    ensures FilesSettled(t, files[f.name := f], open + {f.name})
  {
    hide Settled;
    forall n | n in files[f.name := f] && n !in open + {f.name}
      ensures Settled(t, files[f.name := f][n])
    {
      SettledLater(s, t, files[n]);
    }
  }

  /** A file that is settled can be closed. */
  lemma FilesSettledClosing(symbols: Symbols, files: map<string, FileProto>, name: string, open: set<string>)
    requires FilesSettled(symbols, files, open + {name})
    requires name in files && Settled(symbols, files[name])
    ensures FilesSettled(symbols, files, open)
  {
  }
}
