/** Dotted names: the string operations the descriptor code performs on them. */
module Names {

  /** `find_last_of('.')`, with -1 for npos. */
  function LastDot(s: string): (r: int)
    ensures -1 <= r < |s|
    ensures r >= 0 ==> s[r] == '.'
    ensures forall i | r < i < |s| :: s[i] != '.'
  {
    if s == [] then -1
    else if s[|s| - 1] == '.' then |s| - 1
    else LastDot(s[..|s| - 1])
  }

  /** `find_first_of('.')`, with -1 for npos. */
  function FirstDot(s: string): (r: int)
    ensures -1 <= r < |s|
    ensures r >= 0 ==> s[r] == '.' && forall i | 0 <= i < r :: s[i] != '.'
    ensures r == -1 ==> forall i | 0 <= i < |s| :: s[i] != '.'
  {
    if s == [] then -1
    else if s[0] == '.' then 0
    else
      var r := FirstDot(s[1..]);
      assert forall i | 1 <= i < |s| :: s[i] == s[1..][i - 1];
      if r == -1 then -1 else r + 1
  }

  /** A name inside a scope; the empty scope adds no dot. */
  function Join(scope: string, name: string): string {
    if scope == "" then name else scope + "." + name
  }

  /** The scope of a qualified name: everything before its last dot. */
  function Parent(s: string): string {
    var d := LastDot(s);
    if d == -1 then "" else s[..d]
  }

  lemma ParentOfJoin(scope: string, name: string)
    requires forall i | 0 <= i < |name| :: name[i] != '.'
    ensures Parent(Join(scope, name)) == scope
    ensures LastDot(Join(scope, name)) == if scope == "" then -1 else |scope|
  {
    var s := Join(scope, name);
    if scope != "" {
      assert s[|scope|] == '.';
      assert forall i | |scope| < i < |s| :: s[i] == name[i - |scope| - 1];
      assert s[..|scope|] == scope;
    }
  }

  /** Letters, digits and underscore. */
  predicate IsIdentifierChar(c: char) {
    'a' <= c <= 'z' || 'A' <= c <= 'Z' || '0' <= c <= '9' || c == '_'
  }

  /** The test of `ValidateSymbolName` in descriptor.cc: a non-empty identifier. */
  predicate IsIdentifier(s: string) {
    s != "" && forall i | 0 <= i < |s| :: IsIdentifierChar(s[i])
  }

  /** `outer` is `inner` itself or one of its dotted prefixes. */
  predicate IsDottedPrefix(outer: string, inner: string) {
    outer == inner || (|outer| < |inner| && outer == inner[..|outer|] && inner[|outer|] == '.')
  }
}
