/** The order of std::string, and of pairs of a string and a number. */
module Ordering {

  predicate Less(a: string, b: string) {
    if b == "" then false
    else if a == "" then true
    else a[0] < b[0] || (a[0] == b[0] && Less(a[1..], b[1..]))
  }

  predicate AtMost(a: string, b: string) {
    !Less(b, a)
  }

  lemma {:induction false} LessIsStrict(a: string, b: string)
    ensures !(Less(a, b) && Less(b, a))
    ensures a == b ==> !Less(a, b)
    ensures a == b || Less(a, b) || Less(b, a)
    decreases |a|
  {
    if a != "" && b != "" {
      LessIsStrict(a[1..], b[1..]);
      assert a == [a[0]] + a[1..] && b == [b[0]] + b[1..];
    }
  }

  lemma {:induction false} LessIsTransitive(a: string, b: string, c: string)
    requires Less(a, b) && Less(b, c)
    ensures Less(a, c)
    decreases |a|
  {
    if a != "" && a[0] == b[0] == c[0] {
      LessIsTransitive(a[1..], b[1..], c[1..]);
    }
  }

  lemma LessThenAtMost(a: string, b: string, c: string)
    requires Less(a, b) && AtMost(b, c)
    ensures Less(a, c)
  {
    LessIsStrict(b, c);
    if b != c {
      LessIsTransitive(a, b, c);
    }
  }

  /** A name is below anything it is a proper prefix of. */
  lemma {:induction false} PrefixIsLess(a: string, b: string)
    requires |a| < |b| && a == b[..|a|]
    ensures Less(a, b)
    decreases |a|
  {
    if a != "" {
      assert a[1..] == b[1..][..|a| - 1];
      PrefixIsLess(a[1..], b[1..]);
    }
  }

  /**
   What lies between a name and one of its dotted extensions is the name itself or another of its
   dotted extensions, provided that no character of it sorts before the dot.
   */
  lemma {:induction false} BetweenPrefixes(p: string, k: string, q: string)
    requires AtMost(p, k) && AtMost(k, q)
    requires |p| < |q| && p == q[..|p|] && q[|p|] == '.'
    requires forall i | 0 <= i < |k| :: k[i] >= '.'
    ensures k == p || (|p| < |k| && p == k[..|p|] && k[|p|] == '.')
    decreases |p|
  {
    if p == "" {
    } else {
      assert k != "" && p[0] == k[0] == q[0];
      assert p[1..] == q[1..][..|p| - 1];
      BetweenPrefixes(p[1..], k[1..], q[1..]);
      assert k == [k[0]] + k[1..] && p == [p[0]] + p[1..];
      if k[1..] != p[1..] {
        assert k[..|p|] == [k[0]] + k[1..][..|p| - 1];
      }
    }
  }

  type Key = (string, int)

  predicate PairLess(a: Key, b: Key) {
    Less(a.0, b.0) || (a.0 == b.0 && a.1 < b.1)
  }

  lemma PairLessIsStrict(a: Key, b: Key)
    ensures !(PairLess(a, b) && PairLess(b, a))
    ensures a == b ==> !PairLess(a, b)
    ensures a == b || PairLess(a, b) || PairLess(b, a)
  {
    LessIsStrict(a.0, b.0);
  }

  lemma PairLessIsTransitive(a: Key, b: Key, c: Key)
    requires PairLess(a, b) && PairLess(b, c)
    ensures PairLess(a, c)
  {
    if Less(a.0, b.0) && Less(b.0, c.0) {
      LessIsTransitive(a.0, b.0, c.0);
    }
  }
}
