/**
 The index of a descriptor database: a sorted map of symbol names searched by "last key not greater,
 then prefix test". Sorted maps are sequences of entries, and iterators positions in them.
 */
module SymbolIndex {
  import opened Names
  import opened Ordering
  import opened Wrappers

  datatype Entry<+V> = Entry(key: string, value: V)

  predicate IsSorted<V>(m: seq<Entry<V>>) {
    forall i, j | 0 <= i < j < |m| :: Less(m[i].key, m[j].key)
  }

  /** The position of the first key greater than `name`. */
  function UpperBound<V>(m: seq<Entry<V>>, name: string): (r: nat)
    ensures r <= |m|
    ensures forall i | 0 <= i < r :: AtMost(m[i].key, name)
    ensures r < |m| ==> Less(name, m[r].key)
  {
    if m == [] || Less(name, m[0].key) then 0 else 1 + UpperBound(m[1..], name)
  }

  /** In a sorted map everything from the upper bound on is greater. */
  lemma AboveUpperBound<V>(m: seq<Entry<V>>, name: string, i: nat)
    requires IsSorted(m) && UpperBound(m, name) <= i < |m|
    ensures Less(name, m[i].key)
  {
    var r := UpperBound(m, name);
    if r < i {
      LessIsTransitive(name, m[r].key, m[i].key);
    }
  }

  lemma BelowUpperBound<V>(m: seq<Entry<V>>, name: string, i: nat)
    requires IsSorted(m) && i < |m| && AtMost(m[i].key, name)
    ensures i < UpperBound(m, name)
  {
    if i >= UpperBound(m, name) {
      AboveUpperBound(m, name, i);
    }
  }

  /** The position of the last key not greater than `name`; the first position if there is none. */
  function FindLastLessOrEqual<V>(m: seq<Entry<V>>, name: string): (r: nat)
    ensures r <= |m|
  {
    var iter := UpperBound(m, name);
    if iter != 0 then iter - 1 else iter
  }

  predicate IsNameChar(c: char) {
    c == '.' || IsIdentifierChar(c)
  }

  predicate ValidateSymbolName(name: string) {
    forall i | 0 <= i < |name| :: IsNameChar(name[i])
  }

  function FindSymbol<V>(m: seq<Entry<V>>, name: string): Option<V> {
    var iter := FindLastLessOrEqual(m, name);
    if iter != |m| && IsDottedPrefix(m[iter].key, name) then Some(m[iter].value) else None
  }

  // ----- the invariant of the map -----

  /** No key is another key or a dotted prefix of one. */
  predicate IsPrefixFree<V>(m: seq<Entry<V>>) {
    forall i, j | 0 <= i < |m| && 0 <= j < |m| && i != j :: !IsDottedPrefix(m[i].key, m[j].key)
  }

  predicate HasValidKeys<V>(m: seq<Entry<V>>) {
    forall i | 0 <= i < |m| :: ValidateSymbolName(m[i].key)
  }

  predicate IsIndex<V>(m: seq<Entry<V>>) {
    IsSorted(m) && HasValidKeys(m) && IsPrefixFree(m)
  }

  lemma PrefixIsAtMost(outer: string, inner: string)
    requires IsDottedPrefix(outer, inner)
    ensures AtMost(outer, inner)
  {
    LessIsStrict(outer, inner);
    if outer != inner {
      PrefixIsLess(outer, inner);
    }
  }

  lemma ValidCharsAboveDot(name: string)
    requires ValidateSymbolName(name)
    ensures forall i | 0 <= i < |name| :: name[i] >= '.'
  {
  }

  /** A key that matches the search is the last one not greater than the search string. */
  lemma MatchIsLastLessOrEqual<V>(m: seq<Entry<V>>, name: string, i: nat)
    requires IsSorted(m) && HasValidKeys(m) && i < |m| && IsDottedPrefix(m[i].key, name)
    requires forall j | 0 <= j < |m| && j != i :: !IsDottedPrefix(m[i].key, m[j].key)
    ensures FindLastLessOrEqual(m, name) == i
  {
    PrefixIsAtMost(m[i].key, name);
    var r := UpperBound(m, name);
    BelowUpperBound(m, name, i);
    var found := m[r - 1].key;
    if i < r - 1 {
      assert Less(m[i].key, found);
      LessIsStrict(m[i].key, found);
      assert !IsDottedPrefix(m[i].key, found);
      ValidCharsAboveDot(found);
      if m[i].key == name {
        LessIsStrict(found, name);
      } else {
        BetweenPrefixes(m[i].key, found, name);
      }
    }
  }

  /**
   Looking up any string, even one with characters no key can have, agrees with scanning the whole map:
   the value of a key is returned exactly when that key is the string or a dotted prefix of it, and at
   most one key is.
   */
  lemma FindSymbolIsScan<V>(m: seq<Entry<V>>, name: string)
    requires IsIndex(m)
    ensures forall i, j | 0 <= i < |m| && 0 <= j < |m| ::
              IsDottedPrefix(m[i].key, name) && IsDottedPrefix(m[j].key, name) ==> i == j
    ensures forall i | 0 <= i < |m| && IsDottedPrefix(m[i].key, name) :: FindSymbol(m, name) == Some(m[i].value)
    ensures FindSymbol(m, name).Some? ==>
              exists i | 0 <= i < |m| :: IsDottedPrefix(m[i].key, name) && FindSymbol(m, name) == Some(m[i].value)
  {
    forall i | 0 <= i < |m| && IsDottedPrefix(m[i].key, name)
      ensures FindLastLessOrEqual(m, name) == i
    {
      MatchIsLastLessOrEqual(m, name, i);
    }
  }

  // ----- adding a symbol -----

  /** Puts an entry where it belongs; the position given as a hint to the container changes nothing. */
  function Insert<V>(m: seq<Entry<V>>, name: string, value: V): seq<Entry<V>> {
    var r := UpperBound(m, name);
    if r > 0 && m[r - 1].key == name then m else m[..r] + [Entry(name, value)] + m[r..]
  }

  /** The test made before a name is inserted: the two neighbours that the search gives. */
  predicate Admits<V>(m: seq<Entry<V>>, name: string) {
    && ValidateSymbolName(name)
    && var iter := FindLastLessOrEqual(m, name);
       iter == |m| ||
       (!IsDottedPrefix(m[iter].key, name) && !(iter + 1 < |m| && IsDottedPrefix(name, m[iter + 1].key)))
  }

  /** Some key is the name, a dotted prefix of it, or a dotted extension of it. */
  predicate Conflicts<V>(m: seq<Entry<V>>, name: string) {
    exists i | 0 <= i < |m| :: IsDottedPrefix(m[i].key, name) || IsDottedPrefix(name, m[i].key)
  }

  /**
   The case the neighbour test misses: every key is greater than the name, so the search gives the
   first key instead of its predecessor and only the second is tested; the first extends the name
   and the second does not.
   */
  predicate Overlooks<V>(m: seq<Entry<V>>, name: string) {
    && m != [] && Less(name, m[0].key)
    && IsDottedPrefix(name, m[0].key)
    && !(|m| > 1 && IsDottedPrefix(name, m[1].key))
  }

  /** If some key extends the name, the first greater key does. */
  lemma ExtensionIsNext<V>(m: seq<Entry<V>>, name: string, j: nat)
    requires IsSorted(m) && HasValidKeys(m) && j < |m|
    requires IsDottedPrefix(name, m[j].key) && m[j].key != name
    ensures UpperBound(m, name) < |m| && IsDottedPrefix(name, m[UpperBound(m, name)].key)
  {
    var r := UpperBound(m, name);
    PrefixIsLess(name, m[j].key);
    LessIsStrict(name, m[j].key);
    assert r <= j;
    var next := m[r].key;
    LessIsStrict(name, next);
    if r < j {
      LessIsStrict(next, m[j].key);
      ValidCharsAboveDot(next);
      BetweenPrefixes(name, next, m[j].key);
    }
  }

  /** The neighbour test is right about names extended by a key when the search finds a predecessor. */
  lemma ConflictAtNeighbours<V>(m: seq<Entry<V>>, name: string)
    requires IsIndex(m)
    ensures var r := UpperBound(m, name);
            Conflicts(m, name) <==>
            || (r > 0 && IsDottedPrefix(m[r - 1].key, name))
            || (r < |m| && IsDottedPrefix(name, m[r].key))
  {
    hide UpperBound, IsDottedPrefix, ValidateSymbolName;
    var r := UpperBound(m, name);
    if Conflicts(m, name) {
      var i :| 0 <= i < |m| && (IsDottedPrefix(m[i].key, name) || IsDottedPrefix(name, m[i].key));
      if IsDottedPrefix(m[i].key, name) {
        MatchIsLastLessOrEqual(m, name, i);
        PrefixIsAtMost(m[i].key, name);
        BelowUpperBound(m, name, i);
      } else {
        ExtensionIsNext(m, name, i);
      }
    }
  }

  /**
   What AddSymbol accepts: exactly the names of letters, digits, underscores and dots that conflict with no
   key, plus the names in the overlooked case. So its verdict is right if and only if the name is not overlooked.
   */
  lemma AdmitsMeans<V>(m: seq<Entry<V>>, name: string)
    requires IsIndex(m)
    ensures Admits(m, name) <==>
            && (forall i | 0 <= i < |name| ::
                  || name[i] == '.' || name[i] == '_'
                  || '0' <= name[i] <= '9' || 'A' <= name[i] <= 'Z' || 'a' <= name[i] <= 'z')
            && (!Conflicts(m, name) || Overlooks(m, name))
    ensures Overlooks(m, name) ==> Conflicts(m, name)
  {
    ConflictAtNeighbours(m, name);
    var r := UpperBound(m, name);
    if r == 0 && m != [] {
      LessIsStrict(m[0].key, name);
      if IsDottedPrefix(m[0].key, name) {
        PrefixIsAtMost(m[0].key, name);
      }
      if |m| > 1 && IsDottedPrefix(name, m[1].key) {
        AboveUpperBound(m, name, 1);
        LessIsStrict(name, m[1].key);
        ExtensionIsNext(m, name, 1);
      }
    }
  }

  /** The empty index admits any string of such characters, the empty one too, and nothing else. */
  lemma AdmittedAlone<V>(name: string)
    ensures Admits<V>([], name) <==>
            forall i | 0 <= i < |name| ::
              || name[i] == '.' || name[i] == '_'
              || '0' <= name[i] <= '9' || 'A' <= name[i] <= 'Z' || 'a' <= name[i] <= 'z'
  {
  }

  /** When the map is empty or some key is not greater than the name, nothing is overlooked. */
  lemma PredecessorMeansNotOverlooked<V>(m: seq<Entry<V>>, name: string)
    requires IsSorted(m)
    requires m == [] || exists i | 0 <= i < |m| :: AtMost(m[i].key, name)
    ensures !Overlooks(m, name)
  {
    if m != [] {
      var i :| 0 <= i < |m| && AtMost(m[i].key, name);
      if i > 0 {
        LessThenAtMost(m[0].key, m[i].key, name);
      }
      LessIsStrict(m[0].key, name);
    }
  }

  lemma InsertKeepsSorted<V>(m: seq<Entry<V>>, name: string, value: V)
    requires IsSorted(m)
    ensures IsSorted(Insert(m, name, value))
  {
    var r := UpperBound(m, name);
    if !(r > 0 && m[r - 1].key == name) {
      var m' := Insert(m, name, value);
      forall i, j | 0 <= i < j < |m'|
        ensures Less(m'[i].key, m'[j].key)
      {
        if j == r {
          LessIsStrict(m[i].key, name);
          if i < r - 1 {
            LessThenAtMost(m[i].key, m[r - 1].key, name);
          }
        } else if i == r {
          AboveUpperBound(m, name, j - 1);
        }
      }
    }
  }

  /** A map with one more entry is prefix-free exactly when the new name conflicts with no key. */
  lemma PrefixFreeWith<V>(m: seq<Entry<V>>, r: nat, e: Entry<V>)
    requires IsPrefixFree(m) && r <= |m|
    ensures IsPrefixFree(m[..r] + [e] + m[r..]) <==> !Conflicts(m, e.key)
  {
    hide IsDottedPrefix;
    var m' := m[..r] + [e] + m[r..];
    if IsPrefixFree(m') {
      forall i | 0 <= i < |m|
        ensures !IsDottedPrefix(m[i].key, e.key) && !IsDottedPrefix(e.key, m[i].key)
      {
        var i' := if i < r then i else i + 1;
        assert m'[i'] == m[i] && m'[r] == e;
      }
    }
    if !Conflicts(m, e.key) {
      forall i, j | 0 <= i < |m'| && 0 <= j < |m'| && i != j
        ensures !IsDottedPrefix(m'[i].key, m'[j].key)
      {
        var i' := if i < r then i else i - 1;
        var j' := if j < r then j else j - 1;
        assert i != r ==> m'[i] == m[i'];
        assert j != r ==> m'[j] == m[j'];
      }
    }
  }

  /**
   Inserting an admitted name keeps the map an index, prefix-freeness included, if and only if the name
   is not overlooked.
   */
  lemma InsertKeepsIndex<V>(m: seq<Entry<V>>, name: string, value: V)
    requires IsIndex(m) && Admits(m, name)
    ensures IsSorted(Insert(m, name, value)) && HasValidKeys(Insert(m, name, value))
    ensures IsPrefixFree(Insert(m, name, value)) <==> !Overlooks(m, name)
  {
    InsertKeepsSorted(m, name, value);
    AdmitsMeans(m, name);
    PrefixFreeWith(m, UpperBound(m, name), Entry(name, value));
  }

  /** The overlooked case, and what it does to later searches: the shorter key is no longer found. */
  lemma OverlookedExample(x: int, y: int)
    ensures var m := [Entry("a.b", x)];
            && IsIndex(m) && Conflicts(m, "a") && Admits(m, "a")
            && Insert(m, "a", y) == [Entry("a", y), Entry("a.b", x)]
            && IsDottedPrefix("a", "a.c") && FindSymbol(Insert(m, "a", y), "a.c") == None
  {
    var m := [Entry("a.b", x)];
    LettersInOrder();
    assert UpperBound(m, "a") == 0;
    var m' := Insert(m, "a", y);
    assert m' == [Entry("a", y), Entry("a.b", x)];
    var rest := m'[1..];
    assert rest == m;
    assert UpperBound(m, "a.c") == 1;
    assert UpperBound(m', "a.c") == 2;
  }

  lemma LettersInOrder()
    ensures Less("a", "a.b") && Less("a", "a.c") && Less("a.b", "a.c")
    ensures !Less("a.c", "a.b") && !Less("a.c", "a")
  {
  }
}
