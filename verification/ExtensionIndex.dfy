/** The part of the index that maps a message and a number to the file extending that message with that number. */
module ExtensionIndex {
  import opened Ordering
  import opened Wrappers

  datatype ExtensionEntry<+V> = ExtensionEntry(key: Key, value: V)

  predicate IsSorted<V>(m: seq<ExtensionEntry<V>>) {
    forall i, j | 0 <= i < j < |m| :: PairLess(m[i].key, m[j].key)
  }

  /** The position of the first key not less than `key`. */
  function LowerBound<V>(m: seq<ExtensionEntry<V>>, key: Key): (r: nat)
    ensures r <= |m|
    ensures forall i | 0 <= i < r :: PairLess(m[i].key, key)
    ensures r < |m| ==> !PairLess(m[r].key, key)
  {
    if m == [] || !PairLess(m[0].key, key) then 0 else 1 + LowerBound(m[1..], key)
  }

  lemma FromLowerBound<V>(m: seq<ExtensionEntry<V>>, key: Key, i: nat)
    requires IsSorted(m) && LowerBound(m, key) <= i < |m|
    ensures !PairLess(m[i].key, key)
  {
    var r := LowerBound(m, key);
    if r < i {
      PairLessIsStrict(m[r].key, key);
      PairLessIsStrict(m[i].key, key);
      if PairLess(key, m[r].key) {
        PairLessIsTransitive(key, m[r].key, m[i].key);
      }
    }
  }

  function Find<V>(m: seq<ExtensionEntry<V>>, key: Key): Option<V> {
    var r := LowerBound(m, key);
    if r < |m| && m[r].key == key then Some(m[r].value) else None
  }

  /** Puts an entry where it belongs; a key that is present keeps its value. */
  function Insert<V>(m: seq<ExtensionEntry<V>>, key: Key, value: V): seq<ExtensionEntry<V>> {
    var r := LowerBound(m, key);
    if r < |m| && m[r].key == key then m else m[..r] + [ExtensionEntry(key, value)] + m[r..]
  }

  lemma FindIsLookup<V>(m: seq<ExtensionEntry<V>>, key: Key)
    requires IsSorted(m)
    ensures forall i | 0 <= i < |m| && m[i].key == key :: Find(m, key) == Some(m[i].value)
    ensures Find(m, key).Some? ==> exists i | 0 <= i < |m| :: m[i].key == key && Find(m, key) == Some(m[i].value)
  {
    forall i | 0 <= i < |m| && m[i].key == key
      ensures i == LowerBound(m, key)
    {
      var r := LowerBound(m, key);
      PairLessIsStrict(key, key);
    }
  }

  lemma InsertKeepsSorted<V>(m: seq<ExtensionEntry<V>>, key: Key, value: V)
    requires IsSorted(m)
    ensures IsSorted(Insert(m, key, value))
  {
    var r := LowerBound(m, key);
    if !(r < |m| && m[r].key == key) {
      var m' := Insert(m, key, value);
      forall i, j | 0 <= i < j < |m'|
        ensures PairLess(m'[i].key, m'[j].key)
      {
        if i == r {
          FromLowerBound(m, key, j - 1);
          PairLessIsStrict(m[r].key, key);
          if j - 1 > r {
            PairLessIsTransitive(key, m[r].key, m[j - 1].key);
          }
        }
      }
    }
  }

  ghost predicate Holds<V>(m: seq<ExtensionEntry<V>>, key: Key, value: V) {
    exists i | 0 <= i < |m| :: m[i] == ExtensionEntry(key, value)
  }

  lemma FindHolds<V>(m: seq<ExtensionEntry<V>>, key: Key, value: V)
    requires IsSorted(m)
    ensures Find(m, key) == Some(value) <==> Holds(m, key, value)
  {
    hide LowerBound;
    FindIsLookup(m, key);
  }

  /** A new key is put between its neighbours, everything else stays. */
  lemma InsertHolds<V>(m: seq<ExtensionEntry<V>>, key: Key, value: V, other: Key, v: V)
    requires Find(m, key).None?
    ensures Holds(Insert(m, key, value), other, v) <==> Holds(m, other, v) || (other == key && v == value)
  {
    hide LowerBound, IsSorted;
    var r := LowerBound(m, key);
    var m' := Insert(m, key, value);
    assert m'[r] == ExtensionEntry(key, value);
    if i :| 0 <= i < |m| && m[i] == ExtensionEntry(other, v) {
      assert m'[if i < r then i else i + 1] == m[i];
    }
    if i :| 0 <= i < |m'| && i != r && m'[i] == ExtensionEntry(other, v) {
      assert m'[i] == m[if i < r then i else i - 1];
    }
  }

  /** An insertion adds its own key, if new, and changes no other lookup. */
  lemma FindAfterInsert<V>(m: seq<ExtensionEntry<V>>, key: Key, value: V, other: Key)
    requires IsSorted(m)
    ensures Find(Insert(m, key, value), other) ==
            if other == key && Find(m, key).None? then Some(value) else Find(m, other)
  {
    if Find(m, key).None? {
      InsertKeepsSorted(m, key, value);
      var m' := Insert(m, key, value);
      hide Insert, Find, Holds, IsSorted;
      forall v: V
        ensures Find(m', other) == Some(v) <==> Find(m, other) == Some(v) || (other == key && v == value)
      {
        FindHolds(m, other, v);
        FindHolds(m', other, v);
        InsertHolds(m, key, value, other, v);
      }
    }
  }

  /** The numbers listed for a message: those of its keys that are not negative, in ascending order. */
  ghost predicate ListsNumbers<V>(m: seq<ExtensionEntry<V>>, message: string, numbers: seq<int>) {
    && (forall n :: n in numbers <==> n >= 0 && Find(m, (message, n)).Some?)
    && (forall i, j | 0 <= i < j < |numbers| :: numbers[i] < numbers[j])
  }

  /** Only one list of numbers is that of a message. */
  lemma OneListOnly<V>(m: seq<ExtensionEntry<V>>, message: string, a: seq<int>, b: seq<int>)
    requires ListsNumbers(m, message, a) && ListsNumbers(m, message, b)
    ensures a == b
  {
    AscendingIsUnique(a, b);
  }

  lemma {:induction false} AscendingIsUnique(a: seq<int>, b: seq<int>)
    requires forall i, j | 0 <= i < j < |a| :: a[i] < a[j]
    requires forall i, j | 0 <= i < j < |b| :: b[i] < b[j]
    requires forall n :: n in a <==> n in b
    ensures a == b
    decreases |a|
  {
    BothOrNone(a, b);
    BothOrNone(b, a);
    if a != [] && b != [] {
      var x, y := a[|a| - 1], b[|b| - 1];
      assert x in a && y in b;
      var i :| 0 <= i < |b| && b[i] == x;
      var j :| 0 <= j < |a| && a[j] == y;
      assert x == y;
      var a', b' := a[..|a| - 1], b[..|b| - 1];
      forall n
        ensures n in a' <==> n in b'
      {
        assert n in a <==> n in a' || n == x;
        assert n in b <==> n in b' || n == y;
      }
      AscendingIsUnique(a', b');
    }
  }

  lemma BothOrNone(a: seq<int>, b: seq<int>)
    requires forall n | n in a :: n in b
    ensures a != [] ==> b != []
  {
    if a != [] {
      var n := a[0];
      assert n in a;
      assert n in b;
    }
  }

  /** The numbers of `message` among the entries from `lo` to `hi`. */
  predicate Listed<V>(m: seq<ExtensionEntry<V>>, message: string, lo: nat, hi: nat, numbers: seq<int>)
    requires lo <= hi <= |m|
  {
    && |numbers| == hi - lo
    && forall i | 0 <= i < |numbers| :: m[lo + i].key == (message, numbers[i])
  }

  /** A number of the message that can be looked up is among the numbers listed. */
  lemma PresentIsListed<V>(m: seq<ExtensionEntry<V>>, message: string, hi: nat, numbers: seq<int>, k: nat)
    requires IsSorted(m)
    requires var lo := LowerBound(m, (message, 0));
             lo <= hi <= |m| && Listed(m, message, lo, hi, numbers) && (hi < |m| ==> m[hi].key.0 != message)
    requires k < |m| && m[k].key.0 == message && m[k].key.1 >= 0
    ensures m[k].key.1 in numbers
  {
    var lo := LowerBound(m, (message, 0));
    LessIsStrict(message, message);
    assert k >= lo;
    if k < hi {
      assert m[lo + (k - lo)].key == (message, numbers[k - lo]);
    } else {
      BeyondOtherMessage(m, message, hi, k);
    }
  }

  lemma {:induction false} ListedIsPresent<V>(m: seq<ExtensionEntry<V>>, message: string, hi: nat, numbers: seq<int>,
                                              i: nat)
    requires IsSorted(m) && i < |numbers|
    requires var lo := LowerBound(m, (message, 0));
             lo <= hi <= |m| && Listed(m, message, lo, hi, numbers)
    ensures numbers[i] >= 0 && Find(m, (message, numbers[i])).Some?
  {
    var lo := LowerBound(m, (message, 0));
    FromLowerBound(m, (message, 0), lo + i);
    FindIsLookup(m, (message, numbers[i]));
    assert m[lo + i].key == (message, numbers[i]);
  }

  /** Reading from the first key of the message until another message's key gives its numbers. */
  lemma ListedIsAll<V>(m: seq<ExtensionEntry<V>>, message: string, hi: nat, numbers: seq<int>)
    requires IsSorted(m)
    requires var lo := LowerBound(m, (message, 0));
             lo <= hi <= |m| && Listed(m, message, lo, hi, numbers) && (hi < |m| ==> m[hi].key.0 != message)
    ensures ListsNumbers(m, message, numbers)
  {
    hide Find;
    var lo := LowerBound(m, (message, 0));
    forall n
      ensures n in numbers <==> n >= 0 && Find(m, (message, n)).Some?
    {
      if n in numbers {
        var i :| 0 <= i < |numbers| && numbers[i] == n;
        ListedIsPresent(m, message, hi, numbers, i);
      }
      if n >= 0 && Find(m, (message, n)).Some? {
        FindIsLookup(m, (message, n));
        var k :| 0 <= k < |m| && m[k].key == (message, n);
        PresentIsListed(m, message, hi, numbers, k);
      }
    }
    LessIsStrict(message, message);
    forall i, j | 0 <= i < j < |numbers|
      ensures numbers[i] < numbers[j]
    {
      assert PairLess(m[lo + i].key, m[lo + j].key);
    }
  }

  /** Past a key of a later message there is no key of this one. */
  lemma BeyondOtherMessage<V>(m: seq<ExtensionEntry<V>>, message: string, hi: nat, k: nat)
    requires IsSorted(m) && LowerBound(m, (message, 0)) <= hi <= k < |m|
    requires m[hi].key.0 != message
    ensures m[k].key.0 != message
  {
    FromLowerBound(m, (message, 0), hi);
    LessIsStrict(m[hi].key.0, message);
    if hi < k {
      LessIsStrict(message, m[k].key.0);
      if Less(m[hi].key.0, m[k].key.0) {
        LessIsTransitive(message, m[hi].key.0, m[k].key.0);
      }
    }
  }
}
