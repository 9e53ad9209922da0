/** Python's `list.sort(key=...)` over string keys, as a stable insertion
    sort, and the facts about sorted sequences that the listings rely on. */
module Sorting {
  import opened Text

  /** The keys of `s` ascend (equal keys allowed). */
  predicate SortedBy<T>(s: seq<T>, key: T -> string)
  {
    forall i, j :: 0 <= i < j < |s| ==> !Less(key(s[j]), key(s[i]))
  }

  /** The keys of `s` strictly ascend. */
  predicate StrictlySortedBy<T>(s: seq<T>, key: T -> string)
  {
    forall i, j :: 0 <= i < j < |s| ==> Less(key(s[i]), key(s[j]))
  }

  /** No two elements of `s` share a key. */
  predicate KeysDistinct<T>(s: seq<T>, key: T -> string)
  {
    forall i, j :: 0 <= i < j < |s| ==> key(s[i]) != key(s[j])
  }

  /** "Not less than" is transitive, because `Less` is a strict total order. */
  lemma NotLessTransitive(a: string, b: string, c: string)
    requires !Less(b, a) && !Less(c, b)
    ensures !Less(c, a)
  {
    LessTotal(a, b);
    if Less(c, a) && Less(a, b) {
      LessTransitive(c, a, b);
    }
  }

  /** Puts `x` in front of the first element whose key is not below its own,
      so that `x` stays ahead of the elements with an equal key. */
  function Insert<T(==)>(x: T, s: seq<T>, key: T -> string): (r: seq<T>)
    ensures multiset(r) == multiset(s) + multiset{x}
  {
    if s == [] || !Less(key(s[0]), key(x)) then
      [x] + s
    else
      assert s == [s[0]] + s[1..];
      [s[0]] + Insert(x, s[1..], key)
  }

  /** Insertion keeps a sorted sequence sorted. */
  lemma {:induction false} InsertSorted<T>(x: T, s: seq<T>, key: T -> string)
    requires SortedBy(s, key)
    ensures SortedBy(Insert(x, s, key), key)
  {
    var r := Insert(x, s, key);
    if s == [] || !Less(key(s[0]), key(x)) {
      assert r == [x] + s;
      forall j | 0 <= j < |s| ensures !Less(key(s[j]), key(x)) {
        LessIrreflexive(key(s[0]));
        NotLessTransitive(key(x), key(s[0]), key(s[j]));
      }
      forall i, j | 0 <= i < j < |r| ensures !Less(key(r[j]), key(r[i])) {
        assert r[j] == s[j - 1];
        if i > 0 {
          assert r[i] == s[i - 1];
        }
      }
    } else {
      var rest := Insert(x, s[1..], key);
      assert s == [s[0]] + s[1..];
      assert SortedBy(s[1..], key);
      InsertSorted(x, s[1..], key);
      assert r == [s[0]] + rest;
      forall j | 0 <= j < |rest| ensures !Less(key(rest[j]), key(s[0])) {
        assert rest[j] in multiset(rest);
        if rest[j] == x {
          LessAsymmetric(key(s[0]), key(x));
        } else {
          var k :| 0 <= k < |s[1..]| && s[1..][k] == rest[j];
          assert s[k + 1] == rest[j];
        }
      }
      forall i, j | 0 <= i < j < |r| ensures !Less(key(r[j]), key(r[i])) {
        assert r[j] == rest[j - 1];
        if i > 0 {
          assert r[i] == rest[i - 1];
        }
      }
    }
  }

  /** `sorted(s, key=key)`: a stable insertion sort. */
  function SortByKey<T(==)>(s: seq<T>, key: T -> string): (r: seq<T>)
    ensures multiset(r) == multiset(s)
    ensures SortedBy(r, key)
  {
    if s == [] then []
    else
      assert s == [s[0]] + s[1..];
      var rest := SortByKey(s[1..], key);
      InsertSorted(s[0], rest, key);
      Insert(s[0], rest, key)
  }

  /** Sorting keeps exactly the elements it was given. */
  lemma SortKeepsElements<T>(s: seq<T>, key: T -> string)
    ensures forall x :: x in SortByKey(s, key) <==> x in s
  {
    var r := SortByKey(s, key);
    forall x ensures x in r <==> x in s {
      assert x in r <==> x in multiset(r);
      assert x in s <==> x in multiset(s);
    }
  }

  /** A sorted sequence whose keys are distinct is strictly sorted. */
  lemma SortedDistinctIsStrict<T>(s: seq<T>, key: T -> string)
    requires SortedBy(s, key) && KeysDistinct(s, key)
    ensures StrictlySortedBy(s, key)
  {
    forall i, j | 0 <= i < j < |s| ensures Less(key(s[i]), key(s[j])) {
      LessTotal(key(s[i]), key(s[j]));
    }
  }

  lemma StrictIsSorted<T>(s: seq<T>, key: T -> string)
    requires StrictlySortedBy(s, key)
    ensures SortedBy(s, key)
  {
    forall i, j | 0 <= i < j < |s| ensures !Less(key(s[j]), key(s[i])) {
      LessAsymmetric(key(s[i]), key(s[j]));
    }
  }

  /** Inserting an element whose key is new keeps a sequence strictly sorted. */
  lemma {:induction false} InsertStrict<T>(x: T, s: seq<T>, key: T -> string)
    requires StrictlySortedBy(s, key)
    requires forall y :: y in s ==> key(y) != key(x)
    ensures StrictlySortedBy(Insert(x, s, key), key)
  {
    StrictIsSorted(s, key);
    InsertSorted(x, s, key);
    var r := Insert(x, s, key);
    if s == [] || !Less(key(s[0]), key(x)) {
      assert r == [x] + s;
      forall j | 1 <= j < |r| ensures Less(key(x), key(r[j])) {
        assert r[j] == s[j - 1] && r[j] in s;
        assert !Less(key(r[j]), key(r[0]));
        LessTotal(key(x), key(r[j]));
      }
    } else {
      var rest := Insert(x, s[1..], key);
      assert s == [s[0]] + s[1..];
      assert StrictlySortedBy(s[1..], key);
      InsertStrict(x, s[1..], key);
      assert r == [s[0]] + rest;
      forall j | 1 <= j < |r| ensures Less(key(s[0]), key(r[j])) {
        assert r[j] == rest[j - 1];
        assert r[j] in multiset(rest);
        if r[j] != x {
          var k :| 0 <= k < |s[1..]| && s[1..][k] == r[j];
          assert s[k + 1] == r[j];
        }
      }
    }
  }

  /** Sorting elements whose keys are distinct orders them strictly. */
  lemma {:induction false} SortDistinctIsStrict<T>(s: seq<T>, key: T -> string)
    requires KeysDistinct(s, key)
    ensures StrictlySortedBy(SortByKey(s, key), key)
  {
    if s != [] {
      var rest := SortByKey(s[1..], key);
      assert KeysDistinct(s[1..], key);
      SortDistinctIsStrict(s[1..], key);
      forall y | y in rest ensures key(y) != key(s[0]) {
        assert y in multiset(rest);
        var k :| 0 <= k < |s[1..]| && s[1..][k] == y;
        assert s[k + 1] == y;
      }
      InsertStrict(s[0], rest, key);
    }
  }

  /** Two strictly sorted sequences with the same elements are equal: the
      sorted listing of a set of uniquely keyed records is unique. */
  lemma {:induction false} SortedUnique<T>(a: seq<T>, b: seq<T>, key: T -> string)
    requires StrictlySortedBy(a, key) && StrictlySortedBy(b, key)
    requires forall x :: x in a <==> x in b
    ensures a == b
  {
    if a != [] {
      assert a[0] in b;
    }
    if b != [] {
      assert b[0] in a;
    }
    if a != [] && b != [] {
      assert a[0] in b;
      var k :| 0 <= k < |b| && b[k] == a[0];
      assert b[0] in a;
      var m :| 0 <= m < |a| && a[m] == b[0];
      if k > 0 {
        if m == 0 {
          LessIrreflexive(key(b[0]));
        } else {
          LessAsymmetric(key(a[0]), key(a[m]));
        }
      }
      assert k == 0 && b[0] == a[0];
      assert a == [a[0]] + a[1..] && b == [b[0]] + b[1..];
      forall x ensures x in a[1..] <==> x in b[1..] {
        if x in a[1..] {
          var i :| 1 <= i < |a| && a[i] == x;
          assert x in a && x in b;
          if x == b[0] {
            LessIrreflexive(key(a[0]));
          }
        }
        if x in b[1..] {
          var i :| 1 <= i < |b| && b[i] == x;
          assert x in b && x in a;
          if x == a[0] {
            LessIrreflexive(key(b[0]));
          }
        }
      }
      SortedUnique(a[1..], b[1..], key);
      assert a == [a[0]] + a[1..] && b == [b[0]] + b[1..];
    }
  }
}
