/** Sorting by a pair of numeric keys, as a function and by its laws. */
module Sorting {
  import opened Sequences

  /** The first keys decide, and then the second ones. */
  predicate NotAfter(a: (nat, nat), b: (nat, nat)) {
    a.0 < b.0 || (a.0 == b.0 && a.1 <= b.1)
  }

  predicate SortedBy<T>(s: seq<T>, key: T -> (nat, nat)) {
    forall i, j :: 0 <= i < j < |s| ==> NotAfter(key(s[i]), key(s[j]))
  }

  function InsertBy<T>(x: T, s: seq<T>, key: T -> (nat, nat)): seq<T> {
    if s == [] || NotAfter(key(x), key(s[0])) then [x] + s else [s[0]] + InsertBy(x, s[1..], key)
  }

  function SortBy<T>(s: seq<T>, key: T -> (nat, nat)): seq<T> {
    if s == [] then [] else InsertBy(s[0], SortBy(s[1..], key), key)
  }

  lemma InsertByParts<T>(x: T, s: seq<T>, key: T -> (nat, nat))
    ensures InsertBy(x, s, key) ==
              if s == [] || NotAfter(key(x), key(s[0])) then [x] + s else [s[0]] + InsertBy(x, s[1..], key)
  {
  }

  /** No element of the list has a smaller key. */
  predicate LeastOf<T(==)>(h: T, s: seq<T>, key: T -> (nat, nat)) {
    forall i :: 0 <= i < |s| ==> NotAfter(key(h), key(s[i]))
  }

  lemma ConsSorted<T>(h: T, s: seq<T>, key: T -> (nat, nat))
    requires SortedBy(s, key) && LeastOf(h, s, key)
    ensures SortedBy([h] + s, key)
  {
    var t := [h] + s;
    forall i, j | 0 <= i < j < |t| ensures NotAfter(key(t[i]), key(t[j])) {
      assert t[j] == s[j - 1];
      if i > 0 {
        assert t[i] == s[i - 1];
      }
    }
  }

  lemma LeastOfRest<T>(x: T, h: T, rest: seq<T>, inserted: seq<T>, key: T -> (nat, nat))
    requires LeastOf(h, rest, key) && NotAfter(key(h), key(x)) && multiset(inserted) == multiset(rest) + multiset{x}
    ensures LeastOf(h, inserted, key)
  {
    forall i | 0 <= i < |inserted| ensures NotAfter(key(h), key(inserted[i])) {
      InMultiset(inserted, i);
      if inserted[i] != x {
        var j := PlaceOf(rest, inserted[i]);
      }
    }
  }

  lemma HeadLeast<T>(s: seq<T>, x: T, key: T -> (nat, nat))
    requires SortedBy(s, key) && s != []
    ensures LeastOf(s[0], s[1..], key)
    ensures NotAfter(key(x), key(s[0])) ==> LeastOf(x, s, key)
  {
    assert forall i :: 0 <= i < |s[1..]| ==> s[1..][i] == s[i + 1];
  }

  lemma ConsMultiset<T>(h: T, s: seq<T>)
    ensures multiset([h] + s) == multiset(s) + multiset{h}
  {
  }

  lemma NoneLeast<T>(x: T, key: T -> (nat, nat))
    ensures LeastOf(x, [], key)
  {
  }

  lemma OneIsNotAfter(a: (nat, nat), b: (nat, nat))
    ensures NotAfter(a, b) || NotAfter(b, a)
  {
  }

  lemma {:induction false} InsertBySorts<T>(x: T, s: seq<T>, key: T -> (nat, nat))
    requires SortedBy(s, key)
    ensures SortedBy(InsertBy(x, s, key), key) && multiset(InsertBy(x, s, key)) == multiset(s) + multiset{x}
    decreases |s|
  {
    hide *;
    InsertByParts(x, s, key);
    ConsMultiset(x, s);
    NoneLeast(x, key);
    if s != [] {
      HeadLeast(s, x, key);
      HeadTail(s);
    }
    if s == [] || NotAfter(key(x), key(s[0])) {
      ConsSorted(x, s, key);
    } else {
      OneIsNotAfter(key(x), key(s[0]));
      SortedTail(s, key);
      var rest := InsertBy(x, s[1..], key);
      InsertBySorts(x, s[1..], key);
      LeastOfRest(x, s[0], s[1..], rest, key);
      ConsSorted(s[0], rest, key);
      ConsMultiset(s[0], rest);
    }
  }

  lemma {:induction false} SortBySorts<T>(s: seq<T>, key: T -> (nat, nat))
    ensures SortedBy(SortBy(s, key), key) && multiset(SortBy(s, key)) == multiset(s)
  {
    hide SortedBy, InsertBy;
    if s == [] {
      EmptySorted<T>(key);
    } else {
      SortBySorts(s[1..], key);
      InsertBySorts(s[0], SortBy(s[1..], key), key);
      assert s == [s[0]] + s[1..];
    }
  }

  lemma EmptySorted<T>(key: T -> (nat, nat))
    ensures SortedBy([], key)
  {
  }

  /** Elements with the same key are the same. */
  predicate KeyDetermines<T(==)>(s: seq<T>, key: T -> (nat, nat)) {
    forall i, j :: 0 <= i < |s| && 0 <= j < |s| && key(s[i]) == key(s[j]) ==> s[i] == s[j]
  }

  lemma {:induction false} SortedByUnique<T>(a: seq<T>, b: seq<T>, key: T -> (nat, nat))
    requires SortedBy(a, key) && SortedBy(b, key) && multiset(a) == multiset(b) && KeyDetermines(a, key)
    ensures a == b
    decreases |a|
  {
    hide *;
    SameLength(a, b);
    if a == [] {
      assert b == [];
    } else {
      HeadTail(a);
      HeadTail(b);
      var i := PlaceOf(b, a[0]);
      var j := PlaceOf(a, b[0]);
      SameHead(a, b, i, j, key);
      SortedTail(a, key);
      SortedTail(b, key);
      DeterminesTail(a, key);
      SortedByUnique(a[1..], b[1..], key);
    }
  }

  lemma SameHead<T>(a: seq<T>, b: seq<T>, i: nat, j: nat, key: T -> (nat, nat))
    requires SortedBy(a, key) && SortedBy(b, key) && KeyDetermines(a, key) && a != [] && b != []
    requires i < |b| && b[i] == a[0] && j < |a| && a[j] == b[0]
    ensures a[0] == b[0]
  {
    assert NotAfter(key(a[0]), key(a[j])) && NotAfter(key(b[0]), key(b[i]));
  }

  lemma SortedTail<T>(s: seq<T>, key: T -> (nat, nat))
    requires SortedBy(s, key) && s != []
    ensures SortedBy(s[1..], key)
  {
    var t := s[1..];
    forall i, j | 0 <= i < j < |t| ensures NotAfter(key(t[i]), key(t[j])) {
      assert t[i] == s[i + 1] && t[j] == s[j + 1];
    }
  }

  lemma DeterminesTail<T>(s: seq<T>, key: T -> (nat, nat))
    requires KeyDetermines(s, key) && s != []
    ensures KeyDetermines(s[1..], key)
  {
    var t := s[1..];
    forall i, j | 0 <= i < |t| && 0 <= j < |t| && key(t[i]) == key(t[j]) ensures t[i] == t[j] {
      assert t[i] == s[i + 1] && t[j] == s[j + 1];
    }
  }

  lemma DeterminesAnywhere<T>(a: seq<T>, b: seq<T>, key: T -> (nat, nat))
    requires KeyDetermines(a, key) && multiset(a) == multiset(b)
    ensures KeyDetermines(b, key)
  {
    forall i, j | 0 <= i < |b| && 0 <= j < |b| && key(b[i]) == key(b[j]) ensures b[i] == b[j] {
      InMultiset(b, i);
      InMultiset(b, j);
      var m := PlaceOf(a, b[i]);
      var n := PlaceOf(a, b[j]);
    }
  }

  /** Sorting forgets the order it starts from, when keys determine elements. */
  lemma SortByForgets<T>(a: seq<T>, b: seq<T>, key: T -> (nat, nat))
    requires multiset(a) == multiset(b) && KeyDetermines(a, key)
    ensures SortBy(a, key) == SortBy(b, key)
  {
    hide *;
    SortBySorts(a, key);
    SortBySorts(b, key);
    DeterminesAnywhere(a, SortBy(a, key), key);
    SortedByUnique(SortBy(a, key), SortBy(b, key), key);
  }

  /** A sorted list is its own sorting. */
  lemma SortByFixed<T>(s: seq<T>, key: T -> (nat, nat))
    requires SortedBy(s, key) && KeyDetermines(s, key)
    ensures SortBy(s, key) == s
  {
    hide *;
    SortBySorts(s, key);
    SortedByUnique(s, SortBy(s, key), key);
  }

  function Itself(n: nat): (nat, nat) {
    (n, 0)
  }

  lemma NumbersDetermine(s: seq<nat>)
    ensures KeyDetermines(s, Itself)
  {
  }
}
