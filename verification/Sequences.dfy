/** Sequences without duplicates, and sequences mapped by a function with their multisets. */
module Sequences {

  predicate NoDuplicates<T(==)>(s: seq<T>) {
    s != [] ==> s[|s| - 1] !in s[..|s| - 1] && NoDuplicates(s[..|s| - 1])
  }

  function Map<A, B>(s: seq<A>, f: A -> B): (r: seq<B>)
    ensures |r| == |s|
  {
    if s == [] then [] else Map(s[..|s| - 1], f) + [f(s[|s| - 1])]
  }

  lemma {:induction false} MapConcat<A, B>(a: seq<A>, b: seq<A>, f: A -> B)
    ensures Map(a + b, f) == Map(a, f) + Map(b, f)
  {
    if b == [] {
      assert a + b == a;
    } else {
      var init, last := b[..|b| - 1], b[|b| - 1];
      assert (a + b)[..|a + b| - 1] == a + init;
      MapConcat(a, init, f);
    }
  }

  lemma {:induction false} MapAt<A, B>(s: seq<A>, f: A -> B, i: nat)
    requires i < |s|
    ensures Map(s, f)[i] == f(s[i])
  {
    if i < |s| - 1 {
      MapAt(s[..|s| - 1], f, i);
    }
  }

  lemma MapPair<A, B>(a: A, b: A, f: A -> B)
    ensures Map([a, b], f) == [f(a), f(b)]
  {
    MapAt([a, b], f, 0);
    MapAt([a, b], f, 1);
  }

  lemma {:induction false} MapMultiset<A, B>(a: seq<A>, b: seq<A>, f: A -> B)
    requires multiset(a) == multiset(b)
    ensures multiset(Map(a, f)) == multiset(Map(b, f))
    decreases |a|
  {
    hide *;
    SameLength(a, b);
    if a == [] {
      assert b == [];
    } else {
      var n := |a| - 1;
      InMultiset(a, n);
      var i := PlaceOf(b, a[n]);
      var rest := b[..i] + b[i + 1..];
      Removed(b, i);
      Removed(a, n);
      NothingAfter(a);
      MapMultiset(a[..n], rest, f);
      MapRemoved(b, i, f);
      MapRemoved(a, n, f);
    }
  }

  lemma InMultiset<T>(s: seq<T>, i: nat)
    requires i < |s|
    ensures s[i] in multiset(s)
  {
  }

  lemma NothingAfter<T>(s: seq<T>)
    requires s != []
    ensures s[..|s| - 1] + s[|s|..] == s[..|s| - 1]
  {
  }

  lemma SplitAt<T>(s: seq<T>, i: nat)
    requires i < |s|
    ensures s == (s[..i] + [s[i]]) + s[i + 1..]
  {
  }

  lemma MapOne<A, B>(x: A, f: A -> B)
    ensures Map([x], f) == [f(x)]
  {
  }

  lemma Shuffled<T>(a: seq<T>, x: T, b: seq<T>)
    ensures multiset((a + [x]) + b) == multiset(a + b) + multiset{x}
  {
  }

  lemma MapRemoved<A, B>(s: seq<A>, i: nat, f: A -> B)
    requires i < |s|
    ensures multiset(Map(s, f)) == multiset(Map(s[..i] + s[i + 1..], f)) + multiset{f(s[i])}
  {
    hide *;
    SplitAt(s, i);
    MapConcat(s[..i] + [s[i]], s[i + 1..], f);
    MapConcat(s[..i], [s[i]], f);
    MapConcat(s[..i], s[i + 1..], f);
    MapOne(s[i], f);
    Shuffled(Map(s[..i], f), f(s[i]), Map(s[i + 1..], f));
  }

  lemma SameLength<T>(a: seq<T>, b: seq<T>)
    requires multiset(a) == multiset(b)
    ensures |a| == |b|
  {
    assert |multiset(a)| == |a| && |multiset(b)| == |b|;
  }

  lemma PlaceOf<T>(s: seq<T>, x: T) returns (i: nat)
    requires x in multiset(s)
    ensures i < |s| && s[i] == x
  {
    assert x in s;
    i :| 0 <= i < |s| && s[i] == x;
  }

  lemma Removed<T>(s: seq<T>, i: nat)
    requires i < |s|
    ensures multiset(s[..i] + s[i + 1..]) == multiset(s) - multiset{s[i]}
    ensures s[i] in multiset(s)
  {
    assert s == s[..i] + [s[i]] + s[i + 1..];
  }

  lemma RestAt<T>(s: seq<T>, m: nat, n: nat)
    requires m < |s| && n < |s[..m] + s[m + 1..]|
    ensures |s[..m] + s[m + 1..]| == |s| - 1
    ensures var at := if n < m then n else n + 1;
            at < |s| && at != m && s[at] == (s[..m] + s[m + 1..])[n]
  {
  }

  /** Two places of one sequence have their counterparts in any reordering of it. */
  lemma TwoPlaces<T>(a: seq<T>, b: seq<T>, i: nat, j: nat) returns (m: nat, n: nat)
    requires multiset(a) == multiset(b) && i < j < |a|
    ensures m < |b| && n < |b| && m != n && b[m] == a[i] && b[n] == a[j]
  {
    hide *;
    InMultiset(a, i);
    m := PlaceOf(b, a[i]);
    Removed(a, i);
    Removed(b, m);
    var others, rest := a[..i] + a[i + 1..], b[..m] + b[m + 1..];
    RestLength(a, i);
    RestAt(a, i, j - 1);
    InMultiset(others, j - 1);
    var k := PlaceOf(rest, others[j - 1]);
    RestAt(b, m, k);
    n := if k < m then k else k + 1;
  }

  lemma RestLength<T>(s: seq<T>, m: nat)
    requires m < |s|
    ensures |s[..m] + s[m + 1..]| == |s| - 1
  {
  }

  lemma HeadTail<T>(s: seq<T>)
    requires s != []
    ensures s == [s[0]] + s[1..] && multiset(s[1..]) == multiset(s) - multiset{s[0]} && s[0] in multiset(s)
  {
    Removed(s, 0);
    assert s[..0] + s[1..] == s[1..];
  }
}
