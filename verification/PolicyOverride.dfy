/**
 Applying an override to a mapping (internal/config/load.go): lists that alternate keys and values,
 with base order kept, direct keys replaced and new keys appended.
 */
module PolicyOverride {
  import opened Wrappers
  import opened Sequences

  /** The keys of a list of pairs. */
  function Keys<T>(pairs: seq<T>, key: T -> string): seq<string> {
    if |pairs| < 2 then [] else Keys(pairs[..|pairs| - 2], key) + [key(pairs[|pairs| - 2])]
  }

  /** The last pair with a key. */
  function Chosen<T>(pairs: seq<T>, key: T -> string, k: string): Option<(T, T)> {
    if |pairs| < 2 then None
    else if key(pairs[|pairs| - 2]) == k then Some((pairs[|pairs| - 2], pairs[|pairs| - 1]))
    else Chosen(pairs[..|pairs| - 2], key, k)
  }

  /** The override's pair for a key, or else the given pair. */
  function Pick<T>(over: seq<T>, key: T -> string, k: T, v: T): (r: seq<T>)
    ensures |r| == 2
  {
    var chosen := Chosen(over, key, key(k));
    if chosen.Some? then [chosen.value.0, chosen.value.1] else [k, v]
  }

  /** The base's pairs in order, each replaced by the override's pair of the same key. */
  function Replaced<T>(base: seq<T>, over: seq<T>, key: T -> string): seq<T> {
    if |base| < 2 then []
    else Replaced(base[..|base| - 2], over, key) + Pick(over, key, base[|base| - 2], base[|base| - 1])
  }

  lemma ReplacedEnd<T>(base: seq<T>, over: seq<T>, key: T -> string)
    ensures Replaced(base, over, key) ==
              if |base| < 2 then []
              else Replaced(base[..|base| - 2], over, key) + Pick(over, key, base[|base| - 2], base[|base| - 1])
  {
    hide Pick;
  }

  /** The override's pairs whose keys the base lacks. */
  function Added<T>(base: seq<T>, over: seq<T>, key: T -> string): seq<T> {
    if |over| < 2 then []
    else
      Added(base, over[..|over| - 2], key)
      + (if key(over[|over| - 2]) in Keys(base, key) then [] else over[|over| - 2..])
  }

  /** Base order, replaced direct keys, then new keys. */
  function Overridden<T>(base: seq<T>, over: seq<T>, key: T -> string): seq<T> {
    Replaced(base, over, key) + Added(base, over, key)
  }

  // -------------------------------------------------------------------- keys

  lemma {:induction false} ChosenKey<T>(pairs: seq<T>, key: T -> string, k: string)
    ensures Chosen(pairs, key, k).Some? == (k in Keys(pairs, key))
    ensures Chosen(pairs, key, k).Some? ==> key(Chosen(pairs, key, k).value.0) == k
  {
    if |pairs| >= 2 {
      ChosenKey(pairs[..|pairs| - 2], key, k);
    }
  }

  lemma PairsEnd<T>(pairs: seq<T>, a: T, b: T)
    ensures (pairs + [a, b])[..|pairs + [a, b]| - 2] == pairs
    ensures (pairs + [a, b])[|pairs|] == a && (pairs + [a, b])[|pairs| + 1] == b
  {
  }

  lemma KeysEnd<T>(pairs: seq<T>, last: seq<T>, key: T -> string)
    requires |last| == 2
    ensures Keys(pairs + last, key) == Keys(pairs, key) + [key(last[0])]
  {
    assert last == [last[0], last[1]];
    PairsEnd(pairs, last[0], last[1]);
  }

  /** Replacing keeps the base's keys and their order. */
  lemma {:induction false} ReplacedKeys<T>(base: seq<T>, over: seq<T>, key: T -> string)
    ensures Keys(Replaced(base, over, key), key) == Keys(base, key)
    ensures |Replaced(base, over, key)| == 2 * |Keys(base, key)|
  {
    if |base| >= 2 {
      ReplacedKeys(base[..|base| - 2], over, key);
      var k := base[|base| - 2];
      ChosenKey(over, key, key(k));
      KeysEnd(Replaced(base[..|base| - 2], over, key), Pick(over, key, k, base[|base| - 1]), key);
    }
  }

  lemma {:induction false} KeysConcat<T>(a: seq<T>, b: seq<T>, key: T -> string)
    requires |a| % 2 == 0 && |b| % 2 == 0
    ensures Keys(a + b, key) == Keys(a, key) + Keys(b, key)
  {
    if |b| < 2 {
      assert a + b == a;
    } else {
      var init, last := b[..|b| - 2], b[|b| - 2..];
      assert a + b == (a + init) + last && b == init + last;
      KeysConcat(a, init, key);
      KeysEnd(a + init, last, key);
      KeysEnd(init, last, key);
    }
  }

  lemma AddedEnd<T>(base: seq<T>, init: seq<T>, last: seq<T>, key: T -> string)
    requires |last| == 2
    ensures Added(base, init + last, key)
         == if key(last[0]) in Keys(base, key) then Added(base, init, key) else Added(base, init, key) + last
  {
    hide Keys;
    var over := init + last;
    assert over[..|over| - 2] == init && over[|over| - 2..] == last;
  }

  lemma SplitEnd<T>(over: seq<T>)
    requires |over| >= 2
    ensures over == over[..|over| - 2] + over[|over| - 2..] && |over[|over| - 2..]| == 2
  {
  }

  lemma ShortLists<T>(base: seq<T>, over: seq<T>, key: T -> string)
    requires |over| < 2
    ensures Added(base, over, key) == [] && Keys(over, key) == [] && Keys([], key) == [] && NoDuplicates<string>([])
  {
  }

  /** What is added: the override's keys that are new, in their order. */
  lemma {:induction false} AddedKeys<T>(base: seq<T>, over: seq<T>, key: T -> string)
    ensures |Added(base, over, key)| % 2 == 0
    ensures forall k :: k in Keys(Added(base, over, key), key) <==> k in Keys(over, key) && k !in Keys(base, key)
    ensures NoDuplicates(Keys(over, key)) ==> NoDuplicates(Keys(Added(base, over, key), key))
    decreases |over|
  {
    hide *;
    if |over| < 2 {
      ShortLists(base, over, key);
    } else {
      var init, last := over[..|over| - 2], over[|over| - 2..];
      SplitEnd(over);
      AddedKeys(base, init, key);
      AddedEnd(base, init, last, key);
      KeysEnd(init, last, key);
      KeysEnd(Added(base, init, key), last, key);
      NoDuplicatesEnd(Keys(init, key), key(last[0]));
      NoDuplicatesEnd(Keys(Added(base, init, key), key), key(last[0]));
    }
  }

  lemma NoDuplicatesEnd(keys: seq<string>, k: string)
    ensures NoDuplicates(keys + [k]) == (NoDuplicates(keys) && k !in keys)
  {
    assert (keys + [k])[..|keys + [k]| - 1] == keys;
  }

  lemma {:induction false} NoDuplicatesConcat(a: seq<string>, b: seq<string>)
    requires NoDuplicates(a) && NoDuplicates(b) && forall k :: k in b ==> k !in a
    ensures NoDuplicates(a + b)
  {
    if b == [] {
      assert a + b == a;
    } else {
      var init, last := b[..|b| - 1], b[|b| - 1];
      assert b == init + [last];
      assert a + b == (a + init) + [last];
      NoDuplicatesEnd(init, last);
      NoDuplicatesConcat(a, init);
      NoDuplicatesEnd(a + init, last);
    }
  }

  /** The overridden mapping has the base's keys in base order, then the new keys, and no key twice. */
  lemma OverriddenKeys<T>(base: seq<T>, over: seq<T>, key: T -> string)
    ensures |Overridden(base, over, key)| % 2 == 0
    ensures Keys(Overridden(base, over, key), key) == Keys(base, key) + Keys(Added(base, over, key), key)
    ensures NoDuplicates(Keys(base, key)) && NoDuplicates(Keys(over, key)) ==>
              NoDuplicates(Keys(Overridden(base, over, key), key))
  {
    hide *;
    OverriddenParts(base, over, key);
    ReplacedKeys(base, over, key);
    AddedKeys(base, over, key);
    KeysConcat(Replaced(base, over, key), Added(base, over, key), key);
    if NoDuplicates(Keys(base, key)) && NoDuplicates(Keys(over, key)) {
      NoDuplicatesConcat(Keys(base, key), Keys(Added(base, over, key), key));
    }
  }

  lemma OverriddenParts<T>(base: seq<T>, over: seq<T>, key: T -> string)
    ensures Overridden(base, over, key) == Replaced(base, over, key) + Added(base, over, key)
  {
  }

  // ----------------------------------------------------------------- lookups

  lemma ChosenEnd<T>(pairs: seq<T>, last: seq<T>, key: T -> string, k: string)
    requires |last| == 2
    ensures Chosen(pairs + last, key, k) == if key(last[0]) == k then Some((last[0], last[1])) else Chosen(pairs, key, k)
  {
    assert last == [last[0], last[1]];
    PairsEnd(pairs, last[0], last[1]);
  }

  lemma {:induction false} ChosenReplaced<T>(base: seq<T>, over: seq<T>, key: T -> string, k: string)
    ensures Chosen(Replaced(base, over, key), key, k)
         == if Chosen(base, key, k) == None || Chosen(over, key, k) == None then Chosen(base, key, k) else Chosen(over, key, k)
  {
    if |base| >= 2 {
      var init, last := base[..|base| - 2], Pick(over, key, base[|base| - 2], base[|base| - 1]);
      ChosenReplaced(init, over, key, k);
      ChosenEnd(Replaced(init, over, key), last, key, k);
      ChosenKey(over, key, key(base[|base| - 2]));
      ChosenKey(over, key, k);
    }
  }

  lemma {:induction false} ChosenAdded<T>(base: seq<T>, over: seq<T>, key: T -> string, k: string, front: seq<T>)
    decreases |over|
    ensures Chosen(front + Added(base, over, key), key, k)
         == if k !in Keys(base, key) && Chosen(over, key, k).Some? then Chosen(over, key, k) else Chosen(front, key, k)
  {
    hide *;
    if |over| < 2 {
      ShortLists(base, over, key);
      ShortChosen(over, key, k);
      assert front + [] == front;
    } else {
      var init, last := over[..|over| - 2], over[|over| - 2..];
      SplitEnd(over);
      ChosenAdded(base, init, key, k, front);
      AddedEnd(base, init, last, key);
      ChosenEnd(init, last, key, k);
      if key(last[0]) !in Keys(base, key) {
        assert front + Added(base, over, key) == (front + Added(base, init, key)) + last;
        ChosenEnd(front + Added(base, init, key), last, key, k);
      }
    }
  }

  lemma ShortChosen<T>(pairs: seq<T>, key: T -> string, k: string)
    requires |pairs| < 2
    ensures Chosen(pairs, key, k) == None
  {
  }

  /** Looking a key up after an override: the override's pair wins, and every other key reads as before. */
  lemma OverriddenLookup<T>(base: seq<T>, over: seq<T>, key: T -> string, k: string)
    ensures Chosen(Overridden(base, over, key), key, k)
         == if Chosen(over, key, k).Some? then Chosen(over, key, k) else Chosen(base, key, k)
  {
    hide *;
    OverriddenParts(base, over, key);
    ChosenReplaced(base, over, key, k);
    ChosenAdded(base, over, key, k, Replaced(base, over, key));
    ChosenKey(base, key, k);
  }

  /** An element of the result comes from the base or from the override, at a key or a value place. */
  lemma {:induction false} OverriddenFrom<T>(base: seq<T>, over: seq<T>, key: T -> string, x: T)
    requires x in Overridden(base, over, key)
    ensures x in base || x in over
  {
    if x in Replaced(base, over, key) {
      ReplacedFrom(base, over, key, x);
    } else {
      AddedFrom(base, over, key, x);
    }
  }

  lemma {:induction false} ReplacedFrom<T>(base: seq<T>, over: seq<T>, key: T -> string, x: T)
    requires x in Replaced(base, over, key)
    ensures x in base || x in over
  {
    if |base| >= 2 {
      var init := base[..|base| - 2];
      ChosenFrom(over, key, key(base[|base| - 2]));
      if x in Replaced(init, over, key) {
        ReplacedFrom(init, over, key, x);
      }
    }
  }

  lemma {:induction false} AddedFrom<T>(base: seq<T>, over: seq<T>, key: T -> string, x: T)
    requires x in Added(base, over, key)
    ensures x in over
  {
    if |over| >= 2 {
      var init := over[..|over| - 2];
      if x in Added(base, init, key) {
        AddedFrom(base, init, key, x);
      }
    }
  }

  lemma {:induction false} ChosenFrom<T>(pairs: seq<T>, key: T -> string, k: string)
    ensures Chosen(pairs, key, k).Some? ==> Chosen(pairs, key, k).value.0 in pairs && Chosen(pairs, key, k).value.1 in pairs
  {
    if |pairs| >= 2 && key(pairs[|pairs| - 2]) != k {
      ChosenFrom(pairs[..|pairs| - 2], key, k);
    }
  }

  /** Every element at a key place satisfies a test. */
  predicate AllKeys<T>(pairs: seq<T>, ok: T -> bool) {
    |pairs| >= 2 ==> AllKeys(pairs[..|pairs| - 2], ok) && ok(pairs[|pairs| - 2])
  }

  lemma AllKeysEnd<T>(pairs: seq<T>, last: seq<T>, ok: T -> bool)
    requires |last| == 2
    ensures AllKeys(pairs + last, ok) == (AllKeys(pairs, ok) && ok(last[0]))
  {
    assert last == [last[0], last[1]];
    PairsEnd(pairs, last[0], last[1]);
  }

  lemma {:induction false} ChosenOk<T>(pairs: seq<T>, key: T -> string, k: string, ok: T -> bool)
    requires AllKeys(pairs, ok) && Chosen(pairs, key, k).Some?
    ensures ok(Chosen(pairs, key, k).value.0)
  {
    if key(pairs[|pairs| - 2]) != k {
      ChosenOk(pairs[..|pairs| - 2], key, k, ok);
    }
  }

  lemma {:induction false} ReplacedOk<T>(base: seq<T>, over: seq<T>, key: T -> string, ok: T -> bool)
    requires AllKeys(base, ok) && AllKeys(over, ok)
    ensures AllKeys(Replaced(base, over, key), ok)
  {
    if |base| >= 2 {
      var n := |base|;
      ReplacedOk(base[..n - 2], over, key, ok);
      if Chosen(over, key, key(base[n - 2])).Some? {
        ChosenOk(over, key, key(base[n - 2]), ok);
      }
      AllKeysEnd(Replaced(base[..n - 2], over, key), Pick(over, key, base[n - 2], base[n - 1]), ok);
    }
  }

  lemma {:induction false} AddedOk<T>(base: seq<T>, over: seq<T>, key: T -> string, ok: T -> bool, front: seq<T>)
    requires AllKeys(over, ok) && AllKeys(front, ok)
    ensures AllKeys(front + Added(base, over, key), ok)
    decreases |over|
  {
    hide *;
    if |over| < 2 {
      ShortLists(base, over, key);
      assert front + [] == front;
    } else {
      var init, last := over[..|over| - 2], over[|over| - 2..];
      SplitEnd(over);
      AllKeysEnd(init, last, ok);
      AddedOk(base, init, key, ok, front);
      AddedEnd(base, init, last, key);
      if key(last[0]) !in Keys(base, key) {
        assert front + Added(base, over, key) == (front + Added(base, init, key)) + last;
        AllKeysEnd(front + Added(base, init, key), last, ok);
      }
    }
  }

  lemma OverriddenOk<T>(base: seq<T>, over: seq<T>, key: T -> string, ok: T -> bool)
    requires AllKeys(base, ok) && AllKeys(over, ok)
    ensures AllKeys(Overridden(base, over, key), ok)
  {
    hide *;
    OverriddenParts(base, over, key);
    ReplacedOk(base, over, key, ok);
    AddedOk(base, over, key, ok, Replaced(base, over, key));
  }

  // ------------------------------------------------------------------- steps

  lemma PairAt<T>(pairs: seq<T>, i: nat)
    requires i + 1 < |pairs|
    ensures pairs[..i + 2] == pairs[..i] + [pairs[i], pairs[i + 1]]
    ensures pairs[..i + 2][..i] == pairs[..i] && pairs[..i + 2][i] == pairs[i] && pairs[..i + 2][i + 1] == pairs[i + 1]
    ensures pairs[..i + 2][i..] == [pairs[i], pairs[i + 1]]
  {
  }

  lemma WholePairs<T>(pairs: seq<T>, key: T -> string, over: seq<T>)
    ensures pairs[..|pairs|] == pairs && Keys(pairs[..0], key) == [] && Replaced(pairs[..0], over, key) == []
    ensures Added(over, pairs[..0], key) == []
  {
  }

  lemma ReplacedStep<T>(base: seq<T>, over: seq<T>, key: T -> string, i: nat)
    requires i + 1 < |base|
    ensures Replaced(base[..i + 2], over, key) == Replaced(base[..i], over, key) + Pick(over, key, base[i], base[i + 1])
    ensures Keys(base[..i + 2], key) == Keys(base[..i], key) + [key(base[i])]
  {
    hide Pick;
    PairAt(base, i);
  }

  lemma AddedStep<T>(base: seq<T>, over: seq<T>, key: T -> string, i: nat)
    requires i + 1 < |over|
    ensures Added(base, over[..i + 2], key)
         == if key(over[i]) in Keys(base, key) then Added(base, over[..i], key)
            else Added(base, over[..i], key) + [over[i], over[i + 1]]
    ensures Keys(over[..i + 2], key) == Keys(over[..i], key) + [key(over[i])]
  {
    hide *;
    PairAt(over, i);
    AddedEnd(base, over[..i], [over[i], over[i + 1]], key);
    KeysEnd(over[..i], [over[i], over[i + 1]], key);
  }

  /** A key of a list without duplicates does not occur before its place. */
  lemma {:induction false} KeyIsNew<T>(pairs: seq<T>, key: T -> string, i: nat)
    requires |pairs| % 2 == 0 && i % 2 == 0 && i < |pairs| && NoDuplicates(Keys(pairs, key))
    ensures key(pairs[i]) !in Keys(pairs[..i], key)
    ensures Chosen(pairs, key, key(pairs[i])) == Some((pairs[i], pairs[i + 1]))
    decreases |pairs|
  {
    hide *;
    var n := |pairs|;
    var init, last := pairs[..n - 2], pairs[n - 2..];
    SplitEnd(pairs);
    KeysEnd(init, last, key);
    ChosenEnd(init, last, key, key(pairs[i]));
    NoDuplicatesEnd(Keys(init, key), key(last[0]));
    if i < n - 2 {
      KeyIsNew(init, key, i);
      TakeTake(pairs, n - 2, i);
      ChosenKey(init, key, key(pairs[i]));
    }
  }

  lemma TakeTake<T>(pairs: seq<T>, n: nat, i: nat)
    requires i <= n <= |pairs|
    ensures pairs[..n][..i] == pairs[..i]
  {
  }

  // ----------------------------------------------------------------- mapping

  lemma MapEnd<A, B>(pairs: seq<A>, f: A -> B)
    requires |pairs| >= 2
    ensures var n := |pairs|;
            && Map(pairs, f)[..n - 2] == Map(pairs[..n - 2], f)
            && Map(pairs, f)[n - 2..] == Map(pairs[n - 2..], f)
            && Map(pairs, f)[n - 2] == f(pairs[n - 2]) && Map(pairs, f)[n - 1] == f(pairs[n - 1])
  {
    hide *;
    var n := |pairs|;
    SplitEnd(pairs);
    MapConcat(pairs[..n - 2], pairs[n - 2..], f);
    SliceConcat(Map(pairs[..n - 2], f), Map(pairs[n - 2..], f));
    MapAt(pairs, f, n - 2);
    MapAt(pairs, f, n - 1);
  }

  lemma SliceConcat<T>(a: seq<T>, b: seq<T>)
    ensures (a + b)[..|a|] == a && (a + b)[|a|..] == b
  {
  }

  /** The function keeps every element's key. */
  ghost predicate SameKeys<A(!new), B>(f: A -> B, key: A -> string, keyOf: B -> string) {
    forall a :: keyOf(f(a)) == key(a)
  }

  lemma {:induction false} MapKeys<A(!new), B>(pairs: seq<A>, f: A -> B, key: A -> string, keyOf: B -> string)
    requires SameKeys(f, key, keyOf)
    ensures Keys(Map(pairs, f), keyOf) == Keys(pairs, key)
    decreases |pairs|
  {
    if |pairs| >= 2 {
      MapEnd(pairs, f);
      MapKeys(pairs[..|pairs| - 2], f, key, keyOf);
      hide Map;
    }
  }

  lemma {:induction false} MapChosen<A(!new), B>(pairs: seq<A>, f: A -> B, key: A -> string, keyOf: B -> string, k: string)
    requires SameKeys(f, key, keyOf)
    ensures Chosen(Map(pairs, f), keyOf, k)
         == (var chosen := Chosen(pairs, key, k);
             if chosen == None then None else Some((f(chosen.value.0), f(chosen.value.1))))
    decreases |pairs|
  {
    if |pairs| >= 2 {
      MapEnd(pairs, f);
      MapChosen(pairs[..|pairs| - 2], f, key, keyOf, k);
      hide Map;
    }
  }

  lemma MapPick<A(!new), B>(over: seq<A>, f: A -> B, key: A -> string, keyOf: B -> string, k: A, v: A)
    requires SameKeys(f, key, keyOf)
    ensures Map(Pick(over, key, k, v), f) == Pick(Map(over, f), keyOf, f(k), f(v))
  {
    hide Map, Chosen;
    MapChosen(over, f, key, keyOf, key(k));
    var picked := Pick(over, key, k, v);
    assert picked == [picked[0], picked[1]];
    MapPair(picked[0], picked[1], f);
  }

  lemma {:induction false} MapReplaced<A(!new), B>(
    base: seq<A>, over: seq<A>, f: A -> B, key: A -> string, keyOf: B -> string
  )
    requires SameKeys(f, key, keyOf)
    ensures Map(Replaced(base, over, key), f) == Replaced(Map(base, f), Map(over, f), keyOf)
    decreases |base|
  {
    if |base| >= 2 {
      var n := |base|;
      MapEnd(base, f);
      MapReplaced(base[..n - 2], over, f, key, keyOf);
      MapPick(over, f, key, keyOf, base[n - 2], base[n - 1]);
      MapConcat(Replaced(base[..n - 2], over, key), Pick(over, key, base[n - 2], base[n - 1]), f);
      hide Map, Pick, SameKeys;
    }
  }

  lemma {:induction false} MapAdded<A(!new), B>(base: seq<A>, over: seq<A>, f: A -> B, key: A -> string, keyOf: B -> string)
    requires SameKeys(f, key, keyOf)
    ensures Map(Added(base, over, key), f) == Added(Map(base, f), Map(over, f), keyOf)
    decreases |over|
  {
    if |over| >= 2 {
      var n := |over|;
      MapEnd(over, f);
      MapKeys(base, f, key, keyOf);
      MapAdded(base, over[..n - 2], f, key, keyOf);
      MapConcat(Added(base, over[..n - 2], key), over[n - 2..], f);
      MapConcat(Added(base, over[..n - 2], key), [], f);
      hide Map, Keys;
    }
  }

  /** Overriding commutes with a map that keeps keys. */
  lemma MapOverridden<A(!new), B>(base: seq<A>, over: seq<A>, f: A -> B, key: A -> string, keyOf: B -> string)
    requires SameKeys(f, key, keyOf)
    ensures Map(Overridden(base, over, key), f) == Overridden(Map(base, f), Map(over, f), keyOf)
  {
    hide *;
    OverriddenParts(base, over, key);
    OverriddenParts(Map(base, f), Map(over, f), keyOf);
    MapReplaced(base, over, f, key, keyOf);
    MapAdded(base, over, f, key, keyOf);
    MapConcat(Replaced(base, over, key), Added(base, over, key), f);
  }
}
