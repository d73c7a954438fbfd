/** Sums and maxima over sequences, and their conservation when a sequence is split by key. */
module Sums {

  function Sum<T>(s: seq<T>, f: T -> int): int {
    if s == [] then 0 else Sum(s[..|s| - 1], f) + f(s[|s| - 1])
  }

  /** The largest value, but at least 0. */
  function Largest<T>(s: seq<T>, f: T -> int): nat {
    if s == [] then 0
    else if Largest(s[..|s| - 1], f) < f(s[|s| - 1]) then f(s[|s| - 1])
    else Largest(s[..|s| - 1], f)
  }

  function Select<T, K(==)>(s: seq<T>, key: T -> K, k: K): seq<T> {
    if s == [] then []
    else Select(s[..|s| - 1], key, k) + if key(s[|s| - 1]) == k then [s[|s| - 1]] else []
  }

  predicate Distinct<K(==)>(keys: seq<K>) {
    forall i, j | 0 <= i < j < |keys| :: keys[i] != keys[j]
  }

  function SumOf<T, K(==)>(s: seq<T>, key: T -> K, f: T -> int): K -> int {
    k => Sum(Select(s, key, k), f)
  }

  function LargestOf<T, K(==)>(s: seq<T>, key: T -> K, f: T -> int): K -> int {
    k => Largest(Select(s, key, k), f)
  }

  lemma SumSnoc<T>(s: seq<T>, x: T, f: T -> int)
    ensures Sum(s + [x], f) == Sum(s, f) + f(x)
    ensures Largest(s + [x], f) == if Largest(s, f) < f(x) then f(x) else Largest(s, f)
  {
    assert (s + [x])[..|s|] == s;
  }

  /** How a value is spread over the keys: all of it on its own key. */
  function Only<K(==)>(k: K, n: int): K -> int {
    other => if other == k then n else 0
  }

  lemma {:induction false} SumAdds<K>(keys: seq<K>, f: K -> int, g: K -> int, h: K -> int)
    requires forall k | k in keys :: h(k) == f(k) + g(k)
    ensures Sum(keys, h) == Sum(keys, f) + Sum(keys, g)
  {
    if keys != [] {
      SumAdds(keys[..|keys| - 1], f, g, h);
    }
  }

  lemma {:induction false} SumOnly<K>(keys: seq<K>, k: K, n: int)
    requires Distinct(keys)
    ensures Sum(keys, Only(k, n)) == if k in keys then n else 0
  {
    if keys != [] {
      var init := keys[..|keys| - 1];
      SumOnly(init, k, n);
      assert keys == init + [keys[|keys| - 1]];
    }
  }

  /** One more element goes to its own key. */
  lemma SumOfSnoc<T, K>(s: seq<T>, key: T -> K, f: T -> int, k: K)
    requires s != []
    ensures var init, x := s[..|s| - 1], s[|s| - 1];
            SumOf(s, key, f)(k) == SumOf(init, key, f)(k) + Only(key(x), f(x))(k)
  {
    var before := Select(s[..|s| - 1], key, k);
    SumSnoc(before, s[|s| - 1], f);
    assert before + [] == before;
    assert Select(s, key, k) == if key(s[|s| - 1]) == k then before + [s[|s| - 1]] else before;
  }

  /** The sums per key add up to the whole sum, for any list of distinct keys that covers the sequence. */
  lemma {:induction false} SumsPerKey<T, K>(keys: seq<K>, s: seq<T>, key: T -> K, f: T -> int)
    requires Distinct(keys) && forall i | 0 <= i < |s| :: key(s[i]) in keys
    ensures Sum(keys, SumOf(s, key, f)) == Sum(s, f)
  {
    hide SumOf, Only, Distinct;
    if s == [] {
      NothingPerKey(keys, key, f);
    } else {
      var init, x := s[..|s| - 1], s[|s| - 1];
      SumsPerKey(keys, init, key, f);
      forall k | k in keys ensures SumOf(s, key, f)(k) == SumOf(init, key, f)(k) + Only(key(x), f(x))(k) {
        SumOfSnoc(s, key, f, k);
      }
      SumAdds(keys, SumOf(init, key, f), Only(key(x), f(x)), SumOf(s, key, f));
      SumOnly(keys, key(x), f(x));
    }
  }

  lemma NothingPerKey<T, K>(keys: seq<K>, key: T -> K, f: T -> int)
    ensures Sum(keys, SumOf([], key, f)) == 0
  {
    SumOfNothing(keys, SumOf([], key, f));
  }

  lemma {:induction false} SumOfNothing<K>(keys: seq<K>, f: K -> int)
    requires forall k | k in keys :: f(k) == 0
    ensures Sum(keys, f) == 0
  {
    if keys != [] {
      SumOfNothing(keys[..|keys| - 1], f);
    }
  }

  lemma {:induction false} SumSame<K>(keys: seq<K>, f: K -> int, g: K -> int)
    requires forall k | k in keys :: f(k) == g(k)
    ensures Sum(keys, f) == Sum(keys, g) && Largest(keys, f) == Largest(keys, g)
  {
    if keys != [] {
      SumSame(keys[..|keys| - 1], f, g);
    }
  }

  lemma {:induction false} LargestBounds<T>(s: seq<T>, f: T -> int)
    ensures forall x | x in s :: f(x) <= Largest(s, f)
    ensures Largest(s, f) == 0 || exists x | x in s :: f(x) == Largest(s, f)
  {
    if s != [] {
      var init := s[..|s| - 1];
      LargestBounds(init, f);
      assert s == init + [s[|s| - 1]];
      assert s[|s| - 1] in s && forall x | x in init :: x in s;
    }
  }

  lemma {:induction false} SelectMembers<T, K>(s: seq<T>, key: T -> K, k: K)
    ensures forall x :: x in Select(s, key, k) <==> x in s && key(x) == k
  {
    if s != [] {
      var init := s[..|s| - 1];
      SelectMembers(init, key, k);
      assert s == init + [s[|s| - 1]];
    }
  }

  /** The largest of the maxima per key is the maximum of the whole. */
  lemma LargestPerKey<T, K>(keys: seq<K>, s: seq<T>, key: T -> K, f: T -> int)
    requires forall x | x in s :: key(x) in keys
    ensures Largest(keys, LargestOf(s, key, f)) == Largest(s, f)
  {
    var g := LargestOf(s, key, f);
    LargestBounds(s, f);
    LargestBounds(keys, g);
    if Largest(s, f) != 0 {
      var x :| x in s && f(x) == Largest(s, f);
      SelectMembers(s, key, key(x));
      LargestBounds(Select(s, key, key(x)), f);
      assert g(key(x)) >= f(x);
    }
    if Largest(keys, g) != 0 {
      var k :| k in keys && g(k) == Largest(keys, g);
      SelectMembers(s, key, k);
      LargestBounds(Select(s, key, k), f);
      assert Largest(Select(s, key, k), f) == g(k);
    }
  }
}
