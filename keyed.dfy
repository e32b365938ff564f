/** Lists of records identified by a key (`id` for services, gallery items and videos,
    `filename` for generated files), with the array operations the scripts apply to them:
    `findIndex`, `find`, assignment at an index, `filter` on the key and `push`. */
module Keyed {
  import opened Wrappers

  /** `s.findIndex(x => key(x) === k)`: the first position whose key is `k`, or -1. */
  function FirstIndex<T, K(==)>(s: seq<T>, key: T -> K, k: K): (i: int)
    ensures -1 <= i < |s|
    ensures 0 <= i ==> key(s[i]) == k
    ensures forall j | 0 <= j < |s| && (i == -1 || j < i) :: key(s[j]) != k
  {
    if s == [] then -1
    else if key(s[0]) == k then 0
    else
      var i := FirstIndex(s[1..], key, k);
      if i == -1 then -1 else i + 1
  }

  /** `findIndex` as the scripts run it: a left-to-right scan that stops at the first match. */
  method FindIndex<T, K(==)>(s: seq<T>, key: T -> K, k: K) returns (index: int)
    ensures index == FirstIndex(s, key, k)
  {
    index := 0;
    while index < |s|
      invariant 0 <= index <= |s|
      invariant forall j | 0 <= j < index :: key(s[j]) != k
    {
      if key(s[index]) == k {
        return;
      }
      index := index + 1;
    }
    index := -1;
  }

  /** `s.find(x => key(x) === k)`: the first element whose key is `k`, if any. */
  function Find<T, K(==)>(s: seq<T>, key: T -> K, k: K): (r: Option<T>)
    ensures r.None? <==> forall j | 0 <= j < |s| :: key(s[j]) != k
    ensures r.Some? ==> r.value in s && key(r.value) == k
    ensures r.Some? ==> 0 <= FirstIndex(s, key, k) && r.value == s[FirstIndex(s, key, k)]
  {
    var i := FirstIndex(s, key, k);
    if i == -1 then None else Some(s[i])
  }

  /** `s[s.findIndex(y => key(y) === key(x))] = x`, skipped when no element has that key. */
  function ReplaceByKey<T, K(==)>(s: seq<T>, key: T -> K, x: T): (r: seq<T>)
    ensures |r| == |s|
    ensures FirstIndex(s, key, key(x)) == -1 ==> r == s
    ensures var i := FirstIndex(s, key, key(x));
      0 <= i ==> r[i] == x && forall j | 0 <= j < |s| && j != i :: r[j] == s[j]
  {
    var i := FirstIndex(s, key, key(x));
    if i == -1 then s else s[i := x]
  }

  /** `s.filter(x => key(x) !== k)`. */
  function Without<T, K(==)>(s: seq<T>, key: T -> K, k: K): (r: seq<T>)
    ensures |r| <= |s|
    ensures forall x | x in r :: x in s && key(x) != k
    ensures forall x | x in s && key(x) != k :: x in r
  {
    if s == [] then []
    else
      (if key(s[0]) != k then [s[0]] else []) + Without(s[1..], key, k)
  }

  /** The set of keys that occur in `s`. */
  ghost function Keys<T, K>(s: seq<T>, key: T -> K): set<K> {
    set x | x in s :: key(x)
  }

  /** No key occurs twice (assumed by the scripts, never enforced). */
  predicate UniqueKeys<T, K(==)>(s: seq<T>, key: T -> K) {
    forall i, j | 0 <= i < j < |s| :: key(s[i]) != key(s[j])
  }

  /** Removal keeps every other element in its relative order: filtering a concatenation
      filters each part. */
  lemma {:induction false} WithoutConcat<T, K>(a: seq<T>, b: seq<T>, key: T -> K, k: K)
    ensures Without(a + b, key, k) == Without(a, key, k) + Without(b, key, k)
  {
    if a == [] {
      assert a + b == b;
    } else {
      assert (a + b)[0] == a[0] && (a + b)[1..] == a[1..] + b;
      WithoutConcat(a[1..], b, key, k);
      if key(a[0]) != k {
        assert [a[0]] + (Without(a[1..], key, k) + Without(b, key, k)) ==
          ([a[0]] + Without(a[1..], key, k)) + Without(b, key, k);
      } else {
        assert [] + Without(a[1..], key, k) == Without(a[1..], key, k);
      }
    }
  }

  /** Removing a key that does not occur changes nothing. */
  lemma {:induction false} WithoutAbsent<T, K>(s: seq<T>, key: T -> K, k: K)
    requires forall j | 0 <= j < |s| :: key(s[j]) != k
    ensures Without(s, key, k) == s
  {
    if s != [] {
      WithoutAbsent(s[1..], key, k);
    }
  }

  /** Removing by key undoes appending an element whose key was fresh. */
  lemma AppendThenRemove<T, K>(s: seq<T>, key: T -> K, x: T)
    requires forall j | 0 <= j < |s| :: key(s[j]) != key(x)
    ensures Without(s + [x], key, key(x)) == s
  {
    WithoutConcat(s, [x], key, key(x));
    WithoutAbsent(s, key, key(x));
    assert Without([x], key, key(x)) == [];
  }

  /** Removal is idempotent. */
  lemma WithoutIdempotent<T, K>(s: seq<T>, key: T -> K, k: K)
    ensures Without(Without(s, key, k), key, k) == Without(s, key, k)
  {
    var r := Without(s, key, k);
    forall j | 0 <= j < |r| ensures key(r[j]) != k {
      assert r[j] in r;
    }
    WithoutAbsent(r, key, k);
  }

  /** The keys after removal are the keys before, less the removed one. */
  lemma KeysWithout<T, K>(s: seq<T>, key: T -> K, k: K)
    ensures Keys(Without(s, key, k), key) == Keys(s, key) - {k}
  {
  }

  /** Removal keeps keys unique. */
  lemma {:induction false} UniqueWithout<T, K>(s: seq<T>, key: T -> K, k: K)
    requires UniqueKeys(s, key)
    ensures UniqueKeys(Without(s, key, k), key)
  {
    if s != [] {
      UniqueWithout(s[1..], key, k);
      var rest := Without(s[1..], key, k);
      forall j | 0 <= j < |rest| ensures key(rest[j]) != key(s[0]) {
        assert rest[j] in rest;
        var m :| 0 <= m < |s[1..]| && s[1..][m] == rest[j];
        assert s[m + 1] == rest[j];
      }
    }
  }

  /** Appending an element with a fresh key adds exactly that key and keeps keys unique. */
  lemma AppendFresh<T, K>(s: seq<T>, key: T -> K, x: T)
    requires UniqueKeys(s, key)
    requires forall j | 0 <= j < |s| :: key(s[j]) != key(x)
    ensures UniqueKeys(s + [x], key)
    ensures Keys(s + [x], key) == Keys(s, key) + {key(x)}
  {
    assert forall y | y in s + [x] :: y in s || y == x;
  }

  /** Replacing by key keeps the set of keys and their uniqueness. */
  lemma ReplaceKeepsKeys<T, K>(s: seq<T>, key: T -> K, x: T)
    requires UniqueKeys(s, key)
    ensures UniqueKeys(ReplaceByKey(s, key, x), key)
    ensures Keys(ReplaceByKey(s, key, x), key) == Keys(s, key)
  {
    var r := ReplaceByKey(s, key, x);
    var i := FirstIndex(s, key, key(x));
    if i != -1 {
      forall j | 0 <= j < |s| ensures key(r[j]) == key(s[j]) {}
      assert Keys(r, key) == Keys(s, key) by {
        forall y | y in Keys(r, key) ensures y in Keys(s, key) {
          var z :| z in r && key(z) == y;
          var j :| 0 <= j < |r| && r[j] == z;
          assert s[j] in s;
        }
        forall y | y in Keys(s, key) ensures y in Keys(r, key) {
          var z :| z in s && key(z) == y;
          var j :| 0 <= j < |s| && s[j] == z;
          assert r[j] in r;
        }
      }
    }
  }

  /** Writing the same key twice: the second write wins. */
  lemma ReplaceTwice<T, K>(s: seq<T>, key: T -> K, x: T, y: T)
    requires key(x) == key(y)
    ensures ReplaceByKey(ReplaceByKey(s, key, x), key, y) == ReplaceByKey(s, key, y)
  {
    var r := ReplaceByKey(s, key, x);
    var i := FirstIndex(s, key, key(x));
    if i != -1 {
      assert FirstIndex(r, key, key(y)) == i by {
        var i' := FirstIndex(r, key, key(y));
        assert key(r[i]) == key(y);
        forall j | 0 <= j < i ensures key(r[j]) != key(y) {}
      }
    }
  }

  /** Removing a key after replacing the element with that key is removing it. */
  lemma RemoveAfterReplace<T, K>(s: seq<T>, key: T -> K, x: T)
    ensures Without(ReplaceByKey(s, key, x), key, key(x)) == Without(s, key, key(x))
  {
    var i := FirstIndex(s, key, key(x));
    if i != -1 {
      var r := ReplaceByKey(s, key, x);
      assert s == s[..i] + [s[i]] + s[i + 1..];
      assert r == s[..i] + [x] + s[i + 1..];
      WithoutConcat(s[..i] + [s[i]], s[i + 1..], key, key(x));
      WithoutConcat(s[..i], [s[i]], key, key(x));
      WithoutConcat(s[..i] + [x], s[i + 1..], key, key(x));
      WithoutConcat(s[..i], [x], key, key(x));
    }
  }

  /** `s.filter(y => key(y) !== key(x))` followed by `push(x)`. */
  function Upsert<T, K(==)>(s: seq<T>, key: T -> K, x: T): (r: seq<T>)
    ensures |r| >= 1 && r[|r| - 1] == x
    ensures forall y | y in s && key(y) != key(x) :: y in r
    ensures forall y | y in r :: y == x || (y in s && key(y) != key(x))
  {
    Without(s, key, key(x)) + [x]
  }

  /** After an upsert exactly one element has the key of `x`: the last one, which is `x`;
      the elements before it are the other-keyed elements of `s`, in their order. */
  lemma UpsertProperties<T, K>(s: seq<T>, key: T -> K, x: T)
    ensures var r := Upsert(s, key, x);
      && |r| >= 1 && r[|r| - 1] == x
      && (forall j | 0 <= j < |r| :: key(r[j]) == key(x) <==> j == |r| - 1)
      && r[..|r| - 1] == Without(s, key, key(x))
  {
    var r := Upsert(s, key, x);
    var w := Without(s, key, key(x));
    forall j | 0 <= j < |w| ensures key(r[j]) != key(x) {
      assert r[j] == w[j] && w[j] in w;
    }
  }

  /** How many elements have key `k`. */
  function KeyCount<T, K(==)>(s: seq<T>, key: T -> K, k: K): (n: nat)
    ensures n <= |s|
    ensures n == 0 <==> forall j | 0 <= j < |s| :: key(s[j]) != k
  {
    if s == [] then 0 else (if key(s[0]) == k then 1 else 0) + KeyCount(s[1..], key, k)
  }

  lemma {:induction false} KeyCountConcat<T, K>(a: seq<T>, b: seq<T>, key: T -> K, k: K)
    ensures KeyCount(a + b, key, k) == KeyCount(a, key, k) + KeyCount(b, key, k)
  {
    if a == [] {
      assert a + b == b;
    } else {
      assert (a + b)[0] == a[0] && (a + b)[1..] == a[1..] + b;
      KeyCountConcat(a[1..], b, key, k);
    }
  }

  /** Removing key `k` takes its count to zero and leaves every other key's count alone. */
  lemma {:induction false} KeyCountWithout<T, K>(s: seq<T>, key: T -> K, k: K, other: K)
    ensures KeyCount(Without(s, key, k), key, other) == if other == k then 0 else KeyCount(s, key, other)
  {
    if s != [] {
      KeyCountWithout(s[1..], key, k, other);
      var head := if key(s[0]) != k then [s[0]] else [];
      KeyCountConcat(head, Without(s[1..], key, k), key, other);
    }
  }

  /** After an upsert of `x` its key occurs exactly once; other keys keep their counts. */
  lemma UpsertCounts<T, K>(s: seq<T>, key: T -> K, x: T, other: K)
    ensures KeyCount(Upsert(s, key, x), key, other) == if other == key(x) then 1 else KeyCount(s, key, other)
  {
    KeyCountConcat(Without(s, key, key(x)), [x], key, other);
    KeyCountWithout(s, key, key(x), other);
    assert [x][1..] == [];
  }

  /** Two positions holding key `k` make its count at least two. */
  lemma KeyCountTwo<T, K>(s: seq<T>, key: T -> K, k: K, i: nat, j: nat)
    requires i < j < |s| && key(s[i]) == k && key(s[j]) == k
    ensures KeyCount(s, key, k) >= 2
  {
    var a, b, c := s[..i], s[i..j], s[j..];
    assert s == a + b + c;
    KeyCountConcat(a + b, c, key, k);
    KeyCountConcat(a, b, key, k);
    assert b[0] == s[i] && c[0] == s[j];
  }
}
