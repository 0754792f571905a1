/**
 * Ordering by a real-valued score, highest first. `SortByKeyDesc` is a stable sort: it is what
 * Python's `list.sort(key=..., reverse=True)` promises, and one of the orders `np.argsort(...)[::-1]`
 * may produce.
 */
module Sorting {

  /** Keys never increase along `s`. */
  predicate NonIncreasing<T>(s: seq<T>, key: T -> real)
  {
    forall i, j :: 0 <= i < j < |s| ==> key(s[i]) >= key(s[j])
  }

  /** The elements of `s` whose key is `v`, in their order in `s`. */
  function KeyClass<T>(s: seq<T>, key: T -> real, v: real): seq<T>
  {
    if s == [] then [] else (if key(s[0]) == v then [s[0]] else []) + KeyClass(s[1..], key, v)
  }

  /** Inserts `x` into the ordered `r` in front of the first element whose key does not exceed its own. */
  function InsertByKey<T(==)>(r: seq<T>, x: T, key: T -> real): (q: seq<T>)
    requires NonIncreasing(r, key)
    ensures |q| == |r| + 1
    ensures multiset(q) == multiset(r) + multiset{x}
    ensures NonIncreasing(q, key)
    ensures forall v :: KeyClass(q, key, v) == (if key(x) == v then [x] else []) + KeyClass(r, key, v)
  {
    if r == [] then [x]
    else if key(x) >= key(r[0]) then
      assert ([x] + r)[1..] == r;
      [x] + r
    else
      var q' := InsertByKey(r[1..], x, key);
      InsertBehind(r, x, key, q');
      forall v ensures KeyClass([r[0]] + q', key, v) == (if key(x) == v then [x] else []) + KeyClass(r, key, v) {
        InsertBehindClass(r, x, key, q', v);
      }
      [r[0]] + q'
  }

  /** The case of `InsertByKey` where `x` goes behind the head of `r`: order and contents. */
  lemma InsertBehind<T>(r: seq<T>, x: T, key: T -> real, q': seq<T>)
    requires r != [] && NonIncreasing(r, key) && key(x) < key(r[0])
    requires multiset(q') == multiset(r[1..]) + multiset{x} && NonIncreasing(q', key)
    ensures multiset([r[0]] + q') == multiset(r) + multiset{x}
    ensures NonIncreasing([r[0]] + q', key)
  {
    var q := [r[0]] + q';
    assert r == [r[0]] + r[1..];
    assert q[1..] == q';
    forall j | 0 <= j < |q'| ensures key(r[0]) >= key(q'[j]) {
      assert q'[j] in multiset(q');
      if q'[j] != x {
        assert q'[j] in multiset(r[1..]);
        var k :| 0 <= k < |r[1..]| && r[1..][k] == q'[j];
        assert r[k + 1] == q'[j];
      }
    }
  }

  /** The case of `InsertByKey` where `x` goes behind the head of `r`: the elements of key `v`. */
  lemma InsertBehindClass<T>(r: seq<T>, x: T, key: T -> real, q': seq<T>, v: real)
    requires r != [] && key(x) < key(r[0])
    requires KeyClass(q', key, v) == (if key(x) == v then [x] else []) + KeyClass(r[1..], key, v)
    ensures KeyClass([r[0]] + q', key, v) == (if key(x) == v then [x] else []) + KeyClass(r, key, v)
  {
    KeyClassCons(r[0], q', key, v);
    assert r == [r[0]] + r[1..];
    KeyClassCons(r[0], r[1..], key, v);
    if key(x) == v {
      assert key(r[0]) != v;
    }
  }

  lemma KeyClassCons<T>(h: T, t: seq<T>, key: T -> real, v: real)
    ensures KeyClass([h] + t, key, v) == (if key(h) == v then [h] else []) + KeyClass(t, key, v)
  {
    assert ([h] + t)[1..] == t;
  }

  /**
   * `s` ordered by non-increasing key. It is a permutation of `s`, and elements with equal keys keep
   * their relative order from `s`.
   */
  function SortByKeyDesc<T(==)>(s: seq<T>, key: T -> real): (r: seq<T>)
    ensures |r| == |s|
    ensures multiset(r) == multiset(s)
    ensures NonIncreasing(r, key)
    ensures forall v :: KeyClass(r, key, v) == KeyClass(s, key, v)
  {
    if s == [] then []
    else
      assert s == [s[0]] + s[1..];
      InsertByKey(SortByKeyDesc(s[1..], key), s[0], key)
  }
}
