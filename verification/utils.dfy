/**
 * Generic helpers: Python dictionaries as insertion-ordered association
 * lists, the stable sort behind `sort_dict` (source/utils/utils.py), and sums
 * over sequences whose value does not depend on the order of the terms.
 */
module Utils {

  // ---------------------------------------------------------------------------
  // Insertion-ordered dictionaries
  // ---------------------------------------------------------------------------

  /** A Python `dict`: its items in insertion order. */
  type Dict<K, V> = seq<(K, V)>

  function Keys<K(==), V(==)>(d: Dict<K, V>): (ks: seq<K>)
    ensures |ks| == |d|
    ensures forall i :: 0 <= i < |d| ==> ks[i] == d[i].0
  {
    if |d| == 0 then [] else [d[0].0] + Keys(d[1..])
  }

  predicate Distinct<T(==)>(s: seq<T>) {
    forall i, j :: 0 <= i < j < |s| ==> s[i] != s[j]
  }

  predicate DistinctKeys<K(==), V(==)>(d: Dict<K, V>) {
    forall i, j :: 0 <= i < j < |d| ==> d[i].0 != d[j].0
  }

  /** The lookup table a dictionary stands for. */
  function ToMap<K(==), V(==)>(d: Dict<K, V>): (m: map<K, V>)
    ensures m.Keys == set i | 0 <= i < |d| :: d[i].0
    ensures DistinctKeys(d) ==> forall i :: 0 <= i < |d| ==> m[d[i].0] == d[i].1
  {
    if |d| == 0 then map[]
    else
      var m := ToMap(d[..|d| - 1])[d[|d| - 1].0 := d[|d| - 1].1];
      assert forall i :: 0 <= i < |d| - 1 ==> d[..|d| - 1][i] == d[i];
      m
  }

  /** Assigning items one after another: the last item is the last assignment. */
  lemma ToMapSnoc<K, V>(d: Dict<K, V>, k: K, v: V)
    ensures ToMap(d + [(k, v)]) == ToMap(d)[k := v]
  {
    assert (d + [(k, v)])[..|d|] == d;
  }

  /** The position of key `k` in `d`. */
  function IndexOf<K(==), V(==)>(d: Dict<K, V>, k: K): (i: nat)
    requires k in Keys(d)
    ensures i < |d| && d[i].0 == k
  {
    if d[0].0 == k then 0 else 1 + IndexOf(d[1..], k)
  }

  /** `d[k] = v`: an existing key keeps its position, a new key goes last. */
  function Put<K(==), V(==)>(d: Dict<K, V>, k: K, v: V): (r: Dict<K, V>)
    ensures DistinctKeys(d) ==> DistinctKeys(r)
    ensures DistinctKeys(d) ==> ToMap(r) == ToMap(d)[k := v]
    ensures DistinctKeys(d) ==> Keys(r) == if k in Keys(d) then Keys(d) else Keys(d) + [k]
  {
    var r := if k in Keys(d) then d[IndexOf(d, k) := (k, v)] else d + [(k, v)];
    assert DistinctKeys(d) ==>
      (DistinctKeys(r) && ToMap(r) == ToMap(d)[k := v] && Keys(r) == (if k in Keys(d) then Keys(d) else Keys(d) + [k])) by {
      if DistinctKeys(d) {
        PutMap(d, k, v, r);
      }
    }
    r
  }

  lemma PutMap<K, V>(d: Dict<K, V>, k: K, v: V, r: Dict<K, V>)
    requires DistinctKeys(d)
    requires r == if k in Keys(d) then d[IndexOf(d, k) := (k, v)] else d + [(k, v)]
    ensures DistinctKeys(r)
    ensures ToMap(r) == ToMap(d)[k := v]
    ensures Keys(r) == if k in Keys(d) then Keys(d) else Keys(d) + [k]
  {
    if k in Keys(d) {
      PutExisting(d, k, v, IndexOf(d, k));
    } else {
      PutNew(d, k, v);
    }
  }

  lemma PutExisting<K, V>(d: Dict<K, V>, k: K, v: V, n: nat)
    requires DistinctKeys(d) && n < |d| && d[n].0 == k
    ensures DistinctKeys(d[n := (k, v)])
    ensures ToMap(d[n := (k, v)]) == ToMap(d)[k := v]
    ensures Keys(d[n := (k, v)]) == Keys(d)
  {
    var r := d[n := (k, v)];
    assert forall i :: 0 <= i < |d| ==> r[i].0 == d[i].0;
    assert Keys(r) == Keys(d);
    PutExistingMap(d, k, v, n);
  }

  lemma PutExistingMap<K, V>(d: Dict<K, V>, k: K, v: V, n: nat)
    requires DistinctKeys(d) && n < |d| && d[n].0 == k
    requires DistinctKeys(d[n := (k, v)])
    ensures ToMap(d[n := (k, v)]) == ToMap(d)[k := v]
  {
    var m, m' := ToMap(d[n := (k, v)]), ToMap(d)[k := v];
    PutExistingKeys(d, k, v, n);
    forall x | x in m
      ensures m[x] == m'[x]
    {
      PutExistingAt(d, k, v, n, x);
    }
    MapExtensional(m, m');
  }

  /** Replacing the value at `n` keeps the set of keys. */
  lemma PutExistingKeys<K, V>(d: Dict<K, V>, k: K, v: V, n: nat)
    requires n < |d| && d[n].0 == k
    ensures ToMap(d[n := (k, v)]).Keys == ToMap(d)[k := v].Keys
  {
    var r := d[n := (k, v)];
    assert forall i :: 0 <= i < |d| ==> r[i].0 == d[i].0;
  }

  lemma MapExtensional<K, V>(m: map<K, V>, m': map<K, V>)
    requires m.Keys == m'.Keys
    requires forall x :: x in m ==> m[x] == m'[x]
    ensures m == m'
  {
  }

  /** Replacing the value at `n` changes the lookup of its key only. */
  lemma PutExistingAt<K, V>(d: Dict<K, V>, k: K, v: V, n: nat, x: K)
    requires DistinctKeys(d) && n < |d| && d[n].0 == k
    requires DistinctKeys(d[n := (k, v)])
    requires x in ToMap(d[n := (k, v)])
    ensures ToMap(d[n := (k, v)])[x] == ToMap(d)[k := v][x]
  {
    var r := d[n := (k, v)];
    PutExistingKeys(d, k, v, n);
    var i :| 0 <= i < |r| && r[i].0 == x;
    if i != n {
      assert r[i] == d[i];
    }
  }

  lemma PutNew<K, V>(d: Dict<K, V>, k: K, v: V)
    requires DistinctKeys(d) && k !in Keys(d)
    ensures DistinctKeys(d + [(k, v)])
    ensures ToMap(d + [(k, v)]) == ToMap(d)[k := v]
    ensures Keys(d + [(k, v)]) == Keys(d) + [k]
  {
    var r := d + [(k, v)];
    assert r[..|r| - 1] == d;
    assert ToMap(r) == ToMap(d)[k := v];
    PutNewKeys(d, k, v);
  }

  lemma PutNewKeys<K, V>(d: Dict<K, V>, k: K, v: V)
    requires DistinctKeys(d) && k !in Keys(d)
    ensures DistinctKeys(d + [(k, v)])
    ensures Keys(d + [(k, v)]) == Keys(d) + [k]
  {
    var r := d + [(k, v)];
    assert forall i :: 0 <= i < |d| ==> d[i].0 == Keys(d)[i];
    assert forall i :: 0 <= i < |d| ==> r[i] == d[i];
    assert DistinctKeys(r);
    assert Keys(r) == Keys(d) + [k];
  }

  // ---------------------------------------------------------------------------
  // Regrouping concatenations (cheaper to prove once, generically)
  // ---------------------------------------------------------------------------

  lemma Regroup<T>(x: T, y: T, a: seq<T>, b: seq<T>)
    ensures [x, y] + a + b == [x] + ([y] + (a + b))
  {
  }

  lemma Uncons<T>(a: seq<T>, b: seq<T>)
    requires |a| > 0
    ensures a + b == [a[0]] + (a[1..] + b)
  {
  }

  lemma Reassoc<T>(a: seq<T>, x: T, b: seq<T>)
    ensures a + [x] + b == a + ([x] + b)
  {
  }

  lemma NilConcat<T>(b: seq<T>)
    ensures [] + b == b
  {
  }

  lemma SnocHead<T>(a: seq<T>, b: seq<T>)
    requires |b| > 0
    ensures a + [b[0]] + b[1..] == a + b
  {
    assert [b[0]] + b[1..] == b;
  }

  /** Moving the head of a fresh, duplicate-free list onto the seen ones keeps the rest fresh. */
  lemma DistinctTail<T>(s: seq<T>, seen: seq<T>)
    requires |s| > 0 && Distinct(s)
    requires forall i :: 0 <= i < |s| ==> s[i] !in seen
    ensures Distinct(s[1..])
    ensures forall i :: 0 <= i < |s[1..]| ==> s[1..][i] !in seen + [s[0]]
  {
    forall i | 0 <= i < |s[1..]|
      ensures s[1..][i] !in seen + [s[0]]
    {
      assert s[1..][i] == s[i + 1];
      assert s[i + 1] != s[0];
    }
  }

  // ---------------------------------------------------------------------------
  // Stable sorting
  // ---------------------------------------------------------------------------

  /** `ka` may precede `kb` in the requested direction (`reverse` = descending). */
  predicate InOrder(reverse: bool, ka: int, kb: int) {
    if reverse then ka >= kb else ka <= kb
  }

  predicate SortedBy<T(==)>(s: seq<T>, key: T -> int, reverse: bool) {
    forall i, j :: 0 <= i < j < |s| ==> InOrder(reverse, key(s[i]), key(s[j]))
  }

  /** The elements of `s` whose key is `v`, in their order in `s`. */
  function WithKey<T(==)>(s: seq<T>, key: T -> int, v: int): seq<T> {
    if |s| == 0 then []
    else (if key(s[0]) == v then [s[0]] else []) + WithKey(s[1..], key, v)
  }

  /** Places `x` after every element that must precede it and before the rest. */
  function Insert<T(==)>(x: T, s: seq<T>, key: T -> int, reverse: bool): seq<T> {
    if |s| == 0 || InOrder(reverse, key(x), key(s[0])) then [x] + s
    else [s[0]] + Insert(x, s[1..], key, reverse)
  }

  /**
   * Python's `sorted(s, key=key, reverse=reverse)`. Python's sort is stable in
   * both directions: elements with equal keys keep their input order.
   */
  function SortBy<T(==)>(s: seq<T>, key: T -> int, reverse: bool): (r: seq<T>)
    ensures multiset(r) == multiset(s) && |r| == |s|
    ensures SortedBy(r, key, reverse)
  {
    if |s| == 0 then []
    else
      var rest := SortBy(s[1..], key, reverse);
      InsertSorted(s[0], rest, key, reverse);
      MultisetTail(s);
      Insert(s[0], rest, key, reverse)
  }

  lemma {:induction false} InsertSorted<T>(x: T, s: seq<T>, key: T -> int, reverse: bool)
    requires SortedBy(s, key, reverse)
    ensures multiset(Insert(x, s, key, reverse)) == multiset(s) + multiset{x}
    ensures |Insert(x, s, key, reverse)| == |s| + 1
    ensures SortedBy(Insert(x, s, key, reverse), key, reverse)
    decreases |s|
  {
    InsertMultiset(x, s, key, reverse);
    if |s| > 0 && !InOrder(reverse, key(x), key(s[0])) {
      var rest := Insert(x, s[1..], key, reverse);
      InsertSorted(x, s[1..], key, reverse);
      forall k | 0 <= k < |rest|
        ensures InOrder(reverse, key(s[0]), key(rest[k]))
      {
        assert rest[k] in multiset(rest);
        assert rest[k] in multiset(s[1..]) || rest[k] == x;
      }
      SortedCons(s[0], rest, key, reverse);
    }
  }

  lemma {:induction false} InsertMultiset<T>(x: T, s: seq<T>, key: T -> int, reverse: bool)
    ensures multiset(Insert(x, s, key, reverse)) == multiset(s) + multiset{x}
    ensures |Insert(x, s, key, reverse)| == |s| + 1
    decreases |s|
  {
    if |s| > 0 && !InOrder(reverse, key(x), key(s[0])) {
      InsertMultiset(x, s[1..], key, reverse);
      assert s == [s[0]] + s[1..];
    }
  }

  /** A head in order with every element of a sorted tail gives a sorted sequence. */
  lemma SortedCons<T>(h: T, rest: seq<T>, key: T -> int, reverse: bool)
    requires SortedBy(rest, key, reverse)
    requires forall k :: 0 <= k < |rest| ==> InOrder(reverse, key(h), key(rest[k]))
    ensures SortedBy([h] + rest, key, reverse)
  {
    var r := [h] + rest;
    forall i, j | 0 <= i < j < |r|
      ensures InOrder(reverse, key(r[i]), key(r[j]))
    {
      assert r[j] == rest[j - 1];
      if i > 0 {
        assert r[i] == rest[i - 1];
      }
    }
  }

  lemma {:induction false} InsertStable<T>(x: T, s: seq<T>, key: T -> int, reverse: bool, v: int)
    ensures WithKey(Insert(x, s, key, reverse), key, v)
         == (if key(x) == v then [x] else []) + WithKey(s, key, v)
    decreases |s|
  {
    if |s| == 0 || InOrder(reverse, key(x), key(s[0])) {
      WithKeyCons(x, s, key, v);
    } else {
      var rest := Insert(x, s[1..], key, reverse);
      InsertStable(x, s[1..], key, reverse, v);
      WithKeyCons(s[0], rest, key, v);
      WithKeyCons(s[0], s[1..], key, v);
      assert [s[0]] + s[1..] == s;
      // `x` and `s[0]` do not share a key here, so at most one of them is kept
      assert key(x) != v || key(s[0]) != v;
    }
  }

  lemma WithKeyCons<T>(h: T, t: seq<T>, key: T -> int, v: int)
    ensures WithKey([h] + t, key, v) == (if key(h) == v then [h] else []) + WithKey(t, key, v)
  {
    assert ([h] + t)[1..] == t;
  }

  /** Stability: the run of elements with any given key is exactly as in the input. */
  lemma {:induction false} SortByStable<T>(s: seq<T>, key: T -> int, reverse: bool, v: int)
    ensures WithKey(SortBy(s, key, reverse), key, v) == WithKey(s, key, v)
    decreases |s|
  {
    if |s| > 0 {
      SortByStable(s[1..], key, reverse, v);
      InsertStable(s[0], SortBy(s[1..], key, reverse), key, reverse, v);
    }
  }

  /** Idempotence: sorting an already sorted sequence changes nothing. */
  lemma {:induction false} SortBySorted<T>(s: seq<T>, key: T -> int, reverse: bool)
    requires SortedBy(s, key, reverse)
    ensures SortBy(s, key, reverse) == s
    decreases |s|
  {
    if |s| > 0 {
      assert SortedBy(s[1..], key, reverse);
      SortBySorted(s[1..], key, reverse);
      if |s| > 1 {
        assert InOrder(reverse, key(s[0]), key(s[1]));
      }
      assert s == [s[0]] + s[1..];
    }
  }

  function Value<K(==)>(item: (K, int)): int { item.1 }

  /**
   * `sort_dict(d, reverse)`: the same items re-ordered by value, descending
   * when `reverse` (the default) and ascending otherwise.
   */
  function SortDict<K(==)>(d: Dict<K, int>, reverse: bool): (r: Dict<K, int>)
    ensures multiset(r) == multiset(d) && |r| == |d|
    ensures forall i, j :: 0 <= i < j < |r| ==> InOrder(reverse, r[i].1, r[j].1)
  {
    var r := SortBy(d, Value, reverse);
    assert forall i :: 0 <= i < |r| ==> Value(r[i]) == r[i].1;
    r
  }

  /** Items with equal values keep their relative order. */
  lemma SortDictStable<K>(d: Dict<K, int>, reverse: bool, v: int)
    ensures WithKey(SortDict(d, reverse), Value, v) == WithKey(d, Value, v)
  {
    SortByStable(d, Value, reverse, v);
  }

  lemma SortDictIdempotent<K>(d: Dict<K, int>, reverse: bool)
    ensures SortDict(SortDict(d, reverse), reverse) == SortDict(d, reverse)
  {
    SortBySorted(SortDict(d, reverse), Value, reverse);
  }

  // ---------------------------------------------------------------------------
  // Sums
  // ---------------------------------------------------------------------------

  function Sum<T(==)>(s: seq<T>, f: T -> int): int {
    if |s| == 0 then 0 else f(s[0]) + Sum(s[1..], f)
  }

  lemma {:induction false} SumRemove<T>(s: seq<T>, i: int, f: T -> int)
    requires 0 <= i < |s|
    ensures Sum(s, f) == f(s[i]) + Sum(s[..i] + s[i + 1..], f)
    decreases |s|
  {
    if i > 0 {
      SumRemove(s[1..], i - 1, f);
      assert s[1..][..i - 1] + s[1..][i..] == (s[..i] + s[i + 1..])[1..];
    } else {
      assert s[..0] + s[1..] == s[1..];
    }
  }

  /** A sum does not depend on the order of its terms. */
  lemma {:induction false} SumPermutation<T>(a: seq<T>, b: seq<T>, f: T -> int)
    requires multiset(a) == multiset(b)
    ensures Sum(a, f) == Sum(b, f)
    decreases |a|
  {
    if |a| > 0 {
      assert a[0] in multiset(b);
      var i :| 0 <= i < |b| && b[i] == a[0];
      PermutationTail(a, b, i);
      SumPermutation(a[1..], b[..i] + b[i + 1..], f);
      SumRemove(b, i, f);
    } else {
      assert |b| == |multiset(b)|;
    }
  }

  /** Matching the head of `a` with an equal element of `b` leaves two permutations. */
  lemma PermutationTail<T>(a: seq<T>, b: seq<T>, i: int)
    requires multiset(a) == multiset(b) && |a| > 0
    requires 0 <= i < |b| && b[i] == a[0]
    ensures multiset(a[1..]) == multiset(b[..i] + b[i + 1..])
  {
    calc {
      multiset(a[1..]);
      { MultisetTail(a); }
      multiset(a) - multiset{a[0]};
      multiset(b) - multiset{b[i]};
      { MultisetRemove(b, i); }
      multiset(b[..i] + b[i + 1..]);
    }
  }

  lemma MultisetTail<T>(s: seq<T>)
    requires |s| > 0
    ensures multiset(s[1..]) == multiset(s) - multiset{s[0]}
  {
    assert s == [s[0]] + s[1..];
  }

  /** Removing the element at `i` removes one occurrence of it. */
  lemma MultisetRemove<T>(s: seq<T>, i: int)
    requires 0 <= i < |s|
    ensures multiset(s[..i] + s[i + 1..]) == multiset(s) - multiset{s[i]}
  {
    assert s == s[..i] + [s[i]] + s[i + 1..];
    assert multiset(s) == multiset(s[..i]) + multiset{s[i]} + multiset(s[i + 1..]);
  }

  lemma {:induction false} SumNonNegative<T>(s: seq<T>, f: T -> int)
    requires forall x :: x in s ==> f(x) >= 0
    ensures Sum(s, f) >= 0
    decreases |s|
  {
    if |s| > 0 {
      SumNonNegative(s[1..], f);
    }
  }

  /** Counting as a sum of ones. */
  lemma {:induction false} CountSum<T>(s: seq<T>, p: T -> bool)
    ensures Count(s, p) == Sum(s, Indicator(p))
    decreases |s|
  {
    if |s| > 0 {
      CountSum(s[1..], p);
    }
  }

  function Indicator<T>(p: T -> bool): T -> int {
    x => if p(x) then 1 else 0
  }

  function HasKey<K(==), V>(k: K): ((K, V)) -> bool {
    (item: (K, V)) => item.0 == k
  }

  /** The multiplicity of a key among the keys is the number of items holding it. */
  lemma {:induction false} KeysOccurrences<K, V>(d: Dict<K, V>, k: K)
    ensures multiset(Keys(d))[k] == Count(d, HasKey(k))
    decreases |d|
  {
    if |d| > 0 {
      KeysOccurrences(d[1..], k);
      assert Keys(d) == [d[0].0] + Keys(d[1..]);
    }
  }

  /** Re-ordering the items re-orders the keys. */
  lemma KeysPermutation<K, V>(a: Dict<K, V>, b: Dict<K, V>)
    requires multiset(a) == multiset(b)
    ensures multiset(Keys(a)) == multiset(Keys(b))
  {
    forall k
      ensures multiset(Keys(a))[k] == multiset(Keys(b))[k]
    {
      KeysOccurrences(a, k);
      KeysOccurrences(b, k);
      CountSum(a, HasKey(k));
      CountSum(b, HasKey(k));
      SumPermutation(a, b, Indicator(HasKey(k)));
    }
  }

  /** Distributivity, kept out of the larger proofs that need it. */
  lemma Distribute(a: int, b: int, c: int)
    ensures a * (b + c) == a * b + a * c
  {
  }

  lemma DistributeRight(a: int, b: int, c: int)
    ensures (a + b) * c == a * c + b * c
  {
  }

  /** Adding a term at the end. */
  lemma {:induction false} SumSnoc<T>(s: seq<T>, x: T, f: T -> int)
    ensures Sum(s + [x], f) == Sum(s, f) + f(x)
    decreases |s|
  {
    if |s| > 0 {
      assert (s + [x])[1..] == s[1..] + [x];
      SumSnoc(s[1..], x, f);
    } else {
      assert s + [x] == [x];
    }
  }

  /** Termwise smaller terms give a smaller sum. */
  lemma {:induction false} SumMonotone<T>(s: seq<T>, f: T -> int, g: T -> int)
    requires forall x :: x in s ==> f(x) <= g(x)
    ensures Sum(s, f) <= Sum(s, g)
    decreases |s|
  {
    if |s| > 0 {
      SumMonotone(s[1..], f, g);
    }
  }

  /** Terms bounded by `c` sum to at most `|s| * c`. */
  lemma {:induction false} SumBound<T>(s: seq<T>, f: T -> int, c: int)
    requires forall x :: x in s ==> f(x) <= c
    ensures Sum(s, f) <= |s| * c
    decreases |s|
  {
    if |s| > 0 {
      SumBound(s[1..], f, c);
    }
  }

  /** Summing a constant `c` over `s` is `|s| * c`. */
  lemma {:induction false} SumConstant<T>(s: seq<T>, f: T -> int, c: int)
    requires forall x :: x in s ==> f(x) == c
    ensures Sum(s, f) == |s| * c
    decreases |s|
  {
    if |s| > 0 {
      SumConstant(s[1..], f, c);
    }
  }

  /** Number of elements of `s` satisfying `p`. */
  function Count<T(==)>(s: seq<T>, p: T -> bool): (n: nat)
    ensures n <= |s|
  {
    if |s| == 0 then 0 else (if p(s[0]) then 1 else 0) + Count(s[1..], p)
  }

  /** Number of occurrences of `x` in `s` (the multiplicity of a link). */
  function Occurrences<T(==)>(s: seq<T>, x: T): (n: nat)
    ensures n == multiset(s)[x]
  {
    if |s| == 0 then 0
    else
      assert s == [s[0]] + s[1..];
      (if s[0] == x then 1 else 0) + Occurrences(s[1..], x)
  }

  /** Elements of `s` that satisfy `p`, in order (a list comprehension with a filter). */
  function Filter<T(==,!new)>(s: seq<T>, p: T -> bool): (r: seq<T>)
    ensures |r| <= |s|
    ensures forall i :: 0 <= i < |r| ==> r[i] in s && p(r[i])
    ensures forall i :: 0 <= i < |s| && p(s[i]) ==> s[i] in r
    ensures forall x :: x in r <==> x in s && p(x)
  {
    if |s| == 0 then []
    else
      var rest := Filter(s[1..], p);
      assert forall i :: 1 <= i < |s| ==> s[i] == s[1..][i - 1];
      if p(s[0]) then [s[0]] + rest else rest
  }

  /** Filtering a concatenation filters each part. */
  lemma {:induction false} FilterAppend<T(!new)>(a: seq<T>, b: seq<T>, p: T -> bool)
    ensures Filter(a + b, p) == Filter(a, p) + Filter(b, p)
    decreases |a|
  {
    if |a| > 0 {
      assert (a + b)[1..] == a[1..] + b;
      FilterAppend(a[1..], b, p);
    } else {
      assert a + b == b;
    }
  }

  /** A kept element keeps all its occurrences; a dropped one has none left. */
  lemma {:induction false} FilterOccurrences<T(!new)>(s: seq<T>, p: T -> bool, x: T)
    ensures Occurrences(Filter(s, p), x) == if p(x) then Occurrences(s, x) else 0
    decreases |s|
  {
    if |s| > 0 {
      FilterOccurrences(s[1..], p, x);
      var rest := Filter(s[1..], p);
      if p(s[0]) {
        assert Filter(s, p) == [s[0]] + rest;
        assert ([s[0]] + rest)[1..] == rest;
      }
    }
  }

  lemma {:induction false} FilterDistinct<T(!new)>(s: seq<T>, p: T -> bool)
    requires Distinct(s)
    ensures Distinct(Filter(s, p))
    decreases |s|
  {
    if |s| > 0 {
      FilterDistinct(s[1..], p);
      assert forall k :: 0 <= k < |s| - 1 ==> s[1..][k] == s[k + 1];
      assert s[0] !in s[1..];
    }
  }

  /** A weaker condition counts at least as many elements. */
  lemma {:induction false} CountMonotone<T>(s: seq<T>, p: T -> bool, q: T -> bool)
    requires forall x :: x in s && p(x) ==> q(x)
    ensures Count(s, p) <= Count(s, q)
    decreases |s|
  {
    if |s| > 0 {
      CountMonotone(s[1..], p, q);
    }
  }

  /** A sequence has at most as many distinct elements as its length. */
  lemma {:induction false} SeqSetCard<T>(s: seq<T>)
    ensures |set x | x in s| <= |s|
    decreases |s|
  {
    if |s| > 0 {
      SeqSetCard(s[1..]);
      assert (set x | x in s) == (set x | x in s[1..]) + {s[0]};
    }
  }

  /**
   * The union of `f(x)` over the elements `x` of `s` that pass `via`
   * (a running `set.union` in a loop over `s`).
   */
  function UnionOf<T, U(!new)>(s: seq<T>, via: T -> bool, f: T -> set<U>): (u: set<U>)
    ensures forall y :: y in u <==> exists i :: 0 <= i < |s| && via(s[i]) && y in f(s[i])
  {
    if |s| == 0 then {}
    else
      var rest := UnionOf(s[1..], via, f);
      assert forall i :: 1 <= i < |s| ==> s[i] == s[1..][i - 1];
      (if via(s[0]) then f(s[0]) else {}) + rest
  }

  /** Fewer elements passing, each contributing less, give a smaller union. */
  lemma UnionOfMonotone<T, U(!new)>(s: seq<T>, v1: T -> bool, f1: T -> set<U>, v2: T -> bool, f2: T -> set<U>)
    requires forall x :: x in s && v1(x) ==> v2(x) && f1(x) <= f2(x)
    ensures UnionOf(s, v1, f1) <= UnionOf(s, v2, f2)
  {
  }

  /** A union of subsets of `b` is a subset of `b`. */
  lemma UnionOfBound<T, U(!new)>(s: seq<T>, via: T -> bool, f: T -> set<U>, b: set<U>)
    requires forall x :: x in s ==> f(x) <= b
    ensures UnionOf(s, via, f) <= b
  {
  }

  /** Counting is measuring the filtered sequence. */
  lemma {:induction false} CountFilter<T(!new)>(s: seq<T>, p: T -> bool)
    ensures Count(s, p) == |Filter(s, p)|
    decreases |s|
  {
    if |s| > 0 {
      CountFilter(s[1..], p);
    }
  }

  /** Over a duplicate-free sequence, counting is the size of the matching set. */
  lemma CountSet<T(!new)>(s: seq<T>, p: T -> bool)
    requires Distinct(s)
    ensures Count(s, p) == |set x | x in s && p(x)|
  {
    CountFilter(s, p);
    FilterDistinct(s, p);
    DistinctCard(Filter(s, p));
    assert (set x | x in Filter(s, p)) == set x | x in s && p(x);
  }

  /** The elements of a duplicate-free sequence are as many as its length. */
  lemma {:induction false} DistinctCard<T>(s: seq<T>)
    requires Distinct(s)
    ensures |set x | x in s| == |s|
    decreases |s|
  {
    if |s| > 0 {
      DistinctCard(s[1..]);
      assert (set x | x in s) == (set x | x in s[1..]) + {s[0]};
      assert forall k :: 0 <= k < |s| - 1 ==> s[1..][k] == s[k + 1];
      assert s[0] !in s[1..];
    }
  }

  lemma {:induction false} DistinctOccurrences<T>(s: seq<T>, x: T)
    requires Distinct(s)
    ensures Occurrences(s, x) <= 1
    decreases |s|
  {
    if |s| > 0 {
      assert forall k :: 0 <= k < |s| - 1 ==> s[1..][k] == s[k + 1];
      DistinctOccurrences(s[1..], x);
      if s[0] == x {
        assert x !in s[1..];
        assert multiset(s[1..])[x] == 0;
      }
    }
  }

  lemma RepeatOccurrences<T>(s: seq<T>, i: int, j: int)
    requires 0 <= i < j < |s| && s[i] == s[j]
    ensures Occurrences(s, s[i]) >= 2
  {
    assert s == s[..j] + s[j..];
    assert multiset(s) == multiset(s[..j]) + multiset(s[j..]);
    assert s[..j][i] == s[i];
    assert s[j..][0] == s[j];
  }

  /** A rearrangement of a duplicate-free sequence is duplicate-free. */
  lemma PermutationDistinct<T>(a: seq<T>, b: seq<T>)
    requires multiset(a) == multiset(b) && Distinct(a)
    ensures Distinct(b)
  {
    forall i, j | 0 <= i < j < |b|
      ensures b[i] != b[j]
    {
      if b[i] == b[j] {
        RepeatOccurrences(b, i, j);
        DistinctOccurrences(a, b[i]);
      }
    }
  }
}
