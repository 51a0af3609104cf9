/**
 * Sequence vocabulary shared by the report shaping code: mapping, filtering
 * (Python list comprehensions with an `if`), the keys of an insertion-ordered
 * dictionary (first appearance order), flattening, and the counting fact that
 * grouping by a key loses and duplicates nothing.
 */
module Seqs {

  ghost predicate NoDup<T>(s: seq<T>) {
    forall i, j :: 0 <= i < j < |s| ==> s[i] != s[j]
  }

  /** Extending a prefix by one element, and taking the whole. */
  lemma TakeSnoc<T>(s: seq<T>, n: nat)
    requires n < |s|
    ensures s[..n + 1] == s[..n] + [s[n]] && s[..n + 1][..n] == s[..n]
    ensures s[..|s|] == s
  {
  }

  /** `[f(x) for x in s]`. */
  function Map<T, U>(f: T -> U, s: seq<T>): (r: seq<U>)
    ensures |r| == |s|
    ensures forall i :: 0 <= i < |s| ==> r[i] == f(s[i])
  {
    seq(|s|, i requires 0 <= i < |s| => f(s[i]))
  }

  lemma MapAppend<T, U>(f: T -> U, a: seq<T>, b: seq<T>)
    ensures Map(f, a + b) == Map(f, a) + Map(f, b)
  {
  }

  /**
   * The position of the first element failing `p`, or `|s|`: where a loop
   * over `s` that raises on such an element stops.
   */
  function FirstFailing<T>(p: T -> bool, s: seq<T>): (k: nat)
    ensures k <= |s|
    ensures forall i :: 0 <= i < k ==> p(s[i])
    ensures k < |s| ==> !p(s[k])
  {
    if s == [] || !p(s[0]) then 0 else 1 + FirstFailing(p, s[1..])
  }

  /** `[x for x in s if p(x)]`: keeps exactly the elements satisfying `p`. */
  function Filter<T>(p: T -> bool, s: seq<T>): (r: seq<T>)
    ensures |r| <= |s|
    ensures forall i :: 0 <= i < |r| ==> r[i] in s && p(r[i])
  {
    if s == [] then [] else (if p(s[0]) then [s[0]] else []) + Filter(p, s[1..])
  }

  /** Filtering misses no element satisfying `p`. */
  lemma {:induction false} FilterComplete<T>(p: T -> bool, s: seq<T>)
    ensures forall i :: 0 <= i < |s| && p(s[i]) ==> s[i] in Filter(p, s)
  {
    if s != [] {
      FilterComplete(p, s[1..]);
      forall i | 0 <= i < |s| && p(s[i]) ensures s[i] in Filter(p, s) {
        if i > 0 {
          assert s[i] == s[1..][i - 1];
        }
      }
    }
  }

  /** Filtering distributes over concatenation: the order of the kept elements is their order in `s`. */
  lemma {:induction false} FilterAppend<T>(p: T -> bool, a: seq<T>, b: seq<T>)
    ensures Filter(p, a + b) == Filter(p, a) + Filter(p, b)
  {
    if a != [] {
      var x, t := a[0], a[1..];
      var h := if p(x) then [x] else [];
      ConsSplit(a, b);
      calc {
        Filter(p, a + b);
      == { FilterCons(p, x, t + b); }
        h + Filter(p, t + b);
      == { FilterAppend(p, t, b); }
        h + (Filter(p, t) + Filter(p, b));
      == { AppendAssoc(h, Filter(p, t), Filter(p, b)); }
        (h + Filter(p, t)) + Filter(p, b);
      == { FilterCons(p, x, t); }
        Filter(p, a) + Filter(p, b);
      }
    } else {
      assert a + b == b;
    }
  }

  lemma ConsSplit<T>(a: seq<T>, b: seq<T>)
    requires a != []
    ensures a == [a[0]] + a[1..] && a + b == [a[0]] + (a[1..] + b)
  {
  }

  lemma AppendAssoc<T>(a: seq<T>, b: seq<T>, c: seq<T>)
    ensures a + (b + c) == (a + b) + c
  {
  }

  lemma FilterCons<T>(p: T -> bool, x: T, s: seq<T>)
    ensures Filter(p, [x] + s) == (if p(x) then [x] else []) + Filter(p, s)
  {
    assert ([x] + s)[0] == x && ([x] + s)[1..] == s;
  }

  /** The elements of `s` whose key is `k`, in order: one bucket of a `defaultdict(list)`. */
  function FilterKey<T, K(==)>(s: seq<T>, key: T -> K, k: K): (r: seq<T>)
    ensures |r| <= |s|
    ensures forall i :: 0 <= i < |r| ==> r[i] in s && key(r[i]) == k
  {
    if s == [] then [] else (if key(s[0]) == k then [s[0]] else []) + FilterKey(s[1..], key, k)
  }

  /** A bucket misses no element with its key. */
  lemma {:induction false} FilterKeyComplete<T, K>(s: seq<T>, key: T -> K, k: K)
    ensures forall i :: 0 <= i < |s| && key(s[i]) == k ==> s[i] in FilterKey(s, key, k)
  {
    if s != [] {
      FilterKeyComplete(s[1..], key, k);
      forall i | 0 <= i < |s| && key(s[i]) == k ensures s[i] in FilterKey(s, key, k) {
        if i > 0 {
          assert s[i] == s[1..][i - 1];
        }
      }
    }
  }

  lemma {:induction false} FilterKeyAppend<T, K>(a: seq<T>, b: seq<T>, key: T -> K, k: K)
    ensures FilterKey(a + b, key, k) == FilterKey(a, key, k) + FilterKey(b, key, k)
  {
    if a != [] {
      var x, t := a[0], a[1..];
      var h := if key(x) == k then [x] else [];
      ConsSplit(a, b);
      calc {
        FilterKey(a + b, key, k);
      == { FilterKeyCons(x, t + b, key, k); }
        h + FilterKey(t + b, key, k);
      == { FilterKeyAppend(t, b, key, k); }
        h + (FilterKey(t, key, k) + FilterKey(b, key, k));
      == { AppendAssoc(h, FilterKey(t, key, k), FilterKey(b, key, k)); }
        (h + FilterKey(t, key, k)) + FilterKey(b, key, k);
      == { FilterKeyCons(x, t, key, k); }
        FilterKey(a, key, k) + FilterKey(b, key, k);
      }
    } else {
      assert a + b == b;
    }
  }

  lemma FilterKeyCons<T, K>(x: T, s: seq<T>, key: T -> K, k: K)
    ensures FilterKey([x] + s, key, k) == (if key(x) == k then [x] else []) + FilterKey(s, key, k)
  {
    assert ([x] + s)[0] == x && ([x] + s)[1..] == s;
  }

  lemma FilterKeySingle<T, K>(x: T, key: T -> K, k: K)
    ensures FilterKey([x], key, k) == if key(x) == k then [x] else []
  {
    assert FilterKey([x], key, k) == (if key(x) == k then [x] else []) + FilterKey([x][1..], key, k);
  }

  /** Filtering by a key never reorders: appending one element extends exactly its own bucket. */
  lemma FilterKeySnoc<T, K>(s: seq<T>, x: T, key: T -> K, k: K)
    ensures FilterKey(s + [x], key, k) == FilterKey(s, key, k) + (if key(x) == k then [x] else [])
  {
    FilterKeyAppend(s, [x], key, k);
    FilterKeySingle(x, key, k);
  }

  /** Two-level grouping: appending `x` extends only the sub-bucket of its own pair of keys. */
  lemma FilterKeyNestedSnoc<T, K1, K2, U>(s: seq<T>, x: T, key1: T -> K1, key2: T -> K2, f: T -> U, c: K1, k: K2)
    ensures Map(f, FilterKey(FilterKey(s + [x], key1, c), key2, k)) ==
            Map(f, FilterKey(FilterKey(s, key1, c), key2, k)) + (if key1(x) == c && key2(x) == k then [f(x)] else [])
  {
    var outer := FilterKey(s, key1, c);
    var inner := FilterKey(outer, key2, k);
    FilterKeySnoc(s, x, key1, c);
    if key1(x) == c {
      FilterKeySnoc(outer, x, key2, k);
      if key2(x) == k {
        MapAppend(f, inner, [x]);
        assert Map(f, [x]) == [f(x)];
      } else {
        assert FilterKey(outer + [x], key2, k) == inner;
      }
    } else {
      assert FilterKey(s + [x], key1, c) == outer;
    }
  }

  /** Two-level grouping: appending `x` adds its second key to its own bucket's key list, when new there. */
  lemma FilterKeyDistinctSnoc<T, K1, K2>(s: seq<T>, x: T, key1: T -> K1, key2: T -> K2, c: K1)
    ensures Distinct(Map(key2, FilterKey(s + [x], key1, c))) ==
              var d := Distinct(Map(key2, FilterKey(s, key1, c)));
              if key1(x) != c || key2(x) in d then d else d + [key2(x)]
  {
    var outer := FilterKey(s, key1, c);
    FilterKeySnoc(s, x, key1, c);
    if key1(x) == c {
      DistinctMapSnoc(outer, x, key2);
    } else {
      assert FilterKey(s + [x], key1, c) == outer;
    }
  }

  /** A non-empty bucket's key is the key of some element. */
  lemma FilterKeyPresent<T, K>(s: seq<T>, key: T -> K, k: K)
    ensures FilterKey(s, key, k) != [] ==> k in Map(key, s)
  {
    var r := FilterKey(s, key, k);
    if r != [] {
      var i :| 0 <= i < |s| && s[i] == r[0];
      assert Map(key, s)[i] == k;
    }
  }

  /** The keys of an insertion-ordered dictionary filled from `s`: each value once, at its first appearance. */
  function Distinct<K(==)>(s: seq<K>): (r: seq<K>)
    ensures NoDup(r)
    ensures forall i :: 0 <= i < |s| ==> s[i] in r
  {
    if s == [] then []
    else
      var d := Distinct(s[..|s| - 1]);
      assert forall i :: 0 <= i < |s| - 1 ==> s[..|s| - 1][i] == s[i];
      if s[|s| - 1] in d then d else d + [s[|s| - 1]]
  }

  /** Every key of the dictionary comes from `s`. */
  lemma {:induction false} DistinctSound<K>(s: seq<K>)
    ensures forall i :: 0 <= i < |Distinct(s)| ==> Distinct(s)[i] in s
  {
    if s != [] {
      var init := s[..|s| - 1];
      DistinctSound(init);
      forall i | 0 <= i < |Distinct(s)| ensures Distinct(s)[i] in s {
        if i < |Distinct(init)| {
          var j :| 0 <= j < |init| && init[j] == Distinct(init)[i];
          assert s[j] == init[j];
        }
      }
    }
  }

  lemma DistinctSnoc<K>(s: seq<K>, x: K)
    ensures Distinct(s + [x]) == if x in Distinct(s) then Distinct(s) else Distinct(s) + [x]
  {
    assert (s + [x])[..|s|] == s;
  }

  /** Adding one element to the source of an insertion-ordered dictionary adds its key at the end, if new. */
  lemma DistinctMapSnoc<T, K>(s: seq<T>, x: T, key: T -> K)
    ensures Distinct(Map(key, s + [x])) ==
              if key(x) in Distinct(Map(key, s)) then Distinct(Map(key, s)) else Distinct(Map(key, s)) + [key(x)]
  {
    MapAppend(key, s, [x]);
    DistinctSnoc(Map(key, s), key(x));
  }

  /** A key the dictionary has not seen has an empty bucket. */
  lemma BucketAbsent<T, K>(s: seq<T>, key: T -> K, k: K)
    requires k !in Distinct(Map(key, s))
    ensures FilterKey(s, key, k) == []
  {
    FilterKeyPresent(s, key, k);
  }

  /** Flattening a list of lists. */
  function Concat<T>(ss: seq<seq<T>>): seq<T> {
    if ss == [] then [] else ss[0] + Concat(ss[1..])
  }

  lemma {:induction false} ConcatSnoc<T>(ss: seq<seq<T>>, b: seq<T>)
    ensures Concat(ss + [b]) == Concat(ss) + b
  {
    if ss != [] {
      assert (ss + [b])[1..] == ss[1..] + [b];
      ConcatSnoc(ss[1..], b);
    }
  }

  /** The total size of the buckets named by `keys`. */
  function BucketSizes<T, K(==)>(keys: seq<K>, s: seq<T>, key: T -> K): nat {
    if keys == [] then 0 else |FilterKey(s, key, keys[0])| + BucketSizes(keys[1..], s, key)
  }

  lemma {:induction false} BucketSizesSnoc<T, K>(keys: seq<K>, k: K, s: seq<T>, key: T -> K)
    ensures BucketSizes(keys + [k], s, key) == BucketSizes(keys, s, key) + |FilterKey(s, key, k)|
  {
    if keys == [] {
      assert [] + [k] == [k] && [k][1..] == [];
    } else {
      assert (keys + [k])[0] == keys[0] && (keys + [k])[1..] == keys[1..] + [k];
      BucketSizesSnoc(keys[1..], k, s, key);
    }
  }

  lemma {:induction false} BucketSizesCons<T, K>(keys: seq<K>, x: T, s: seq<T>, key: T -> K)
    requires NoDup(keys)
    ensures BucketSizes(keys, [x] + s, key) == BucketSizes(keys, s, key) + (if key(x) in keys then 1 else 0)
  {
    if keys != [] {
      assert ([x] + s)[1..] == s;
      assert NoDup(keys[1..]) by {
        forall i, j | 0 <= i < j < |keys[1..]| ensures keys[1..][i] != keys[1..][j] {
          assert keys[1..][i] == keys[i + 1] && keys[1..][j] == keys[j + 1];
        }
      }
      BucketSizesCons(keys[1..], x, s, key);
      assert key(x) in keys <==> key(x) == keys[0] || key(x) in keys[1..];
    }
  }

  /**
   * Conservation of counts: when `keys` names every element's key once, the
   * buckets together hold exactly `|s|` elements.
   */
  lemma {:induction false} BucketSizesPartition<T, K>(keys: seq<K>, s: seq<T>, key: T -> K)
    requires NoDup(keys)
    requires forall i :: 0 <= i < |s| ==> key(s[i]) in keys
    ensures BucketSizes(keys, s, key) == |s|
  {
    if s == [] {
      BucketSizesEmpty(keys, s, key);
    } else {
      assert s == [s[0]] + s[1..];
      BucketSizesCons(keys, s[0], s[1..], key);
      BucketSizesPartition(keys, s[1..], key);
    }
  }

  lemma {:induction false} BucketSizesEmpty<T, K>(keys: seq<K>, s: seq<T>, key: T -> K)
    requires s == []
    ensures BucketSizes(keys, s, key) == 0
  {
    if keys != [] {
      BucketSizesEmpty(keys[1..], s, key);
    }
  }
}
