/**
 * Stable sorting, as done by pandas' multi-column `sort_values` and by
 * Python's `list.sort(key=..., reverse=True)`, and `sorted(set(...))` on
 * strings. One insertion sort serves every caller; its specification is
 * "sorted, and for every key the elements with that key keep their order",
 * which determines a stable sort completely.
 */
module Sorting {
  import opened Seqs
  import opened Text

  /** `le` is a total preorder: any two keys compare, and comparison chains. */
  ghost predicate TotalPreorder<K(!new)>(le: (K, K) -> bool) {
    && (forall a, b :: le(a, b) || le(b, a))
    && (forall a, b, c :: le(a, b) && le(b, c) ==> le(a, c))
  }

  ghost predicate SortedBy<T, K>(s: seq<T>, key: T -> K, le: (K, K) -> bool) {
    forall i, j :: 0 <= i < j < |s| ==> le(key(s[i]), key(s[j]))
  }

  /** Inserts `x` before the first element it does not have to follow. */
  function Insert<T, K>(x: T, s: seq<T>, key: T -> K, le: (K, K) -> bool): (r: seq<T>)
    ensures multiset(r) == multiset(s) + multiset{x}
  {
    if s == [] then [x]
    else if le(key(x), key(s[0])) then [x] + s
    else
      assert s == [s[0]] + s[1..];
      [s[0]] + Insert(x, s[1..], key, le)
  }

  /** Stable insertion sort of `s` by `key` under `le`. */
  function SortBy<T, K>(s: seq<T>, key: T -> K, le: (K, K) -> bool): (r: seq<T>)
    ensures multiset(r) == multiset(s)
  {
    if s == [] then []
    else
      assert s == [s[0]] + s[1..];
      Insert(s[0], SortBy(s[1..], key, le), key, le)
  }

  lemma {:induction false} InsertSorted<T, K(!new)>(x: T, s: seq<T>, key: T -> K, le: (K, K) -> bool)
    requires TotalPreorder(le) && SortedBy(s, key, le)
    ensures SortedBy(Insert(x, s, key, le), key, le)
  {
    if s != [] && !le(key(x), key(s[0])) {
      var rest := Insert(x, s[1..], key, le);
      InsertSorted(x, s[1..], key, le);
      forall y | y in rest ensures le(key(s[0]), key(y)) {
        assert y in multiset(rest);
        if y != x {
          assert y in multiset(s[1..]);
          var j :| 0 <= j < |s[1..]| && s[1..][j] == y;
          assert s[j + 1] == y;
        }
      }
    }
  }

  /** The result of `SortBy` is sorted whenever `le` is a total preorder. */
  lemma {:induction false} SortBySorted<T, K(!new)>(s: seq<T>, key: T -> K, le: (K, K) -> bool)
    requires TotalPreorder(le)
    ensures SortedBy(SortBy(s, key, le), key, le)
  {
    if s != [] {
      SortBySorted(s[1..], key, le);
      InsertSorted(s[0], SortBy(s[1..], key, le), key, le);
    }
  }

  /** Inserting `x` places it among the elements of its own key exactly where `[x] + s` has it: in front. */
  lemma {:induction false} InsertKeepsBuckets<T, K(!new)>(x: T, s: seq<T>, key: T -> K, le: (K, K) -> bool, k: K)
    requires forall a :: le(a, a)
    ensures FilterKey(Insert(x, s, key, le), key, k) == FilterKey([x] + s, key, k)
  {
    if s == [] {
      assert [x] + s == [x];
    } else if !le(key(x), key(s[0])) {
      var y, tail := s[0], s[1..];
      var rest := Insert(x, tail, key, le);
      var hx := if key(x) == k then [x] else [];
      var hy := if key(y) == k then [y] else [];
      assert le(key(x), key(x));
      assert key(x) != key(y);
      assert hx == [] || hy == [];
      calc {
        FilterKey(Insert(x, s, key, le), key, k);
        { assert Insert(x, s, key, le) == [y] + rest; }
        FilterKey([y] + rest, key, k);
        { FilterKeyCons(y, rest, key, k); }
        hy + FilterKey(rest, key, k);
        { InsertKeepsBuckets(x, tail, key, le, k); }
        hy + FilterKey([x] + tail, key, k);
        { FilterKeyCons(x, tail, key, k); }
        hy + (hx + FilterKey(tail, key, k));
        { SwapEmpty(hy, hx, FilterKey(tail, key, k)); }
        hx + (hy + FilterKey(tail, key, k));
        { FilterKeyCons(y, tail, key, k); assert [y] + tail == s; }
        hx + FilterKey(s, key, k);
        { FilterKeyCons(x, s, key, k); }
        FilterKey([x] + s, key, k);
      }
    }
  }

  /** Two blocks, one of them empty, can be swapped. */
  lemma SwapEmpty<T>(a: seq<T>, b: seq<T>, t: seq<T>)
    requires a == [] || b == []
    ensures a + (b + t) == b + (a + t)
  {
    if a == [] {
      assert a + (b + t) == b + t == b + (a + t);
    } else {
      assert a + (b + t) == a + t == b + (a + t);
    }
  }

  /**
   * Stability: for every key, the elements carrying it appear in the sorted
   * result in exactly the order they had in the input.
   */
  lemma {:induction false} SortByStable<T, K(!new)>(s: seq<T>, key: T -> K, le: (K, K) -> bool, k: K)
    requires TotalPreorder(le)
    ensures FilterKey(SortBy(s, key, le), key, k) == FilterKey(s, key, k)
  {
    if s != [] {
      SortByStable(s[1..], key, le, k);
      var t := SortBy(s[1..], key, le);
      assert forall a :: le(a, a);
      InsertKeepsBuckets(s[0], t, key, le, k);
      assert ([s[0]] + t)[0] == s[0] && ([s[0]] + t)[1..] == t;
    }
  }

  ghost predicate StrictlyIncreasing(s: seq<string>) {
    forall i, j :: 0 <= i < j < |s| ==> StrLt(s[i], s[j])
  }

  /** Adds `x` to a strictly increasing list of strings unless it is already there. */
  function InsertUnique(x: string, s: seq<string>): (r: seq<string>)
    requires StrictlyIncreasing(s)
    ensures StrictlyIncreasing(r)
    ensures forall y :: y in r <==> y == x || y in s
  {
    if s == [] then [x]
    else if x == s[0] then s
    else if StrLt(x, s[0]) then
      StrLtTransitiveAll(x, s);
      [x] + s
    else
      StrLtTotal(x, s[0]);
      var rest := InsertUnique(x, s[1..]);
      assert forall y :: y in rest ==> StrLt(s[0], y);
      [s[0]] + rest
  }

  lemma StrLtTransitiveAll(x: string, s: seq<string>)
    requires s != [] && StrictlyIncreasing(s) && StrLt(x, s[0])
    ensures forall j :: 0 <= j < |s| ==> StrLt(x, s[j])
  {
    forall j | 0 < j < |s| ensures StrLt(x, s[j]) {
      StrLtTransitive(x, s[0], s[j]);
    }
  }

  /** Python's `sorted(set(s))` for strings. */
  function SortedSet(s: seq<string>): (r: seq<string>)
    ensures StrictlyIncreasing(r)
    ensures forall y :: y in r <==> y in s
  {
    if s == [] then [] else InsertUnique(s[0], SortedSet(s[1..]))
  }

  /**
   * A strictly increasing list is determined by its elements: `sorted(set(s))`
   * is the only strictly increasing enumeration of the distinct values of `s`.
   */
  lemma {:induction false} StrictlyIncreasingUnique(a: seq<string>, b: seq<string>)
    requires StrictlyIncreasing(a) && StrictlyIncreasing(b)
    requires forall y :: y in a <==> y in b
    ensures a == b
  {
    assert a != [] ==> a[0] in b;
    assert b != [] ==> b[0] in a;
    if a != [] && b != [] {
      assert a[0] in b && b[0] in a;
      if a[0] != b[0] {
        var i :| 0 <= i < |b| && b[i] == a[0];
        var j :| 0 <= j < |a| && a[j] == b[0];
        StrLtAsymmetric(b[0], a[0]);
      }
      assert a == [a[0]] + a[1..] && b == [b[0]] + b[1..];
      forall y ensures y in a[1..] <==> y in b[1..] {
        if y in a[1..] {
          var i :| 0 <= i < |a[1..]| && a[1..][i] == y;
          assert StrLt(a[0], a[i + 1]);
          StrLtIrreflexive(y);
          assert y in b && y != b[0];
        }
        if y in b[1..] {
          var i :| 0 <= i < |b[1..]| && b[1..][i] == y;
          assert StrLt(b[0], b[i + 1]);
          StrLtIrreflexive(y);
          assert y in a && y != a[0];
        }
      }
      StrictlyIncreasingUnique(a[1..], b[1..]);
      assert a == [a[0]] + a[1..] && b == [b[0]] + b[1..];
    }
  }
}
