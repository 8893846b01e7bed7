/** Sorting by a numeric key, largest first, as `Array.prototype.sort` does
    with the comparator `(a, b) => key(b) - key(a)`. The sort is stable:
    an element is inserted after every element with an equal key. */
module Ordering {

  /** Keys never increase along the sequence. */
  ghost predicate SortedDescending<T>(xs: seq<T>, key: T -> int) {
    forall i, j :: 0 <= i < j < |xs| ==> key(xs[i]) >= key(xs[j])
  }

  /** Inserts `x` into a descending sequence, after every element whose key
      is at least its own. */
  function Insert<T(==)>(x: T, ys: seq<T>, key: T -> int): (r: seq<T>)
    ensures multiset(r) == multiset(ys) + multiset{x}
  {
    if ys == [] then [x]
    else if key(ys[0]) >= key(x) then
      assert ys == [ys[0]] + ys[1..];
      [ys[0]] + Insert(x, ys[1..], key)
    else
      [x] + ys
  }

  /** Inserting behind a head whose key is at least the new one's. */
  lemma InsertAfterHead<T>(x: T, ys: seq<T>, key: T -> int)
    requires ys != [] && key(ys[0]) >= key(x)
    ensures Insert(x, ys, key) == [ys[0]] + Insert(x, ys[1..], key)
  {
  }

  /** Inserting in front of a head whose key is below the new one's. */
  lemma InsertBeforeHead<T>(x: T, ys: seq<T>, key: T -> int)
    requires ys == [] || key(ys[0]) < key(x)
    ensures Insert(x, ys, key) == [x] + ys
  {
  }

  /** Inserting into a descending sequence keeps it descending. */
  lemma {:induction false} InsertSorted<T>(x: T, ys: seq<T>, key: T -> int)
    requires SortedDescending(ys, key)
    ensures SortedDescending(Insert(x, ys, key), key)
  {
    if ys != [] && key(ys[0]) >= key(x) {
      var tail := ys[1..];
      var rest := Insert(x, tail, key);
      InsertSorted(x, tail, key);
      forall k | 0 <= k < |rest|
        ensures key(ys[0]) >= key(rest[k])
      {
        assert rest[k] in multiset(rest);
        if rest[k] != x {
          assert rest[k] in multiset(tail);
          var j :| 0 <= j < |tail| && tail[j] == rest[k];
          assert tail[j] == ys[j + 1];
        }
      }
    }
  }

  /** The sequence sorted by descending key. */
  function SortDescending<T(==)>(xs: seq<T>, key: T -> int): (r: seq<T>)
    ensures multiset(r) == multiset(xs)
    ensures SortedDescending(r, key)
  {
    if xs == [] then []
    else
      var init := xs[..|xs| - 1];
      assert xs == init + [xs[|xs| - 1]];
      var sorted := SortDescending(init, key);
      InsertSorted(xs[|xs| - 1], sorted, key);
      Insert(xs[|xs| - 1], sorted, key)
  }

  // ---------------------------------------------------------------------------
  // Stability

  /** The elements whose key is `k`, in their order in `xs`. */
  function WithKey<T>(xs: seq<T>, key: T -> int, k: int): seq<T> {
    if xs == [] then []
    else (if key(xs[0]) == k then [xs[0]] else []) + WithKey(xs[1..], key, k)
  }

  lemma AppendAssoc<T>(a: seq<T>, b: seq<T>, c: seq<T>)
    ensures a + (b + c) == (a + b) + c
  {
  }

  lemma WithKeyCons<T>(x: T, ys: seq<T>, key: T -> int, k: int)
    ensures WithKey([x] + ys, key, k) == (if key(x) == k then [x] else []) + WithKey(ys, key, k)
  {
    assert ([x] + ys)[1..] == ys;
  }

  lemma {:induction false} WithKeyAppend<T>(a: seq<T>, b: seq<T>, key: T -> int, k: int)
    ensures WithKey(a + b, key, k) == WithKey(a, key, k) + WithKey(b, key, k)
  {
    if a == [] {
      assert a + b == b;
    } else {
      assert a + b == [a[0]] + (a[1..] + b);
      WithKeyCons(a[0], a[1..] + b, key, k);
      WithKeyAppend(a[1..], b, key, k);
      WithKeyCons(a[0], a[1..], key, k);
      assert [a[0]] + a[1..] == a;
    }
  }

  /** No element of a sequence whose keys all lie below `k` has key `k`. */
  lemma {:induction false} WithKeyBelow<T>(ys: seq<T>, key: T -> int, k: int)
    requires forall i :: 0 <= i < |ys| ==> key(ys[i]) < k
    ensures WithKey(ys, key, k) == []
  {
    if ys != [] {
      WithKeyBelow(ys[1..], key, k);
    }
  }

  lemma SortedTail<T>(ys: seq<T>, key: T -> int)
    requires ys != [] && SortedDescending(ys, key)
    ensures SortedDescending(ys[1..], key)
    ensures forall i :: 0 <= i < |ys| ==> key(ys[i]) <= key(ys[0])
  {
    forall i | 0 < i < |ys| ensures key(ys[i]) <= key(ys[0]) {
      assert key(ys[0]) >= key(ys[i]);
    }
  }

  /** A descending sequence whose head lies below `key(x)` holds nothing
      with that key. */
  lemma BelowHeadWithKey<T>(x: T, ys: seq<T>, key: T -> int)
    requires SortedDescending(ys, key)
    requires ys == [] || key(ys[0]) < key(x)
    ensures WithKey(ys, key, key(x)) == []
  {
    if ys != [] {
      SortedTail(ys, key);
    }
    assert forall i :: 0 <= i < |ys| ==> key(ys[i]) < key(x);
    WithKeyBelow(ys, key, key(x));
  }

  /** Inserting `x` in front: nothing after it shares its key. */
  lemma InsertInFrontWithKey<T>(x: T, ys: seq<T>, key: T -> int, k: int)
    requires SortedDescending(ys, key)
    requires ys == [] || key(ys[0]) < key(x)
    ensures WithKey(Insert(x, ys, key), key, k)
         == WithKey(ys, key, k) + (if key(x) == k then [x] else [])
  {
    InsertBeforeHead(x, ys, key);
    WithKeyCons(x, ys, key, k);
    if key(x) == k {
      BelowHeadWithKey(x, ys, key);
      assert [x] + [] == [] + [x];
    } else {
      assert [] + WithKey(ys, key, k) == WithKey(ys, key, k) + [];
    }
  }

  /** Inserting `x` into a descending sequence puts it after every element
      with its key. */
  lemma {:induction false} InsertWithKey<T>(x: T, ys: seq<T>, key: T -> int, k: int)
    requires SortedDescending(ys, key)
    ensures WithKey(Insert(x, ys, key), key, k)
         == WithKey(ys, key, k) + (if key(x) == k then [x] else [])
  {
    if ys == [] || key(ys[0]) < key(x) {
      InsertInFrontWithKey(x, ys, key, k);
    } else {
      var tail := ys[1..];
      var rest := Insert(x, tail, key);
      var head: seq<T> := if key(ys[0]) == k then [ys[0]] else [];
      var own: seq<T> := if key(x) == k then [x] else [];
      SortedTail(ys, key);
      InsertAfterHead(x, ys, key);
      InsertWithKey(x, tail, key, k);
      WithKeyCons(ys[0], rest, key, k);
      WithKeyCons(ys[0], tail, key, k);
      assert [ys[0]] + tail == ys;
      AppendAssoc(head, WithKey(tail, key, k), own);
    }
  }

  /** The sort is stable: for every key, the elements with that key appear
      in the result in their input order. */
  lemma {:induction false} SortStable<T>(xs: seq<T>, key: T -> int)
    ensures forall k :: WithKey(SortDescending(xs, key), key, k) == WithKey(xs, key, k)
  {
    if xs != [] {
      var init := xs[..|xs| - 1];
      var last := xs[|xs| - 1];
      SortStable(init, key);
      assert xs == init + [last];
      forall k ensures WithKey(SortDescending(xs, key), key, k) == WithKey(xs, key, k) {
        InsertWithKey(last, SortDescending(init, key), key, k);
        WithKeyAppend(init, [last], key, k);
        WithKeyCons(last, [], key, k);
      }
    }
  }
}
