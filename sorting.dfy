/** Python's `list.sort(key=...)` and `sorted(..., key=...)` on integer keys:
    ascending by key, elements with equal keys kept in their input order. */
module StableSort {

  predicate Ascending<T>(xs: seq<T>, key: T -> int) {
    forall i, j | 0 <= i < j < |xs| :: key(xs[i]) <= key(xs[j])
  }

  /** The elements of `xs` whose key is `v`, in order. */
  function WithKey<T>(xs: seq<T>, key: T -> int, v: int): seq<T> {
    if xs == [] then []
    else (if key(xs[0]) == v then [xs[0]] else []) + WithKey(xs[1..], key, v)
  }

  /** How many leading elements of `ys` have a smaller key than `x`. */
  function InsertIndex<T>(x: T, ys: seq<T>, key: T -> int): (k: nat)
    requires Ascending(ys, key)
    ensures k <= |ys|
    ensures forall i | 0 <= i < k :: key(ys[i]) < key(x)
    ensures forall i | k <= i < |ys| :: key(x) <= key(ys[i])
  {
    if ys == [] || key(x) <= key(ys[0]) then 0 else 1 + InsertIndex(x, ys[1..], key)
  }

  /** Inserting at a position that splits smaller keys from the rest keeps
      the list ascending. */
  lemma InsertAtAscending<T>(x: T, ys: seq<T>, key: T -> int, k: nat)
    requires Ascending(ys, key) && k <= |ys|
    requires forall i | 0 <= i < k :: key(ys[i]) < key(x)
    requires forall i | k <= i < |ys| :: key(x) <= key(ys[i])
    ensures Ascending(ys[..k] + [x] + ys[k..], key)
  {
    var r := ys[..k] + [x] + ys[k..];
    forall i, j | 0 <= i < j < |r| ensures key(r[i]) <= key(r[j]) {
      var a := if i < k then ys[i] else if i == k then x else ys[i - 1];
      var b := if j < k then ys[j] else if j == k then x else ys[j - 1];
      assert r[i] == a && r[j] == b;
    }
  }

  lemma InsertAtMultiset<T>(x: T, ys: seq<T>, k: nat)
    requires k <= |ys|
    ensures multiset(ys[..k] + [x] + ys[k..]) == multiset(ys) + multiset{x}
  {
    assert ys == ys[..k] + ys[k..];
  }

  /** Puts `x` in front of the first element whose key is not smaller. */
  function InsertByKey<T>(x: T, ys: seq<T>, key: T -> int): (r: seq<T>)
    requires Ascending(ys, key)
    ensures |r| == |ys| + 1
    ensures multiset(r) == multiset(ys) + multiset{x}
    ensures Ascending(r, key)
  {
    var k := InsertIndex(x, ys, key);
    InsertAtAscending(x, ys, key, k);
    InsertAtMultiset(x, ys, k);
    ys[..k] + [x] + ys[k..]
  }

  function SortByKey<T>(xs: seq<T>, key: T -> int): (r: seq<T>)
    ensures |r| == |xs|
    ensures multiset(r) == multiset(xs)
    ensures Ascending(r, key)
  {
    if xs == [] then []
    else
      assert xs == [xs[0]] + xs[1..];
      InsertByKey(xs[0], SortByKey(xs[1..], key), key)
  }

  lemma {:induction false} WithKeyConcat<T>(a: seq<T>, b: seq<T>, key: T -> int, v: int)
    ensures WithKey(a + b, key, v) == WithKey(a, key, v) + WithKey(b, key, v)
  {
    if a != [] {
      assert (a + b)[0] == a[0];
      assert (a + b)[1..] == a[1..] + b;
      WithKeyConcat(a[1..], b, key, v);
      var h := if key(a[0]) == v then [a[0]] else [];
      assert WithKey(a + b, key, v) == h + WithKey(a[1..] + b, key, v);
      assert WithKey(a, key, v) == h + WithKey(a[1..], key, v);
    } else {
      assert a + b == b;
    }
  }

  /** Putting `x` after elements of smaller keys adds it in front of the
      elements of its own key. */
  lemma {:induction false} WithKeyInsertAt<T>(x: T, pre: seq<T>, post: seq<T>, key: T -> int, v: int)
    requires forall i | 0 <= i < |pre| :: key(pre[i]) < key(x)
    ensures WithKey(pre + [x] + post, key, v) == (if key(x) == v then [x] else []) + WithKey(pre + post, key, v)
  {
    var s := pre + [x] + post;
    if pre == [] {
      assert s[0] == x && s[1..] == post;
      assert pre + post == post;
    } else {
      var rest := pre[1..];
      assert s[0] == pre[0] && s[1..] == rest + [x] + post;
      assert (pre + post)[0] == pre[0] && (pre + post)[1..] == rest + post;
      WithKeyInsertAt(x, rest, post, key, v);
    }
  }

  lemma InsertWithKey<T>(x: T, ys: seq<T>, key: T -> int, v: int)
    requires Ascending(ys, key)
    ensures WithKey(InsertByKey(x, ys, key), key, v) == (if key(x) == v then [x] else []) + WithKey(ys, key, v)
  {
    var k := InsertIndex(x, ys, key);
    assert ys == ys[..k] + ys[k..];
    WithKeyInsertAt(x, ys[..k], ys[k..], key, v);
  }

  /** Sorting is stable: among the elements with one key, the order is the
      input order. */
  lemma {:induction false} SortStable<T>(xs: seq<T>, key: T -> int, v: int)
    ensures WithKey(SortByKey(xs, key), key, v) == WithKey(xs, key, v)
  {
    if xs != [] {
      SortStable(xs[1..], key, v);
      InsertWithKey(xs[0], SortByKey(xs[1..], key), key, v);
    }
  }
}
