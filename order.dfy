/** Python's ordering of strings (code point by code point) and the lists that
    `sorted(some_set)` produces: strictly increasing, hence duplicate-free. */
module StringOrder {

  /** `a < b` on Python strings. */
  predicate Less(a: string, b: string)
    decreases |a|
  {
    if a == [] then b != []
    else b != [] && (a[0] < b[0] || (a[0] == b[0] && Less(a[1..], b[1..])))
  }

  lemma {:induction false} LessIrreflexive(a: string)
    ensures !Less(a, a)
  {
    if a != [] { LessIrreflexive(a[1..]); }
  }

  lemma {:induction false} LessTransitive(a: string, b: string, c: string)
    requires Less(a, b) && Less(b, c)
    ensures Less(a, c)
  {
    if a != [] && a[0] == b[0] && b[0] == c[0] {
      LessTransitive(a[1..], b[1..], c[1..]);
    }
  }

  lemma {:induction false} LessTotal(a: string, b: string)
    requires a != b
    ensures Less(a, b) || Less(b, a)
  {
    if a != [] && b != [] && a[0] == b[0] {
      LessTotal(a[1..], b[1..]);
    }
  }

  lemma LessAsymmetric(a: string, b: string)
    requires Less(a, b)
    ensures !Less(b, a)
  {
    if Less(b, a) {
      LessTransitive(a, b, a);
      LessIrreflexive(a);
    }
  }

  function Elems(xs: seq<string>): set<string> {
    set i | 0 <= i < |xs| :: xs[i]
  }

  lemma ElemsConcat(a: seq<string>, b: seq<string>)
    ensures Elems(a + b) == Elems(a) + Elems(b)
  {
    forall y | y in Elems(a + b) ensures y in Elems(a) + Elems(b) {
      var k :| 0 <= k < |a + b| && (a + b)[k] == y;
      if k >= |a| { assert b[k - |a|] == y; } else { assert a[k] == y; }
    }
    forall y | y in Elems(a) ensures y in Elems(a + b) {
      var k :| 0 <= k < |a| && a[k] == y;
      assert (a + b)[k] == y;
    }
    forall y | y in Elems(b) ensures y in Elems(a + b) {
      var k :| 0 <= k < |b| && b[k] == y;
      assert (a + b)[k + |a|] == y;
    }
  }

  lemma ElemsEmpty(xs: seq<string>)
    ensures Elems(xs) == {} <==> xs == []
  {
    if xs != [] { assert xs[0] in Elems(xs); }
  }

  lemma ElemsSingleton(x: string)
    ensures Elems([x]) == {x}
  {
    assert [x][0] == x;
  }

  /** What `sorted(s)` returns for a set `s`: ascending, no repeats. */
  predicate StrictlySorted(xs: seq<string>) {
    forall i, j | 0 <= i < j < |xs| :: Less(xs[i], xs[j])
  }

  lemma StrictlySortedDistinct(xs: seq<string>, i: int, j: int)
    requires StrictlySorted(xs) && 0 <= i < j < |xs|
    ensures xs[i] != xs[j]
  {
    LessIrreflexive(xs[i]);
  }

  /** `sorted` of a set is determined by the set: two strictly sorted lists
      with the same elements are the same list. */
  lemma {:induction false} SortedUnique(xs: seq<string>, ys: seq<string>)
    requires StrictlySorted(xs) && StrictlySorted(ys)
    requires Elems(xs) == Elems(ys)
    ensures xs == ys
  {
    if xs != [] && ys != [] {
      assert xs[0] in Elems(ys);
      assert ys[0] in Elems(xs);
      if xs[0] != ys[0] {
        var i :| 0 < i < |ys| && ys[i] == xs[0];
        var j :| 0 < j < |xs| && xs[j] == ys[0];
        assert Less(ys[0], xs[0]) && Less(xs[0], ys[0]);
        LessAsymmetric(ys[0], xs[0]);
      }
      assert Elems(xs[1..]) == Elems(xs) - {xs[0]} by {
        forall k | 0 < k < |xs| ensures xs[k] != xs[0] { StrictlySortedDistinct(xs, 0, k); }
      }
      assert Elems(ys[1..]) == Elems(ys) - {ys[0]} by {
        forall k | 0 < k < |ys| ensures ys[k] != ys[0] { StrictlySortedDistinct(ys, 0, k); }
      }
      SortedUnique(xs[1..], ys[1..]);
      assert xs == [xs[0]] + xs[1..] && ys == [ys[0]] + ys[1..];
    } else {
      ElemsEmpty(xs);
      ElemsEmpty(ys);
    }
  }

  /** Adds `x` to the sorted list of a set (the `set.add` of the allow-lists,
      kept in the form `sorted` will print it). */
  function InsertSorted(xs: seq<string>, x: string): (r: seq<string>)
    requires StrictlySorted(xs)
    ensures StrictlySorted(r)
    ensures Elems(r) == Elems(xs) + {x}
    decreases |xs|
  {
    if xs == [] then [x]
    else if x == xs[0] then xs
    else if Less(x, xs[0]) then
      assert StrictlySorted([x] + xs) by {
        forall i, j | 0 <= i < j < |xs| + 1 ensures Less(([x] + xs)[i], ([x] + xs)[j]) {
          if i == 0 && j > 1 { LessTransitive(x, xs[0], xs[j - 1]); }
        }
      }
      assert Elems([x] + xs) == Elems(xs) + {x} by {
        forall y | y in Elems(xs) ensures y in Elems([x] + xs) {
          var k :| 0 <= k < |xs| && xs[k] == y;
          assert ([x] + xs)[k + 1] == y;
        }
        assert ([x] + xs)[0] == x;
      }
      [x] + xs
    else
      LessTotal(x, xs[0]);
      var tail := InsertSorted(xs[1..], x);
      assert xs[0] in Elems(xs);
      assert Elems(xs) == {xs[0]} + Elems(xs[1..]) by {
        forall y | y in Elems(xs) ensures y in {xs[0]} + Elems(xs[1..]) {
          var k :| 0 <= k < |xs| && xs[k] == y;
          if k > 0 { assert xs[1..][k - 1] == y; }
        }
      }
      assert forall y | y in Elems(tail) :: Less(xs[0], y) by {
        forall y | y in Elems(tail) ensures Less(xs[0], y) {
          if y != x {
            var k :| 0 <= k < |xs| - 1 && xs[1..][k] == y;
            assert xs[k + 1] == y;
          }
        }
      }
      assert StrictlySorted([xs[0]] + tail) by {
        forall i, j | 0 <= i < j < |tail| + 1 ensures Less(([xs[0]] + tail)[i], ([xs[0]] + tail)[j]) {
          if i == 0 { assert tail[j - 1] in Elems(tail); }
        }
      }
      ElemsConcat([xs[0]], tail);
      ElemsSingleton(xs[0]);
      [xs[0]] + tail
  }

  /** `sorted(set(xs))`: the sorted list of the distinct elements of `xs`. */
  function SortedSet(xs: seq<string>): (r: seq<string>)
    ensures StrictlySorted(r)
    ensures Elems(r) == Elems(xs)
  {
    if xs == [] then []
    else
      var r := InsertSorted(SortedSet(xs[..|xs| - 1]), xs[|xs| - 1]);
      assert Elems(xs) == Elems(xs[..|xs| - 1]) + {xs[|xs| - 1]} by {
        forall y | y in Elems(xs) ensures y in Elems(xs[..|xs| - 1]) + {xs[|xs| - 1]} {
          var k :| 0 <= k < |xs| && xs[k] == y;
          if k < |xs| - 1 { assert xs[..|xs| - 1][k] == y; }
        }
      }
      r
  }
}
