/** Lexicographic order on byte strings, as `Buffer.compare` and string comparison of ASCII text give it. */
module ByteOrder {

  /** Negative, zero or positive. */
  function Compare(a: seq<int>, b: seq<int>): (order: int)
    ensures order == 0 <==> a == b
  {
    if a == [] then (if b == [] then 0 else -1)
    else if b == [] then 1
    else if a[0] != b[0] then (if a[0] < b[0] then -1 else 1)
    else
      assert a == b <==> a[1..] == b[1..] by { assert a == [a[0]] + a[1..] && b == [b[0]] + b[1..]; }
      Compare(a[1..], b[1..])
  }

  /** `a` and `b` agree up to `k`, and there `a` ends first or has the smaller byte. */
  predicate BelowAt(a: seq<int>, b: seq<int>, k: nat) {
    k <= |a| && k < |b| && a[..k] == b[..k] && (k == |a| || a[k] < b[k])
  }

  /** Negative means below at the first difference. */
  lemma {:induction false} CompareFindsFirstDifference(a: seq<int>, b: seq<int>)
    ensures Compare(a, b) < 0 <==> exists k: nat :: BelowAt(a, b, k)
  {
    if a == [] {
      if b != [] {
        assert BelowAt(a, b, 0);
      }
    } else if b != [] && a[0] == b[0] {
      CompareFindsFirstDifference(a[1..], b[1..]);
      if k: nat :| BelowAt(a[1..], b[1..], k) {
        assert a[..k + 1] == [a[0]] + a[1..][..k] && b[..k + 1] == [b[0]] + b[1..][..k];
        assert BelowAt(a, b, k + 1);
      }
      if k: nat :| BelowAt(a, b, k) {
        assert k > 0;
        assert a[1..][..k - 1] == a[..k][1..] && b[1..][..k - 1] == b[..k][1..];
        assert BelowAt(a[1..], b[1..], k - 1);
      }
    } else if b != [] {
      if a[0] < b[0] {
        assert BelowAt(a, b, 0);
      } else if k: nat :| BelowAt(a, b, k) {
        assert k > 0 && a[..k][0] == b[..k][0];
      }
    }
  }

  lemma CompareHeads(x: int, a: seq<int>, y: int, b: seq<int>)
    ensures Compare([x] + a, [y] + b) == if x < y then -1 else if x > y then 1 else Compare(a, b)
  {
    assert ([x] + a)[1..] == a && ([y] + b)[1..] == b;
  }

  lemma {:induction false} CompareEnds(a: seq<int>, x: int, b: seq<int>, y: int)
    requires |a| == |b|
    ensures Compare(a + [x], b + [y]) == if a != b then Compare(a, b) else if x < y then -1 else if x > y then 1 else 0
  {
    if a == [] {
      assert a + [x] == [x] + [] && b + [y] == [y] + [];
      CompareHeads(x, [], y, []);
    } else {
      CompareEnds(a[1..], x, b[1..], y);
      assert a == [a[0]] + a[1..] && b == [b[0]] + b[1..];
      assert a + [x] == [a[0]] + (a[1..] + [x]) && b + [y] == [b[0]] + (b[1..] + [y]);
      CompareHeads(a[0], a[1..] + [x], b[0], b[1..] + [y]);
    }
  }

  lemma {:induction false} CompareFlips(a: seq<int>, b: seq<int>)
    ensures Compare(b, a) == -Compare(a, b)
  {
    if a != [] && b != [] && a[0] == b[0] {
      CompareFlips(a[1..], b[1..]);
    }
  }

  lemma {:induction false} CompareTransitive(a: seq<int>, b: seq<int>, c: seq<int>)
    requires Compare(a, b) < 0 && Compare(b, c) < 0
    ensures Compare(a, c) < 0
  {
    if a != [] && a[0] == b[0] && b[0] == c[0] {
      CompareTransitive(a[1..], b[1..], c[1..]);
    }
  }

  ghost predicate Asymmetric<T(!new)>(less: (T, T) -> bool) {
    forall x, y :: less(x, y) ==> !less(y, x)
  }

  predicate StrictlySorted<T>(less: (T, T) -> bool, items: seq<T>) {
    forall i, j | 0 <= i < j < |items| :: less(items[i], items[j])
  }

  function Elements<T>(items: seq<T>): set<T> {
    set item | item in items
  }

  /** Whatever the order, a set has at most one strictly sorted listing. */
  lemma {:induction false} SortedListingUnique<T(!new)>(less: (T, T) -> bool, a: seq<T>, b: seq<T>)
    requires Asymmetric(less) && StrictlySorted(less, a) && StrictlySorted(less, b)
    requires Elements(a) == Elements(b)
    ensures a == b
    decreases |a|
  {
    if a == [] {
      EmptyListing(b);
    } else {
      assert a[0] in Elements(b);
      assert b[0] in Elements(a);
      var i :| 0 <= i < |b| && b[i] == a[0];
      var j :| 0 <= j < |a| && a[j] == b[0];
      assert a[0] == b[0];
      ElementsOfTail(less, a);
      ElementsOfTail(less, b);
      SortedListingUnique(less, a[1..], b[1..]);
      assert a == [a[0]] + a[1..] && b == [b[0]] + b[1..];
    }
  }

  lemma EmptyListing<T>(items: seq<T>)
    ensures Elements(items) == {} ==> items == []
  {
    if items != [] {
      assert items[0] in Elements(items);
    }
  }

  lemma ElementsOfTail<T(!new)>(less: (T, T) -> bool, a: seq<T>)
    requires Asymmetric(less) && StrictlySorted(less, a) && a != []
    ensures Elements(a[1..]) == Elements(a) - {a[0]}
  {
    forall item ensures item in Elements(a[1..]) <==> item in Elements(a) && item != a[0] {
      if item in a && item != a[0] {
        var i :| 0 <= i < |a| && a[i] == item;
        assert a[1..][i - 1] == item;
      }
    }
  }
}
