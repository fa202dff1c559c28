/** Small things shared by the other modules. */
module Basics {
  /** Python's None, or a value. */
  datatype Option<+T> = None | Some(value: T)

  function Min(a: int, b: int): int {
    if a <= b then a else b
  }

  lemma SubsetIsNoLarger<T>(a: set<T>, b: set<T>)
    requires a <= b
    ensures |a| <= |b|
    ensures |a| == |b| ==> a == b
  {
    assert b == a + (b - a);
  }

  lemma ProperSubsetHasRoom<T>(a: set<T>, b: set<T>)
    requires a <= b && a != b
    ensures b - a != {} && |a| < |b|
  {
    assert b == a + (b - a);
  }

  lemma CeilingBound(k: nat, limit: nat, n: nat)
    requires limit > 0
    ensures n >= (k + limit - 1) / limit <==> n * limit >= k
  {
    var q := (k + limit - 1) / limit;
    assert q * limit <= k + limit - 1 < q * limit + limit;
    if n >= q {
      assert n * limit >= q * limit;
    } else {
      assert (n + 1) * limit <= q * limit;
    }
  }

  lemma FloorBound(k: nat, limit: nat, n: nat)
    requires limit > 0
    ensures n * limit > k <==> n > k / limit
  {
    var q := k / limit;
    assert q * limit <= k < q * limit + limit;
    if n > q {
      assert n * limit >= (q + 1) * limit;
    } else {
      assert n * limit <= q * limit;
    }
  }
}
