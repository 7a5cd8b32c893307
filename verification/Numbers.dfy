/** Instants, extremes and the few facts about products that several modules rest on. */
module Numbers {
  /** A point in time, in the unit of the module that uses it. */
  type Instant = int

  predicate Ascends(ts: seq<Instant>) {
    forall i, j :: 0 <= i < j < |ts| ==> ts[i] < ts[j]
  }

  function MinI(a: int, b: int): int { if a <= b then a else b }

  function MaxI(a: int, b: int): int { if a <= b then b else a }

  function MinR(a: real, b: real): real { if b < a then b else a }

  function MaxR(a: real, b: real): real { if a < b then b else a }

  function AbsR(x: real): real { if x < 0.0 then -x else x }

  lemma MulAtLeast(a: int, n: nat)
    ensures a >= 1 ==> a * n >= n
    ensures a <= -1 ==> a * n + n <= 0
    ensures a >= 0 ==> a * n >= 0
  {
    assert a >= 1 ==> (a - 1) * n >= 0;
    assert a <= -1 ==> (-a - 1) * n >= 0;
  }

  lemma Distributes(k: real, x: real, y: real)
    ensures k * (x + y) == k * x + k * y
  {
  }

  lemma ScaledSum(k: real, a: real, b: real, sum: real, ka: real, kb: real)
    requires ka == k * a && kb == k * b && sum == a + b
    ensures ka + kb == k * sum
  {
    Distributes(k, a, b);
  }

  lemma PositiveProduct(d: real, w: real)
    requires w > 0.0
    ensures d > 0.0 ==> d * w > 0.0
  {
  }

  lemma NotNegative(a: real, b: real)
    requires a >= 0.0 && b >= 0.0
    ensures a * b >= 0.0
  {
  }

  lemma ZeroProduct(a: real, b: real)
    ensures a * b == 0.0 <==> a == 0.0 || b == 0.0
  {
  }

  lemma SelfQuotient(c: real)
    requires c != 0.0
    ensures c / c == 1.0
  {
  }

  lemma OnceMore(r: nat, t: real)
    requires r > 0
    ensures (r - 1) as real * t + t == r as real * t
  {
    var k := (r - 1) as real;
    assert r as real == k + 1.0;
    assert (k + 1.0) * t == k * t + t;
  }

  lemma QuotientScales(a: real, b: real, k: real)
    requires b > 0.0 && k > 0.0
    ensures k * b > 0.0 && (k * a) / (k * b) == a / b
  {
    PositiveProduct(b, k);
    var q := a / b;
    assert q * b == a;
    assert q * (k * b) == k * (q * b);
  }
}
