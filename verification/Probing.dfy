/**
  Triangular probing over a power-of-two table, as every khash loop does it with
  `i = (i + (++step)) & mask`.  The step counter adds up to the triangular numbers, so the t-th
  bucket looked at from hash `h` is `(h + Tri(t)) % n`.
 */
module Probing {

  function Pow2(m: nat): (r: nat)
    ensures r >= 1
  {
    if m == 0 then 1 else 2 * Pow2(m - 1)
  }

  function Tri(t: nat): nat {
    if t == 0 then 0 else Tri(t - 1) + t
  }

  /** The bucket inspected after `t` increments of `step`. */
  function Probe(h: nat, t: nat, n: nat): (i: nat)
    requires n > 0
    ensures i < n
  {
    (h + Tri(t)) % n
  }

  /** One loop iteration moves from the t-th bucket to the next one. */
  lemma ProbeStep(h: nat, t: nat, n: nat)
    requires n > 0
    ensures Probe(h, t + 1, n) == (Probe(h, t, n) + t + 1) % n
  {
    var a := h + Tri(t);
    assert a == n * (a / n) + a % n;
    ModShift(a % n + t + 1, a / n, n);
    assert h + Tri(t + 1) == a % n + t + 1 + (a / n) * n;
  }

  lemma ModShift(x: nat, q: nat, n: nat)
    requires n > 0
    ensures (x + q * n) % n == x % n
  {
    if q > 0 {
      ModShift(x, q - 1, n);
      AddModulus(x + (q - 1) * n, n);
      assert x + q * n == x + (q - 1) * n + n;
    }
  }

  lemma AddModulus(y: nat, n: nat)
    requires n > 0
    ensures (y + n) % n == y % n
  {
    assert (y / n + 1) * n == (y / n) * n + n;
    ModUnique(y + n, y / n + 1, y % n, n);
  }

  lemma ModUnique(x: nat, q: int, r: nat, n: nat)
    requires n > 0 && r < n
    requires x == q * n + r
    ensures x % n == r
  {
    var d: int := x / n - q;
    assert n * d == n * (x / n) - n * q;
    SmallMultiple(n, d);
  }

  lemma SmallMultiple(n: nat, d: int)
    requires n * d < n && 0 < n * d + n
    ensures d == 0
  {
    MultipleOutside(n, d);
  }

  lemma MultipleOutside(n: nat, d: int)
    ensures d >= 1 ==> n * d >= n
    ensures d <= -1 ==> n * d + n <= 0
  {
    if d >= 1 {
      assert n * d == n + n * (d - 1);
    } else if d <= -1 {
      assert n * d + n == n * (d + 1);
    }
  }

  lemma TwiceTri(t: nat)
    ensures 2 * Tri(t) == t * (t + 1)
  {
  }

  /** An odd factor can be cancelled from a multiple of a power of two. */
  lemma {:induction false} OddCancel(a: nat, b: nat, k: nat, q: nat) returns (c: nat)
    requires a % 2 == 1
    requires a * b == Pow2(k) * q
    ensures b == Pow2(k) * c
  {
    if k == 0 {
      c := b;
    } else {
      DoubleProduct(Pow2(k - 1), q);
      OddFactor(a, b);
      HalfProduct(a, b / 2, Pow2(k - 1) * q);
      c := OddCancel(a, b / 2, k - 1, q);
      DoubleProduct(Pow2(k - 1), c);
    }
  }

  lemma HalfProduct(a: nat, b: nat, x: nat)
    requires a * (2 * b) == 2 * x
    ensures a * b == x
  {
    assert a * (2 * b) == 2 * (a * b);
  }

  lemma OddFactor(a: nat, b: nat)
    requires a % 2 == 1
    ensures (a * b) % 2 == b % 2
  {
    var x := a / 2;
    assert a * b == 2 * (x * b) + b;
  }

  lemma PositiveMultiple(p: nat, c: nat)
    requires p * c > 0
    ensures p * c >= p
  {
    MultipleOutside(p, c);
  }

  lemma FactorNotNegative(n: nat, q: int)
    requires n > 0 && n * q >= 0
    ensures q >= 0
  {
  }

  lemma EqualModDiffer(a: nat, b: nat, n: nat) returns (q: nat)
    requires n > 0 && a <= b && a % n == b % n
    ensures b - a == n * q
  {
    var d: int := b / n - a / n;
    assert b - a == n * (b / n) - n * (a / n) == n * d;
    FactorNotNegative(n, d);
    q := d;
  }

  /** Two probes of one sequence can meet only when they are far apart. */
  lemma EqualProbes(h: nat, s: nat, t: nat, m: nat)
    requires s < t
    requires Probe(h, s, Pow2(m)) == Probe(h, t, Pow2(m))
    ensures t - s >= 2 * Pow2(m) || t + s + 1 >= 2 * Pow2(m)
  {
    var n := Pow2(m);
    TriMono(s, t);
    var q := EqualModDiffer(h + Tri(s), h + Tri(t), n);
    TriDifference(s, t);
    DoubleProduct(n, q);
    PowerFactor(t - s, t + s + 1, m + 1, q);
  }

  /** When a product of an odd and an even number is a multiple of 2^k, one factor is. */
  lemma PowerFactor(a: nat, b: nat, k: nat, q: nat)
    requires a > 0 && b > 0 && (a + b) % 2 == 1
    requires a * b == Pow2(k) * q
    ensures a >= Pow2(k) || b >= Pow2(k)
  {
    if a % 2 == 1 {
      var c := OddCancel(a, b, k, q);
      PositiveMultiple(Pow2(k), c);
    } else {
      assert b * a == a * b;
      var c := OddCancel(b, a, k, q);
      PositiveMultiple(Pow2(k), c);
    }
  }

  lemma DoubleProduct(n: nat, q: nat)
    ensures 2 * (n * q) == (2 * n) * q
  {
  }

  lemma TriDifference(s: nat, t: nat)
    requires s <= t
    ensures 2 * (Tri(t) - Tri(s)) == (t - s) * (t + s + 1)
  {
    TwiceTri(s);
    TwiceTri(t);
  }

  lemma TriMono(s: nat, t: nat)
    requires s <= t
    ensures Tri(s) <= Tri(t)
  {
  }

  /** No bucket is inspected twice in the first `n` probes. */
  lemma ProbesDistinct(h: nat, s: nat, t: nat, m: nat)
    requires s < t < Pow2(m)
    ensures Probe(h, s, Pow2(m)) != Probe(h, t, Pow2(m))
  {
    if Probe(h, s, Pow2(m)) == Probe(h, t, Pow2(m)) {
      EqualProbes(h, s, t, m);
    }
  }

  /** The probe sequence is back at its first bucket for the first time after 2n - 1 steps. */
  lemma FirstReturn(h: nat, t: nat, m: nat)
    requires 0 < t <= 2 * Pow2(m) - 1
    ensures Probe(h, t, Pow2(m)) == Probe(h, 0, Pow2(m)) <==> t == 2 * Pow2(m) - 1
  {
    var n := Pow2(m);
    if t == 2 * n - 1 {
      TwiceTri(t);
      assert 2 * Tri(t) == 2 * (t * n);
      ModShift(h, t, n);
    } else if Probe(h, 0, n) == Probe(h, t, n) {
      EqualProbes(h, 0, t, m);
    }
  }

  /** The buckets inspected by the first `k` probes. */
  ghost function Visited(h: nat, k: nat, n: nat): (v: set<nat>)
    requires n > 0
  {
    set s | 0 <= s < k :: Probe(h, s, n)
  }

  lemma {:induction false} VisitedSize(h: nat, k: nat, m: nat)
    requires k <= Pow2(m)
    ensures |Visited(h, k, Pow2(m))| == k
  {
    var n := Pow2(m);
    if k > 0 {
      VisitedSize(h, k - 1, m);
      forall s | 0 <= s < k - 1
        ensures Probe(h, s, n) != Probe(h, k - 1, n)
      {
        ProbesDistinct(h, s, k - 1, m);
      }
      assert Visited(h, k, n) == Visited(h, k - 1, n) + {Probe(h, k - 1, n)};
    }
  }

  ghost function Below(n: nat): (b: set<nat>)
    ensures |b| == n
    ensures forall x :: x in b <==> 0 <= x < n
  {
    if n == 0 then {} else Below(n - 1) + {n - 1}
  }

  lemma SubsetOfSameSize(a: set<nat>, b: set<nat>)
    requires a <= b && |a| == |b|
    ensures a == b
  {
    if a != b {
      var x :| x in b && x !in a;
      assert a <= b - {x};
      SubsetSize(a, b - {x});
    }
  }

  lemma {:induction false} SubsetSize(a: set<nat>, b: set<nat>)
    requires a <= b
    ensures |a| <= |b|
    decreases a
  {
    if a != {} {
      var x :| x in a;
      SubsetSize(a - {x}, b - {x});
    }
  }

  /** Every bucket is among the first `n` probes, whatever the hash. */
  lemma ProbeReaches(h: nat, x: nat, m: nat) returns (t: nat)
    requires x < Pow2(m)
    ensures t < Pow2(m) && Probe(h, t, Pow2(m)) == x
  {
    var n := Pow2(m);
    VisitedSize(h, n, m);
    SubsetOfSameSize(Visited(h, n, n), Below(n));
    assert x in Visited(h, n, n);
    t :| 0 <= t < n && Probe(h, t, n) == x;
  }
}
