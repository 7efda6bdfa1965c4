/** Real-valued vectors and the linear interpolation used for mass, colour
    and opacity. Numbers are mathematical reals, not IEEE doubles. */
module Vectors {

  type Vec = seq<real>

  function Min(a: real, b: real): real { if a <= b then a else b }
  function Max(a: real, b: real): real { if a <= b then b else a }

  /** x lies between the two bounds, whichever of them is the smaller one
      (a uniform sample drawn from `lo` to `hi` satisfies this). */
  predicate Between(x: real, lo: real, hi: real) {
    Min(lo, hi) <= x <= Max(lo, hi)
  }

  /** Component-wise sum, as numpy's `+` on two arrays of one shape. */
  function Add(a: Vec, b: Vec): (r: Vec)
    requires |a| == |b|
    ensures |r| == |a|
  {
    seq(|a|, i requires 0 <= i < |a| => a[i] + b[i])
  }

  /** Every component multiplied by `k`, as numpy's `v * k`. */
  function Scale(a: Vec, k: real): (r: Vec)
    ensures |r| == |a|
  {
    seq(|a|, i requires 0 <= i < |a| => a[i] * k)
  }

  /** Every component divided by `k`, as numpy's `v / k`. */
  function Divide(a: Vec, k: real): (r: Vec)
    requires k != 0.0
    ensures |r| == |a|
  {
    seq(|a|, i requires 0 <= i < |a| => a[i] / k)
  }

  /** `(1 - t) * a + t * b`: starts at `a` for t = 0, reaches `b` at t = 1 and
      stays between the two for every t in [0, 1]. */
  function Lerp(a: real, b: real, t: real): (r: real)
    ensures t == 0.0 ==> r == a
    ensures t == 1.0 ==> r == b
    ensures 0.0 <= t <= 1.0 ==> Between(r, a, b)
  {
    LerpBetween(a, b, t);
    (1.0 - t) * a + t * b
  }

  lemma LerpBetween(a: real, b: real, t: real)
    ensures 0.0 <= t <= 1.0 ==> Between((1.0 - t) * a + t * b, a, b)
  {
    if 0.0 <= t <= 1.0 {
      Regroup(a, b, t);
      FractionOf(t, b - a);
      StepBetween(a, b, t * (b - a));
    }
  }

  /** A step from a towards b that does not overshoot b ends between them. */
  lemma StepBetween(a: real, b: real, f: real)
    requires a <= b ==> 0.0 <= f <= b - a
    requires b <= a ==> b - a <= f <= 0.0
    ensures Between(a + f, a, b)
  {
  }

  /** (1 - t) * a + t * b is a plus the fraction t of the way from a to b. */
  lemma Regroup(a: real, b: real, t: real)
    ensures (1.0 - t) * a + t * b == a + t * (b - a)
  {
    assert (1.0 - t) * a == a - t * a;
    assert t * (b - a) == t * b - t * a;
  }

  /** A fraction t in [0, 1] of d lies between 0 and d. */
  lemma FractionOf(t: real, d: real)
    requires 0.0 <= t <= 1.0
    ensures 0.0 <= d ==> 0.0 <= t * d <= d
    ensures d <= 0.0 ==> d <= t * d <= 0.0
  {
    assert d - t * d == (1.0 - t) * d;
    if 0.0 <= d {
      MulNonneg(t, d);
      MulNonneg(1.0 - t, d);
    } else {
      MulNonneg(t, -d);
      MulNonneg(1.0 - t, -d);
    }
  }

  lemma MulNonneg(x: real, y: real)
    requires 0.0 <= x && 0.0 <= y
    ensures 0.0 <= x * y
  {
  }

  /** Component-wise Lerp of two vectors of one length (the colour ramp). */
  function VLerp(a: Vec, b: Vec, t: real): (r: Vec)
    requires |a| == |b|
    ensures |r| == |a|
    ensures t == 0.0 ==> r == a
    ensures 0.0 <= t <= 1.0 ==> forall i :: 0 <= i < |r| ==> Between(r[i], a[i], b[i])
  {
    seq(|a|, i requires 0 <= i < |a| => Lerp(a[i], b[i], t))
  }

  /** Lerp(a, b, t) is non-decreasing in `t` when a <= b and non-increasing
      otherwise. For t1 <= t2 <= 1 the later value is therefore no further from
      `b`; past t = 1 it moves beyond `b` when a != b. */
  lemma LerpMonotone(a: real, b: real, t1: real, t2: real)
    requires t1 <= t2
    ensures a <= b ==> Lerp(a, b, t1) <= Lerp(a, b, t2)
    ensures b <= a ==> Lerp(a, b, t2) <= Lerp(a, b, t1)
  {
    assert Lerp(a, b, t2) - Lerp(a, b, t1) == (t2 - t1) * (b - a);
    if a <= b {
      MulNonneg(t2 - t1, b - a);
    } else {
      MulNonneg(t2 - t1, a - b);
    }
  }

  /** Sum of component `c` over a list of vectors. */
  function SumAt(fs: seq<Vec>, c: nat): real
    requires forall k :: 0 <= k < |fs| ==> c < |fs[k]|
  {
    if |fs| == 0 then 0.0 else SumAt(fs[..|fs| - 1], c) + fs[|fs| - 1][c]
  }

  /** Velocity after the force loop of one update: each force `f`, in list
      order, adds `(f / m) * dt`. */
  function ApplyForces(v: Vec, fs: seq<Vec>, m: real, dt: real): (r: Vec)
    requires m != 0.0
    requires forall k :: 0 <= k < |fs| ==> |fs[k]| == |v|
    ensures |r| == |v|
  {
    if |fs| == 0 then v
    else Add(ApplyForces(v, fs[..|fs| - 1], m, dt), Scale(Divide(fs[|fs| - 1], m), dt))
  }

  /** Applying the forces one after the other equals one step with the net
      force: component c gains the sum of the forces' components over m,
      times dt. */
  lemma {:induction false} ApplyForcesSum(v: Vec, fs: seq<Vec>, m: real, dt: real)
    requires m != 0.0
    requires forall k :: 0 <= k < |fs| ==> |fs[k]| == |v|
    ensures forall c :: 0 <= c < |v| ==>
              ApplyForces(v, fs, m, dt)[c] == v[c] + SumAt(fs, c) / m * dt
  {
    if |fs| > 0 {
      var init := fs[..|fs| - 1];
      var f := fs[|fs| - 1];
      ApplyForcesSum(v, init, m, dt);
      forall c | 0 <= c < |v|
        ensures ApplyForces(v, fs, m, dt)[c] == v[c] + SumAt(fs, c) / m * dt
      {
        assert ApplyForces(v, fs, m, dt)[c] == ApplyForces(v, init, m, dt)[c] + f[c] / m * dt;
        DivideSum(SumAt(init, c), f[c], m, dt);
      }
    }
  }

  lemma DivideSum(x: real, y: real, m: real, dt: real)
    requires m != 0.0
    ensures x / m * dt + y / m * dt == (x + y) / m * dt
  {
  }
}
