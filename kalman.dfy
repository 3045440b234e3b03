/**
 * The constant-velocity Kalman filter of tracker.py (`_kalman_predict`,
 * `_kalman_update`), over real numbers.  The prediction is modelled exactly;
 * the correction (innovation, gain with a matrix inverse, posterior) is a
 * caller-supplied function.
 */
module Kalman {
  import opened Wrappers
  import opened Boxes

  /** The state vector `[x, y, vx, vy]`. */
  type Vec4 = s: seq<real> | |s| == 4 witness [0.0, 0.0, 0.0, 0.0]

  ghost predicate IsSquare4(m: seq<seq<real>>) {
    |m| == 4 && forall i :: 0 <= i < 4 ==> |m[i]| == 4
  }

  /** A 4x4 matrix, as a sequence of rows. */
  type Mat4 = m: seq<seq<real>> | IsSquare4(m) witness Scaled(0.0)

  /** `s` times the 4x4 identity. */
  function Scaled(s: real): (m: seq<seq<real>>)
    ensures IsSquare4(m)
  {
    [[s, 0.0, 0.0, 0.0], [0.0, s, 0.0, 0.0], [0.0, 0.0, s, 0.0], [0.0, 0.0, 0.0, s]]
  }

  /** The transition matrix F of the constant-velocity model, with a time step of one frame. */
  const F: Mat4 := [[1.0, 0.0, 1.0, 0.0], [0.0, 1.0, 0.0, 1.0], [0.0, 0.0, 1.0, 0.0], [0.0, 0.0, 0.0, 1.0]]

  /** The process-noise variance. */
  const Noise: real := 0.01

  /** Process noise Q = 0.01 I. */
  const Q: Mat4 := Scaled(Noise)

  /** The covariance a new track starts with: 10 I. */
  const InitialCov: Mat4 := Scaled(10.0)

  function Dot(u: seq<real>, v: seq<real>): real
    requires |u| == 4 && |v| == 4
  {
    u[0] * v[0] + u[1] * v[1] + u[2] * v[2] + u[3] * v[3]
  }

  function Column(m: Mat4, j: int): (c: seq<real>)
    requires 0 <= j < 4
    ensures |c| == 4
  {
    [m[0][j], m[1][j], m[2][j], m[3][j]]
  }

  function Apply(m: Mat4, v: Vec4): Vec4
  {
    seq(4, i requires 0 <= i < 4 => Dot(m[i], v))
  }

  function Mul(a: Mat4, b: Mat4): Mat4
  {
    seq(4, i requires 0 <= i < 4 => seq(4, j requires 0 <= j < 4 => Dot(a[i], Column(b, j))))
  }

  function Transpose(m: Mat4): Mat4
  {
    seq(4, i requires 0 <= i < 4 => Column(m, i))
  }

  function Add(a: Mat4, b: Mat4): Mat4
  {
    seq(4, i requires 0 <= i < 4 => seq(4, j requires 0 <= j < 4 => a[i][j] + b[i][j]))
  }

  /** Mean and covariance of one track's filter. */
  datatype Filter = Filter(mean: Vec4, cov: Mat4)

  /**
   * The correction step: from the predicted filter and a measured centre to
   * the posterior filter.
   */
  type Correction = (Filter, Point) -> Filter

  /** A new track's filter: position at the measured centre, zero velocity. */
  function InitialFilter(c: Point): Filter
  {
    Filter([c.x, c.y, 0.0, 0.0], InitialCov)
  }

  /** `F v`: the position moves by the velocity, the velocity stays. */
  function Drift(v: seq<real>): (r: Vec4)
    requires |v| == 4
  {
    [v[0] + v[2], v[1] + v[3], v[2], v[3]]
  }

  /** `v` with `q` added to its `i`-th entry. */
  function Bump(v: Vec4, i: int, q: real): Vec4
    requires 0 <= i < 4
  {
    v[i := v[i] + q]
  }

  /** `u + v`, entry by entry. */
  function Combine(u: seq<real>, v: seq<real>): (r: Vec4)
    requires |u| == 4 && |v| == 4
  {
    [u[0] + v[0], u[1] + v[1], u[2] + v[2], u[3] + v[3]]
  }

  /** The predict step of `_kalman_predict`: mean F x, covariance F P F^T + Q. */
  function Predict(f: Filter): Filter
  {
    Filter(Apply(F, f.mean), Add(Mul(Mul(F, f.cov), Transpose(F)), Q))
  }

  /**
   * The predict step written out for the constant-velocity F: the rows of
   * F P, each multiplied by F^T, plus the noise on the diagonal.
   */
  function PredictWrittenOut(f: Filter): Filter
  {
    var p := f.cov;
    var fp := [Combine(p[0], p[2]), Combine(p[1], p[3]), p[2], p[3]];
    Filter(Drift(f.mean),
           [Bump(Drift(fp[0]), 0, Noise), Bump(Drift(fp[1]), 1, Noise),
            Bump(Drift(fp[2]), 2, Noise), Bump(Drift(fp[3]), 3, Noise)])
  }

  /** `F P`, row by row. */
  lemma {:induction false} LeftProduct(p: Mat4)
    ensures Mul(F, p) == [Combine(p[0], p[2]), Combine(p[1], p[3]), p[2], p[3]]
  {
    var fp := Mul(F, p);
    var rows := [Combine(p[0], p[2]), Combine(p[1], p[3]), p[2], p[3]];
    forall i | 0 <= i < 4 ensures fp[i] == rows[i] {
      forall j | 0 <= j < 4 ensures fp[i][j] == rows[i][j] {
        assert fp[i][j] == Dot(F[i], Column(p, j));
      }
    }
  }

  /** `A F^T`, row by row. */
  lemma {:induction false} RightProduct(a: Mat4)
    ensures Mul(a, Transpose(F)) == [Drift(a[0]), Drift(a[1]), Drift(a[2]), Drift(a[3])]
  {
    var aft := Mul(a, Transpose(F));
    var rows := [Drift(a[0]), Drift(a[1]), Drift(a[2]), Drift(a[3])];
    forall i | 0 <= i < 4 ensures aft[i] == rows[i] {
      forall j | 0 <= j < 4 ensures aft[i][j] == rows[i][j] {
        assert aft[i][j] == Dot(a[i], Column(Transpose(F), j));
      }
    }
  }

  /** The matrix products come to the written-out predict step. */
  lemma {:induction false} PredictIsWrittenOut(f: Filter)
    ensures Predict(f) == PredictWrittenOut(f)
  {
    var p := f.cov;
    LeftProduct(p);
    var fp := Mul(F, p);
    RightProduct(fp);
    var m := Apply(F, f.mean);
    forall i | 0 <= i < 4 ensures m[i] == Drift(f.mean)[i] {
      assert m[i] == Dot(F[i], f.mean);
    }
    var c := Predict(f).cov;
    var d := PredictWrittenOut(f).cov;
    forall i | 0 <= i < 4 ensures c[i] == d[i] {
      assert forall j :: 0 <= j < 4 ==> c[i][j] == d[i][j];
    }
  }

  /** With a unit time step, F moves the position by the velocity and keeps the velocity. */
  lemma {:induction false} PredictMean(f: Filter)
    ensures Predict(f).mean == [f.mean[0] + f.mean[2], f.mean[1] + f.mean[3], f.mean[2], f.mean[3]]
  {
    PredictIsWrittenOut(f);
  }

  /** `n` predict steps in a row, without any correction. */
  function PredictTimes(f: Filter, n: nat): Filter
  {
    if n == 0 then f else Predict(PredictTimes(f, n - 1))
  }

  /** A coasting track moves on a straight line at constant velocity. */
  lemma {:induction false} PredictTimesMean(f: Filter, n: nat)
    ensures PredictTimes(f, n).mean
         == [f.mean[0] + n as real * f.mean[2], f.mean[1] + n as real * f.mean[3], f.mean[2], f.mean[3]]
  {
    PredictTimesDrift(f, n);
    DriftTimesLine(f.mean, n);
  }

  /** `n` applications of `Drift`. */
  function DriftTimes(v: Vec4, n: nat): Vec4
  {
    if n == 0 then v else Drift(DriftTimes(v, n - 1))
  }

  /** Only the mean matters for the predicted mean. */
  lemma {:induction false} PredictTimesDrift(f: Filter, n: nat)
    ensures PredictTimes(f, n).mean == DriftTimes(f.mean, n)
  {
    if n > 0 {
      PredictTimesDrift(f, n - 1);
      PredictMean(PredictTimes(f, n - 1));
    }
  }

  lemma {:induction false} DriftTimesLine(v: Vec4, n: nat)
    ensures DriftTimes(v, n) == [v[0] + n as real * v[2], v[1] + n as real * v[3], v[2], v[3]]
  {
    if n > 0 {
      var k := (n - 1) as real;
      DriftTimesLine(v, n - 1);
      var w := DriftTimes(v, n - 1);
      assert w == [v[0] + k * v[2], v[1] + k * v[3], v[2], v[3]];
      assert DriftTimes(v, n) == [w[0] + w[2], w[1] + w[3], w[2], w[3]];
      OneMoreStep(v[0], v[2], k, n as real);
      OneMoreStep(v[1], v[3], k, n as real);
    }
  }

  /** One more frame of straight-line motion. */
  lemma {:induction false} OneMoreStep(x: real, v: real, k: real, n: real)
    requires n == k + 1.0
    ensures (x + k * v) + v == x + n * v
  {
  }

  ghost predicate Symmetric(m: Mat4) {
    forall i, j :: 0 <= i < 4 && 0 <= j < 4 ==> m[i][j] == m[j][i]
  }

  /** The predicted covariance of a symmetric covariance is symmetric. */
  lemma {:induction false} PredictKeepsSymmetric(f: Filter)
    requires Symmetric(f.cov)
    ensures Symmetric(Predict(f).cov)
  {
    PredictIsWrittenOut(f);
    var p := f.cov;
    assert p[0][2] == p[2][0] && p[1][3] == p[3][1] && p[0][1] == p[1][0] && p[2][3] == p[3][2];
    assert p[0][3] == p[3][0] && p[1][2] == p[2][1];
  }

  /** `int(r)` on a float: truncation toward zero. */
  function Trunc(r: real): (t: int)
    ensures r >= 0.0 ==> 0 <= t && t as real <= r < t as real + 1.0
    ensures r < 0.0 ==> t <= 0 && t as real - 1.0 < r <= t as real
  {
    if r >= 0.0 then r.Floor else -((-r).Floor)
  }

  /** `max(0, min(hi, v))`. */
  function Clamp(v: int, hi: int): int
  {
    Max(0, Min(hi, v))
  }

  /**
   * The predicted box: the last box's size, centred (with truncation) on the
   * predicted centre, pushed back inside the frame.
   */
  function PredictedBox(c: Point, last: Box, frameWidth: int, frameHeight: int): (r: Box)
    ensures r.w == last.w && r.h == last.h
    ensures r.x >= 0 && r.y >= 0
    ensures last.w <= frameWidth ==> r.x <= frameWidth - last.w
    ensures last.h <= frameHeight ==> r.y <= frameHeight - last.h
    ensures var px := Trunc(c.x - last.w as real / 2.0);
      0 <= px <= frameWidth - last.w ==> r.x == px
    ensures var py := Trunc(c.y - last.h as real / 2.0);
      0 <= py <= frameHeight - last.h ==> r.y == py
  {
    var px := Trunc(c.x - last.w as real / 2.0);
    var py := Trunc(c.y - last.h as real / 2.0);
    Box(Clamp(px, frameWidth - last.w), Clamp(py, frameHeight - last.h), last.w, last.h)
  }
}
