/** What it means for a backward rule to be the gradient of a forward rule,
    stated without limits: a step `h` at one input position changes the
    output, and the upstream gradient weighted by that change must equal the
    backward value at that position times `h`. Sums, means and products are
    linear in each single element, so this holds exactly for every `h`. */
module Gradients {
  import opened Indexing
  import opened Tensors
  import opened Products

  /** The input with `h` added to the element at flat position `q`. */
  function Bump(x: Tensor<real>, q: nat, h: real): (r: Tensor<real>)
    requires q < |x.data|
    ensures r.shape == x.shape && |r.data| == |x.data|
    ensures r.data[q] == x.data[q] + h
    ensures forall p :: 0 <= p < |x.data| && p != q ==> r.data[p] == x.data[p]
  {
    Tensor(x.shape, x.data[q := x.data[q] + h])
  }

  /** Element-wise difference of two sequences of one length. */
  function Delta(a: seq<real>, b: seq<real>): (r: seq<real>)
    requires |a| == |b|
    ensures |r| == |a| && forall j :: 0 <= j < |r| ==> r[j] == a[j] - b[j]
  {
    seq(|a|, j requires 0 <= j < |a| => a[j] - b[j])
  }

  /** The sequence of length `n` that is `v` at `p` and 0 elsewhere. */
  function Unit(n: nat, p: nat, v: real): (r: seq<real>)
    ensures |r| == n && forall j :: 0 <= j < n ==> r[j] == if j == p then v else 0.0
  {
    seq(n, j => if j == p then v else 0.0)
  }

  /** The weighted sum of `b` with weights `a`. */
  function Dot(a: seq<real>, b: seq<real>): real
    requires |a| == |b|
  {
    DotTo(a, b, |a|)
  }

  /** The weighted sum of the first `n` elements. */
  function DotTo(a: seq<real>, b: seq<real>, n: nat): real
    requires n <= |a| == |b|
  {
    if n == 0 then 0.0 else DotTo(a, b, n - 1) + a[n - 1] * b[n - 1]
  }

  /** Weighting a sequence that is `v` at `p` and 0 elsewhere picks out the
      weight at `p`, times `v`. */
  lemma {:induction false} DotUnitTo(a: seq<real>, p: nat, v: real, n: nat)
    requires p < |a| && n <= |a|
    ensures DotTo(a, Unit(|a|, p, v), n) == if p < n then a[p] * v else 0.0
  {
    if n > 0 {
      DotUnitTo(a, p, v, n - 1);
    }
  }

  lemma {:induction false} DotUnit(a: seq<real>, p: nat, v: real)
    requires p < |a|
    ensures Dot(a, Unit(|a|, p, v)) == Times(a[p], v)
  {
    DotUnitTo(a, p, v, |a|);
  }

  /** `grad` is the gradient at input position `q` of the change from `y` to
      `y'` that a step `h` at `q` causes: the change weighted by the upstream
      gradient `g` is `grad[q]` times `h`. */
  predicate GradientAt(g: seq<real>, y: seq<real>, y': seq<real>, grad: seq<real>, q: nat, h: real)
  {
    |y'| == |y| == |g| && q < |grad| && Dot(g, Delta(y', y)) == Times(grad[q], h)
  }

  /** A change that is `v` at `p` and 0 elsewhere has gradient `grad` at `q`
      when `grad[q]` times the step is `g[p]` times `v`. */
  lemma {:induction false} UnitChangeGradient(g: seq<real>, y: seq<real>, y': seq<real>, grad: seq<real>, q: nat, h: real, p: nat, v: real)
    requires |y'| == |y| == |g| && p < |g| && q < |grad|
    requires Delta(y', y) == Unit(|y|, p, v) && Times(grad[q], h) == Times(g[p], v)
    ensures GradientAt(g, y, y', grad, q, h)
  {
    DotUnit(g, p, v);
  }

  /** A change that is `h / n` at `p` and 0 elsewhere has gradient `grad` at
      `q` when `grad[q]` is `g[p] / n`. */
  lemma {:induction false} ScaledUnitChangeGradient(g: seq<real>, y: seq<real>, y': seq<real>, grad: seq<real>, q: nat, h: real, p: nat, n: real)
    requires |y'| == |y| == |g| && p < |g| && q < |grad| && n != 0.0
    requires Delta(y', y) == Unit(|y|, p, h / n) && grad[q] == g[p] / n
    ensures GradientAt(g, y, y', grad, q, h)
  {
    DotUnit(g, p, h / n);
  }

  /** Per axis, a step `h` at `q` that moves the reduction `f` of `q`'s lane
      by `c` moves that lane's output element by `c` and no other output
      element. */
  lemma {:induction false} AxisBump(x: Tensor<real>, d: nat, keepdim: bool, f: seq<real> -> real, q: nat, h: real, c: real)
    requires Valid(x) && d < |x.shape| && q < |x.data|
    requires LaneSlot(x.shape, d, q) < Outer(x.shape, d) * Inner(x.shape, d)
    requires LanePos(x.shape, d, q) < x.shape[d]
    requires
      var lane := LaneAt(x, d, LaneSlot(x.shape, d, q));
      f(lane[LanePos(x.shape, d, q) := x.data[q] + h]) == f(lane) + c
    ensures
      var y := ReduceAxis(x, d, keepdim, f);
      var y' := ReduceAxis(Bump(x, q, h), d, keepdim, f);
      |y'.data| == |y.data| && Delta(y'.data, y.data) == Unit(|y.data|, LaneSlot(x.shape, d, q), c)
  {
    var x' := Bump(x, q, h);
    assert x' == Tensor(x.shape, x.data[q := x.data[q] + h]);
    var y, y' := ReduceAxis(x, d, keepdim, f), ReduceAxis(x', d, keepdim, f);
    var dl, u := Delta(y'.data, y.data), Unit(|y.data|, LaneSlot(x.shape, d, q), c);
    forall p | 0 <= p < |y.data| ensures dl[p] == u[p] {
      LaneAtUpdate(x, d, q, x.data[q] + h, p);
    }
    assert dl == u;
  }
}
