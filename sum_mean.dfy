/** The `Sum` and `Mean` reductions and their backward rules.

    Both reduce either the whole tensor (no `dim`) to a one-element tensor, or
    each lane of one axis to one element. Their backward rules hand every
    input element the gradient of the output element it contributed to (for
    `Mean`, divided by how many elements were averaged). The theorems at the
    end show that this is the gradient: for every input position `q`, the
    backward value at `q` times a step `h` equals the change of the forward
    output under a step `h` at `q`, weighted by the upstream gradient. */
module SumMean {
  import opened Wrappers
  import opened Indexing
  import opened Tensors
  import opened Gradients

  /** What a forward pass records for its backward pass. */
  datatype ReduceCtx = ReduceCtx(dim: Option<int>, keepdim: bool, inputSize: seq<nat>)

  /** The sum of a lane. */
  function SumOf(s: seq<real>): real
  {
    SumTo(s, |s|)
  }

  /** The sum of the first `n` elements. */
  function SumTo(s: seq<real>, n: nat): real
    requires n <= |s|
  {
    if n == 0 then 0.0 else SumTo(s, n - 1) + s[n - 1]
  }

  /** The mean of a lane; an empty lane (not a number in floating point) is
      given 0. */
  function MeanOf(s: seq<real>): real
  {
    if |s| == 0 then 0.0 else SumOf(s) / |s| as real
  }

  // ---------------------------------------------------------------------------
  // Forward

  /** `Sum.forward`: the sum of all elements as a one-element tensor, or the
      sum of every lane of axis `dim`; a `dim` outside the tensor's axes is an
      error. The context records the arguments and the input's shape. */
  function SumForward(x: Tensor<real>, dim: Option<int>, keepdim: bool): (r: Result<(Tensor<real>, ReduceCtx)>)
    requires Valid(x)
    ensures r.Ok? <==> dim.None? || DimInRange(dim.value, |x.shape|)
    ensures r.Ok? ==> Valid(r.value.0) && r.value.1 == ReduceCtx(dim, keepdim, x.shape)
    ensures r.Ok? && dim.None? ==> r.value.0.data == [SumOf(x.data)]
    ensures r.Ok? && dim.Some? ==>
      var d := WrapDim(dim.value, |x.shape|);
      r.value.0.shape == ReducedShape(x.shape, d, keepdim) &&
      |r.value.0.data| == Outer(x.shape, d) * Inner(x.shape, d) &&
      forall p :: 0 <= p < |r.value.0.data| ==> r.value.0.data[p] == SumOf(LaneAt(x, d, p))
  {
    var ctx := ReduceCtx(dim, keepdim, x.shape);
    match dim
    case None => Ok((Scalar(SumOf(x.data)), ctx))
    case Some(dm) =>
      if !DimInRange(dm, |x.shape|) then Err("dimension out of range")
      else Ok((ReduceAxis(x, WrapDim(dm, |x.shape|), keepdim, SumOf), ctx))
  }

  /** `Mean.forward`: as `SumForward`, with means in place of sums. */
  function MeanForward(x: Tensor<real>, dim: Option<int>, keepdim: bool): (r: Result<(Tensor<real>, ReduceCtx)>)
    requires Valid(x)
    ensures r.Ok? <==> dim.None? || DimInRange(dim.value, |x.shape|)
    ensures r.Ok? ==> Valid(r.value.0) && r.value.1 == ReduceCtx(dim, keepdim, x.shape)
    ensures r.Ok? && dim.None? ==> r.value.0.data == [MeanOf(x.data)]
    ensures r.Ok? && dim.Some? ==>
      var d := WrapDim(dim.value, |x.shape|);
      r.value.0.shape == ReducedShape(x.shape, d, keepdim) &&
      |r.value.0.data| == Outer(x.shape, d) * Inner(x.shape, d) &&
      forall p :: 0 <= p < |r.value.0.data| ==> r.value.0.data[p] == MeanOf(LaneAt(x, d, p))
  {
    var ctx := ReduceCtx(dim, keepdim, x.shape);
    match dim
    case None => Ok((Scalar(MeanOf(x.data)), ctx))
    case Some(dm) =>
      if !DimInRange(dm, |x.shape|) then Err("dimension out of range")
      else Ok((ReduceAxis(x, WrapDim(dm, |x.shape|), keepdim, MeanOf), ctx))
  }

  // ---------------------------------------------------------------------------
  // Backward

  /** An upstream gradient shaped like the output of the forward pass that
      recorded `ctx`. */
  predicate GradFits(ctx: ReduceCtx, g: Tensor<real>)
  {
    && Valid(g) && |ctx.inputSize| > 0
    && match ctx.dim
       case None => g.shape == [1] && |g.data| == 1
       case Some(dm) =>
         DimInRange(dm, |ctx.inputSize|) &&
         g.shape == ReducedShape(ctx.inputSize, WrapDim(dm, |ctx.inputSize|), ctx.keepdim)
  }

  /** The repeat counts: 1 on every axis, except the size of the input's axis
      `d` at `d`. */
  function Repeats(s: seq<nat>, d: nat): (r: seq<nat>)
    requires d < |s|
    ensures |r| == |s| && r[d] == s[d]
    ensures forall a :: 0 <= a < |s| && a != d ==> r[a] == 1
  {
    seq(|s|, _ => 1)[d := s[d]]
  }

  /** The per-axis step both backward rules share: put the reduced axis back
      when it was dropped, then repeat the gradient along it. The result has
      the input's shape, and every element of lane `(o, i)` holds the
      gradient of output element `(o, i)`. */
  function RepeatBack(s: seq<nat>, d: nat, keepdim: bool, g: Tensor<real>): (r: Tensor<real>)
    requires d < |s| && Valid(g) && g.shape == ReducedShape(s, d, keepdim)
    ensures Valid(r) && r.shape == s
    ensures forall o: nat, k: nat, i: nat :: o < Outer(s, d) && k < s[d] && i < Inner(s, d) ==>
      Off(s[d], Inner(s, d), o, k, i) < |r.data| && Slot(Inner(s, d), o, i) < |g.data| &&
      r.data[Off(s[d], Inner(s, d), o, k, i)] == g.data[Slot(Inner(s, d), o, i)]
  {
    NumelReduced(s, d, keepdim);
    var g1 := ReinsertAxis(g, s, d, keepdim);
    OuterInnerOfUpdate(s, d, 1);
    RepeatSingleAxis(g1, Repeats(s, d), d);
    TileUnitCoords(g1, d, s[d]);
    assert s[d := 1][d := s[d]] == s;
    Repeat(g1, Repeats(s, d))
  }

  /** `Sum.backward`: the input alone receives a gradient, of the input's
      shape. Without `dim` every element holds the one upstream value; per
      axis, every element of lane `(o, i)` holds upstream element `(o, i)`. */
  function SumBackward(ctx: ReduceCtx, g: Tensor<real>): (r: seq<Option<Tensor<real>>>)
    requires GradFits(ctx, g)
    ensures |r| == 3 && r[0].Some? && r[1] == None && r[2] == None
    ensures Valid(r[0].value) && r[0].value.shape == ctx.inputSize
    ensures ctx.dim.None? ==> forall q :: 0 <= q < |r[0].value.data| ==> r[0].value.data[q] == g.data[0]
    ensures ctx.dim.Some? ==>
      var s, d := ctx.inputSize, WrapDim(ctx.dim.value, |ctx.inputSize|);
      forall o: nat, k: nat, i: nat :: o < Outer(s, d) && k < s[d] && i < Inner(s, d) ==>
        Off(s[d], Inner(s, d), o, k, i) < |r[0].value.data| && Slot(Inner(s, d), o, i) < |g.data| &&
        r[0].value.data[Off(s[d], Inner(s, d), o, k, i)] == g.data[Slot(Inner(s, d), o, i)]
  {
    var s := ctx.inputSize;
    match ctx.dim
    case None => [Some(Full(s, g.data[0])), None, None]
    case Some(dm) => [Some(RepeatBack(s, WrapDim(dm, |s|), ctx.keepdim, g)), None, None]
  }

  /** `Mean.backward`: as `SumBackward`, divided by the number of elements
      averaged: all of them without `dim`, the axis' length per axis. */
  function MeanBackward(ctx: ReduceCtx, g: Tensor<real>): (r: seq<Option<Tensor<real>>>)
    requires GradFits(ctx, g)
    ensures |r| == 3 && r[0].Some? && r[1] == None && r[2] == None
    ensures Valid(r[0].value) && r[0].value.shape == ctx.inputSize
    ensures ctx.dim.None? ==> forall q :: 0 <= q < |r[0].value.data| ==>
      Numel(ctx.inputSize) > 0 && r[0].value.data[q] == g.data[0] / Numel(ctx.inputSize) as real
    ensures ctx.dim.Some? ==>
      var s, d := ctx.inputSize, WrapDim(ctx.dim.value, |ctx.inputSize|);
      forall o: nat, k: nat, i: nat :: o < Outer(s, d) && k < s[d] && i < Inner(s, d) ==>
        Off(s[d], Inner(s, d), o, k, i) < |r[0].value.data| && Slot(Inner(s, d), o, i) < |g.data| &&
        r[0].value.data[Off(s[d], Inner(s, d), o, k, i)] == g.data[Slot(Inner(s, d), o, i)] / s[d] as real
  {
    var s := ctx.inputSize;
    match ctx.dim
    case None =>
      var count := Numel(s);
      // With no elements the broadcast value is never stored.
      var v := if count == 0 then 0.0 else g.data[0] / count as real;
      [Some(Full(s, v)), None, None]
    case Some(dm) =>
      var d := WrapDim(dm, |s|);
      NumelSplit(s, d);
      [Some(DivScalar(RepeatBack(s, d, ctx.keepdim, g), s[d])), None, None]
  }

  // ---------------------------------------------------------------------------
  // The backward rules are the gradients of the forward rules

  /** Adding `h` to one element adds `h` to the sum of every prefix that
      holds it. */
  lemma {:induction false} SumToBump(s: seq<real>, k: nat, h: real, n: nat)
    requires k < |s| && n <= |s|
    ensures SumTo(s[k := s[k] + h], n) == SumTo(s, n) + if k < n then h else 0.0
  {
    if n > 0 {
      SumToBump(s, k, h, n - 1);
    }
  }

  /** Adding `h` to one element adds `h` to the sum. */
  lemma {:induction false} SumOfBump(s: seq<real>, k: nat, h: real)
    requires k < |s|
    ensures SumOf(s[k := s[k] + h]) == SumOf(s) + h
  {
    SumToBump(s, k, h, |s|);
  }

  /** Adding `h` to one element adds `h / |s|` to the mean. */
  lemma {:induction false} MeanOfBump(s: seq<real>, k: nat, h: real)
    requires k < |s|
    ensures MeanOf(s[k := s[k] + h]) == MeanOf(s) + h / |s| as real
  {
    SumOfBump(s, k, h);
    DivAdd(SumOf(s), h, |s| as real);
  }

  lemma {:induction false} DivAdd(a: real, h: real, n: real)
    requires n != 0.0
    ensures (a + h) / n == a / n + h / n
  {
  }

  /** Per axis, a step `h` at `q` moves the sum of `q`'s lane by `h` and
      leaves the other lanes' sums. */
  lemma {:induction false} SumAxisDelta(x: Tensor<real>, d: nat, keepdim: bool, q: nat, h: real)
    requires Valid(x) && d < |x.shape| && q < |x.data|
    ensures LaneSlot(x.shape, d, q) < Outer(x.shape, d) * Inner(x.shape, d)
    ensures
      var y := ReduceAxis(x, d, keepdim, SumOf);
      var y' := ReduceAxis(Bump(x, q, h), d, keepdim, SumOf);
      |y'.data| == |y.data| && Delta(y'.data, y.data) == Unit(|y.data|, LaneSlot(x.shape, d, q), h)
  {
    LaneAtOf(x, d, q);
    SumOfBump(LaneAt(x, d, LaneSlot(x.shape, d, q)), LanePos(x.shape, d, q), h);
    AxisBump(x, d, keepdim, SumOf, q, h, h);
  }

  /** Per axis, a step `h` at `q` moves the mean of `q`'s lane by `h` divided
      by the lane's length and leaves the other lanes' means. */
  lemma {:induction false} MeanAxisDelta(x: Tensor<real>, d: nat, keepdim: bool, q: nat, h: real)
    requires Valid(x) && d < |x.shape| && q < |x.data|
    ensures x.shape[d] > 0 && LaneSlot(x.shape, d, q) < Outer(x.shape, d) * Inner(x.shape, d)
    ensures
      var y := ReduceAxis(x, d, keepdim, MeanOf);
      var y' := ReduceAxis(Bump(x, q, h), d, keepdim, MeanOf);
      |y'.data| == |y.data| &&
      Delta(y'.data, y.data) == Unit(|y.data|, LaneSlot(x.shape, d, q), h / x.shape[d] as real)
  {
    LaneAtOf(x, d, q);
    MeanOfBump(LaneAt(x, d, LaneSlot(x.shape, d, q)), LanePos(x.shape, d, q), h);
    AxisBump(x, d, keepdim, MeanOf, q, h, h / x.shape[d] as real);
  }

  /** Per axis, the repeated gradient at `q` is the upstream gradient of
      `q`'s lane. */
  lemma {:induction false} RepeatBackAt(s: seq<nat>, d: nat, keepdim: bool, g: Tensor<real>, q: nat)
    requires d < |s| && Valid(g) && g.shape == ReducedShape(s, d, keepdim)
    requires q < Numel(s)
    ensures LaneSlot(s, d, q) < |g.data| && q < |RepeatBack(s, d, keepdim, g).data|
    ensures RepeatBack(s, d, keepdim, g).data[q] == g.data[LaneSlot(s, d, q)]
  {
    var r := RepeatBack(s, d, keepdim, g);
    assert |r.data| == Numel(s);
    NumelSplit(s, d);
    LaneRoundTrip(Outer(s, d), s[d], Inner(s, d), q);
  }

  /** Per axis, handing every input element the upstream gradient of its
      lane is the gradient of the lane sums. */
  lemma {:induction false} SumAxisGradient(x: Tensor<real>, d: nat, keepdim: bool, g: Tensor<real>, grad: seq<real>, q: nat, h: real)
    requires Valid(x) && d < |x.shape| && q < |x.data|
    requires Valid(g) && g.shape == ReducedShape(x.shape, d, keepdim)
    requires LaneSlot(x.shape, d, q) < |g.data| && q < |grad| && grad[q] == g.data[LaneSlot(x.shape, d, q)]
    ensures GradientAt(g.data, ReduceAxis(x, d, keepdim, SumOf).data, ReduceAxis(Bump(x, q, h), d, keepdim, SumOf).data,
                       grad, q, h)
  {
    NumelReduced(x.shape, d, keepdim);
    SumAxisDelta(x, d, keepdim, q, h);
    UnitChangeGradient(g.data, ReduceAxis(x, d, keepdim, SumOf).data, ReduceAxis(Bump(x, q, h), d, keepdim, SumOf).data,
      grad, q, h, LaneSlot(x.shape, d, q), h);
  }

  /** Per axis, handing every input element the upstream gradient of its
      lane divided by the axis' length is the gradient of the lane means. */
  lemma {:induction false} MeanAxisGradient(x: Tensor<real>, d: nat, keepdim: bool, g: Tensor<real>, grad: seq<real>, q: nat, h: real)
    requires Valid(x) && d < |x.shape| && q < |x.data|
    requires Valid(g) && g.shape == ReducedShape(x.shape, d, keepdim)
    requires LaneSlot(x.shape, d, q) < |g.data| && q < |grad| && x.shape[d] > 0
    requires grad[q] == g.data[LaneSlot(x.shape, d, q)] / x.shape[d] as real
    ensures GradientAt(g.data, ReduceAxis(x, d, keepdim, MeanOf).data, ReduceAxis(Bump(x, q, h), d, keepdim, MeanOf).data,
                       grad, q, h)
  {
    NumelReduced(x.shape, d, keepdim);
    MeanAxisDelta(x, d, keepdim, q, h);
    ScaledUnitChangeGradient(g.data, ReduceAxis(x, d, keepdim, MeanOf).data, ReduceAxis(Bump(x, q, h), d, keepdim, MeanOf).data,
      grad, q, h, LaneSlot(x.shape, d, q), x.shape[d] as real);
  }

  /** Without `dim`, broadcasting the one upstream value is the gradient of
      the sum. */
  lemma {:induction false} SumGlobalGradient(x: Tensor<real>, keepdim: bool, g: Tensor<real>, q: nat, h: real)
    requires Valid(x) && q < |x.data| && Valid(g) && g.shape == [1]
    ensures GradientAt(g.data, SumForward(x, None, keepdim).value.0.data, SumForward(Bump(x, q, h), None, keepdim).value.0.data,
                       SumBackward(ReduceCtx(None, keepdim, x.shape), g)[0].value.data, q, h)
  {
    SumOfBump(x.data, q, h);
    UnitChangeGradient(g.data, SumForward(x, None, keepdim).value.0.data, SumForward(Bump(x, q, h), None, keepdim).value.0.data,
      SumBackward(ReduceCtx(None, keepdim, x.shape), g)[0].value.data, q, h, 0, h);
  }

  /** Without `dim`, broadcasting the one upstream value divided by the
      element count is the gradient of the mean. */
  lemma {:induction false} MeanGlobalGradient(x: Tensor<real>, keepdim: bool, g: Tensor<real>, q: nat, h: real)
    requires Valid(x) && q < |x.data| && Valid(g) && g.shape == [1]
    ensures GradientAt(g.data, MeanForward(x, None, keepdim).value.0.data, MeanForward(Bump(x, q, h), None, keepdim).value.0.data,
                       MeanBackward(ReduceCtx(None, keepdim, x.shape), g)[0].value.data, q, h)
  {
    MeanOfBump(x.data, q, h);
    ScaledUnitChangeGradient(g.data, MeanForward(x, None, keepdim).value.0.data, MeanForward(Bump(x, q, h), None, keepdim).value.0.data,
      MeanBackward(ReduceCtx(None, keepdim, x.shape), g)[0].value.data, q, h, 0, |x.data| as real);
  }

  /** Per axis, the forward passes are the lane reductions. */
  lemma {:induction false} ForwardAxis(x: Tensor<real>, dm: int, keepdim: bool)
    requires Valid(x) && DimInRange(dm, |x.shape|)
    ensures SumForward(x, Some(dm), keepdim).Ok? && MeanForward(x, Some(dm), keepdim).Ok?
    ensures SumForward(x, Some(dm), keepdim).value.0 == ReduceAxis(x, WrapDim(dm, |x.shape|), keepdim, SumOf)
    ensures MeanForward(x, Some(dm), keepdim).value.0 == ReduceAxis(x, WrapDim(dm, |x.shape|), keepdim, MeanOf)
  {
  }

  /** Per axis, output element `(o, i)` of `Sum` is the sum, and of `Mean`
      the mean, of the input elements at row-major coordinates `(o, k, i)`
      for `k` running along the reduced axis. */
  lemma {:induction false} ForwardAxisAt(x: Tensor<real>, dm: int, keepdim: bool, o: nat, i: nat)
    requires Valid(x) && DimInRange(dm, |x.shape|)
    requires o < Outer(x.shape, WrapDim(dm, |x.shape|)) && i < Inner(x.shape, WrapDim(dm, |x.shape|))
    ensures
      var d := WrapDim(dm, |x.shape|);
      forall k :: 0 <= k < x.shape[d] ==> Off(x.shape[d], Inner(x.shape, d), o, k, i) < |x.data|
    ensures
      var d := WrapDim(dm, |x.shape|);
      var n, inner := x.shape[d], Inner(x.shape, d);
      var elems := seq(n, k requires 0 <= k < n => x.data[Off(n, inner, o, k, i)]);
      var sum, mean := SumForward(x, Some(dm), keepdim), MeanForward(x, Some(dm), keepdim);
      && sum.Ok? && mean.Ok?
      && Slot(inner, o, i) < |sum.value.0.data| && Slot(inner, o, i) < |mean.value.0.data|
      && sum.value.0.data[Slot(inner, o, i)] == SumOf(elems)
      && mean.value.0.data[Slot(inner, o, i)] == MeanOf(elems)
  {
    var d := WrapDim(dm, |x.shape|);
    var n, inner := x.shape[d], Inner(x.shape, d);
    forall k | 0 <= k < n ensures Off(n, inner, o, k, i) < |x.data| {
      LaneElem(x, d, o, i, k);
    }
    var elems := seq(n, k requires 0 <= k < n => x.data[Off(n, inner, o, k, i)]);
    ForwardAxis(x, dm, keepdim);
    LaneAtSlot(x, d, o, i);
    forall k | 0 <= k < n ensures Lane(x, d, o, i)[k] == elems[k] {
      LaneElem(x, d, o, i, k);
    }
    assert Lane(x, d, o, i) == elems;
  }

  /** Per axis, `SumBackward` hands input element `q` the upstream gradient
      of `q`'s lane. */
  lemma {:induction false} SumBackwardAxis(s: seq<nat>, dm: int, keepdim: bool, g: Tensor<real>, q: nat)
    requires Valid(g) && |s| > 0 && DimInRange(dm, |s|) && g.shape == ReducedShape(s, WrapDim(dm, |s|), keepdim)
    requires q < Numel(s)
    ensures GradFits(ReduceCtx(Some(dm), keepdim, s), g)
    ensures LaneSlot(s, WrapDim(dm, |s|), q) < |g.data| && q < |SumBackward(ReduceCtx(Some(dm), keepdim, s), g)[0].value.data|
    ensures SumBackward(ReduceCtx(Some(dm), keepdim, s), g)[0].value.data[q] == g.data[LaneSlot(s, WrapDim(dm, |s|), q)]
  {
    RepeatBackAt(s, WrapDim(dm, |s|), keepdim, g, q);
  }

  /** Per axis, `MeanBackward` hands input element `q` the upstream gradient
      of `q`'s lane divided by the axis' length. */
  lemma {:induction false} MeanBackwardAxis(s: seq<nat>, dm: int, keepdim: bool, g: Tensor<real>, q: nat)
    requires Valid(g) && |s| > 0 && DimInRange(dm, |s|) && g.shape == ReducedShape(s, WrapDim(dm, |s|), keepdim)
    requires q < Numel(s)
    ensures GradFits(ReduceCtx(Some(dm), keepdim, s), g)
    ensures s[WrapDim(dm, |s|)] > 0 && LaneSlot(s, WrapDim(dm, |s|), q) < |g.data|
    ensures q < |MeanBackward(ReduceCtx(Some(dm), keepdim, s), g)[0].value.data|
    ensures MeanBackward(ReduceCtx(Some(dm), keepdim, s), g)[0].value.data[q]
         == g.data[LaneSlot(s, WrapDim(dm, |s|), q)] / s[WrapDim(dm, |s|)] as real
  {
    var d := WrapDim(dm, |s|);
    NumelPositive(s, d);
    RepeatBackAt(s, d, keepdim, g, q);
  }

  /** `SumBackward` is the gradient of `SumForward`: for every input position
      `q` and step `h`, the upstream gradient weighted by the change of the
      output under a step `h` at `q` equals the backward value at `q` times
      `h`. */
  lemma {:induction false} SumBackwardIsGradient(x: Tensor<real>, dim: Option<int>, keepdim: bool, g: Tensor<real>, q: nat, h: real)
    requires Valid(x) && SumForward(x, dim, keepdim).Ok?
    requires Valid(g) && g.shape == SumForward(x, dim, keepdim).value.0.shape
    requires q < |x.data|
    ensures GradFits(SumForward(x, dim, keepdim).value.1, g)
    ensures GradientAt(g.data, SumForward(x, dim, keepdim).value.0.data, SumForward(Bump(x, q, h), dim, keepdim).value.0.data,
                       SumBackward(SumForward(x, dim, keepdim).value.1, g)[0].value.data, q, h)
  {
    match dim
    case None =>
      SumGlobalGradient(x, keepdim, g, q, h);
    case Some(dm) =>
      ForwardAxis(x, dm, keepdim);
      ForwardAxis(Bump(x, q, h), dm, keepdim);
      SumBackwardAxis(x.shape, dm, keepdim, g, q);
      SumAxisGradient(x, WrapDim(dm, |x.shape|), keepdim, g,
        SumBackward(ReduceCtx(dim, keepdim, x.shape), g)[0].value.data, q, h);
  }

  /** `MeanBackward` is the gradient of `MeanForward`, in the sense of
      `SumBackwardIsGradient`. */
  lemma {:induction false} MeanBackwardIsGradient(x: Tensor<real>, dim: Option<int>, keepdim: bool, g: Tensor<real>, q: nat, h: real)
    requires Valid(x) && MeanForward(x, dim, keepdim).Ok?
    requires Valid(g) && g.shape == MeanForward(x, dim, keepdim).value.0.shape
    requires q < |x.data|
    ensures GradFits(MeanForward(x, dim, keepdim).value.1, g)
    ensures GradientAt(g.data, MeanForward(x, dim, keepdim).value.0.data, MeanForward(Bump(x, q, h), dim, keepdim).value.0.data,
                       MeanBackward(MeanForward(x, dim, keepdim).value.1, g)[0].value.data, q, h)
  {
    match dim
    case None =>
      MeanGlobalGradient(x, keepdim, g, q, h);
    case Some(dm) =>
      ForwardAxis(x, dm, keepdim);
      ForwardAxis(Bump(x, q, h), dm, keepdim);
      MeanBackwardAxis(x.shape, dm, keepdim, g, q);
      MeanAxisGradient(x, WrapDim(dm, |x.shape|), keepdim, g,
        MeanBackward(ReduceCtx(dim, keepdim, x.shape), g)[0].value.data, q, h);
  }
}
