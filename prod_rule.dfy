/** The `Prod` reduction and its backward rule.

    The forward pass multiplies all elements (no `dim`) or the elements of
    every lane of one axis. The backward pass must hand every input element
    the product of the other elements of its lane, times the upstream
    gradient. It picks one of three formulas by the number of zeros in the
    input: with none, the quotient rule (the output divided by the element);
    without `dim` and with two or more, zero everywhere; otherwise the
    zero-safe construction from exclusive cumulative products. The lemmas
    show that every branch computes the same thing, the product of the
    others, and that this is the gradient of the forward pass. */
module ProdRule {
  import opened Wrappers
  import opened Indexing
  import opened Tensors
  import opened Gradients
  import opened Products

  /** What `Prod.forward` records: the arguments, the input's shape, the
      input itself, and the output (without `dim`, the one-element tensor
      holding the product the backward pass reads back). */
  datatype ProdCtx = ProdCtx(dim: Option<int>, keepdim: bool, inputSize: seq<nat>, input: Tensor<real>, output: Tensor<real>)

  /** `Prod.forward`: the product of all elements as a one-element tensor, or
      the product of every lane of axis `dim`; a `dim` outside the tensor's
      axes is an error. */
  function ProdForward(x: Tensor<real>, dim: Option<int>, keepdim: bool): (r: Result<(Tensor<real>, ProdCtx)>)
    requires Valid(x)
    ensures r.Ok? <==> dim.None? || DimInRange(dim.value, |x.shape|)
    ensures r.Ok? ==> Valid(r.value.0) && r.value.1 == ProdCtx(dim, keepdim, x.shape, x, r.value.0)
    ensures r.Ok? && dim.None? ==> r.value.0.data == [Prod(x.data)]
    ensures r.Ok? && dim.Some? ==>
      var d := WrapDim(dim.value, |x.shape|);
      r.value.0.shape == ReducedShape(x.shape, d, keepdim) &&
      |r.value.0.data| == Outer(x.shape, d) * Inner(x.shape, d) &&
      forall p :: 0 <= p < |r.value.0.data| ==> r.value.0.data[p] == Prod(LaneAt(x, d, p))
  {
    match dim
    case None =>
      var y := Scalar(Prod(x.data));
      Ok((y, ProdCtx(dim, keepdim, x.shape, x, y)))
    case Some(dm) =>
      if !DimInRange(dm, |x.shape|) then Err("dimension out of range")
      else
        var y := ReduceAxis(x, WrapDim(dm, |x.shape|), keepdim, Prod);
        Ok((y, ProdCtx(dim, keepdim, x.shape, x, y)))
  }

  /** A context as `ProdForward` records it, with an upstream gradient shaped
      like the forward output. */
  predicate GradFits(ctx: ProdCtx, g: Tensor<real>)
  {
    && Valid(ctx.input) && ctx.inputSize == ctx.input.shape
    && Valid(g) && g.shape == ctx.output.shape
    && match ctx.dim
       case None => ctx.output == Scalar(Prod(ctx.input.data))
       case Some(dm) =>
         DimInRange(dm, |ctx.inputSize|) &&
         ctx.output == ReduceAxis(ctx.input, WrapDim(dm, |ctx.inputSize|), ctx.keepdim, Prod)
  }

  // ---------------------------------------------------------------------------
  // Backward

  /** The exclusive cumulative product of a lane: from the front, or from
      the back. */
  function ExclusiveOf(lane: seq<real>, fromFront: bool): (r: seq<real>)
    ensures |r| == |lane|
  {
    if fromFront then ExclusiveNormal(lane) else ExclusiveReverse(lane)
  }

  /** The exclusive cumulative product of each lane of `lanes`. */
  function ExclusiveLanes(lanes: seq<seq<real>>, fromFront: bool): (r: seq<seq<real>>)
    ensures |r| == |lanes|
    ensures forall p :: 0 <= p < |r| ==> r[p] == ExclusiveOf(lanes[p], fromFront)
  {
    seq(|lanes|, p requires 0 <= p < |lanes| => ExclusiveOf(lanes[p], fromFront))
  }

  /** The first `m` elements, in flat order, of the tensor of shape `s` whose
      lanes along axis `d` are `lanes`. */
  function Unlane(s: seq<nat>, d: nat, lanes: seq<seq<real>>, m: nat): (r: seq<real>)
    requires d < |s| && m <= Numel(s) && |lanes| == Outer(s, d) * Inner(s, d)
    requires forall p :: 0 <= p < |lanes| ==> |lanes[p]| == s[d]
    ensures |r| == m
  {
    if m == 0 then []
    else
      LaneOfPosition(s, d, m - 1);
      Unlane(s, d, lanes, m - 1) + [lanes[LaneSlot(s, d, m - 1)][LanePos(s, d, m - 1)]]
  }

  lemma {:induction false} UnlaneAt(s: seq<nat>, d: nat, lanes: seq<seq<real>>, m: nat, q: nat)
    requires d < |s| && q < m <= Numel(s) && |lanes| == Outer(s, d) * Inner(s, d)
    requires forall p :: 0 <= p < |lanes| ==> |lanes[p]| == s[d]
    ensures LaneSlot(s, d, q) < |lanes| && LanePos(s, d, q) < s[d]
    ensures Unlane(s, d, lanes, m)[q] == lanes[LaneSlot(s, d, q)][LanePos(s, d, q)]
    decreases m
  {
    LaneOfPosition(s, d, q);
    if q < m - 1 {
      UnlaneAt(s, d, lanes, m - 1, q);
    }
  }

  /** The exclusive cumulative products of every lane along axis `d`, laid
      back out in the input's order. */
  function ExclusiveAlong(inp: Tensor<real>, d: nat, fromFront: bool): (r: Tensor<real>)
    requires Valid(inp) && d < |inp.shape|
    ensures Valid(r) && r.shape == inp.shape
  {
    var count := Outer(inp.shape, d) * Inner(inp.shape, d);
    var lanes := ExclusiveLanes(Lanes(inp, d, count), fromFront);
    Tensor(inp.shape, Unlane(inp.shape, d, lanes, |inp.data|))
  }

  /** Element `q` of the exclusive products along `d` is the exclusive
      product of `q`'s lane at `q`'s position. */
  lemma {:induction false} ExclusiveAlongAt(inp: Tensor<real>, d: nat, fromFront: bool, q: nat)
    requires Valid(inp) && d < |inp.shape| && q < |inp.data|
    ensures LaneSlot(inp.shape, d, q) < Outer(inp.shape, d) * Inner(inp.shape, d)
    ensures LanePos(inp.shape, d, q) < inp.shape[d]
    ensures ExclusiveAlong(inp, d, fromFront).data[q]
         == ExclusiveOf(LaneAt(inp, d, LaneSlot(inp.shape, d, q)), fromFront)[LanePos(inp.shape, d, q)]
  {
    var s := inp.shape;
    var count := Outer(s, d) * Inner(s, d);
    var lanes := Lanes(inp, d, count);
    UnlaneAt(s, d, ExclusiveLanes(lanes, fromFront), |inp.data|, q);
    LanesAt(inp, d, count, LaneSlot(s, d, q));
  }

  /** At every position, the exclusive products from the front and from the
      back multiply to the product of the other elements of the lane. */
  lemma {:induction false} ExclusiveAlongProduct(inp: Tensor<real>, d: nat, q: nat)
    requires Valid(inp) && d < |inp.shape| && q < |inp.data|
    ensures LaneSlot(inp.shape, d, q) < Outer(inp.shape, d) * Inner(inp.shape, d)
    ensures LanePos(inp.shape, d, q) < inp.shape[d]
    ensures Times(ExclusiveAlong(inp, d, true).data[q], ExclusiveAlong(inp, d, false).data[q])
         == ProdExcept(LaneAt(inp, d, LaneSlot(inp.shape, d, q)), LanePos(inp.shape, d, q))
  {
    ExclusiveAlongAt(inp, d, true, q);
    ExclusiveAlongAt(inp, d, false, q);
    ExclusiveProductIsProdExcept(LaneAt(inp, d, LaneSlot(inp.shape, d, q)), LanePos(inp.shape, d, q));
  }

  /** `safe_zeros_backward(inp, d)` with the upstream gradient `g` already
      shaped like the input with size 1 along `d`: `g` itself when the axis
      has size 1, and otherwise `g` broadcast along the axis times the
      product of the two exclusive cumulative products. */
  function SafeZerosBackward(inp: Tensor<real>, d: nat, g: Tensor<real>): (r: Tensor<real>)
    requires Valid(inp) && d < |inp.shape|
    requires Valid(g) && g.shape == KeepShape(inp.shape, d)
    ensures Valid(r) && r.shape == inp.shape
  {
    var n := inp.shape[d];
    if n == 1 then
      assert g.shape == inp.shape;
      g
    else
      assert g.shape[d := n] == inp.shape;
      Mul(BroadcastAxis(g, d, n), Mul(ExclusiveAlong(inp, d, true), ExclusiveAlong(inp, d, false)))
  }

  /** `Prod.backward`: the input alone receives a gradient, of the input's
      shape. */
  function ProdBackward(ctx: ProdCtx, g: Tensor<real>): (r: seq<Option<Tensor<real>>>)
    requires GradFits(ctx, g)
    ensures |r| == 3 && r[0].Some? && r[1] == None && r[2] == None
    ensures Valid(r[0].value) && r[0].value.shape == ctx.inputSize
  {
    var x := ctx.input;
    match ctx.dim
    case None => [Some(ProdBackwardAll(x, ctx.output.data[0], g)), None, None]
    case Some(dm) =>
      var d := WrapDim(dm, |x.shape|);
      [Some(ProdBackwardAxis(x, d, ctx.keepdim, ctx.output, g)), None, None]
  }

  /** The backward pass without `dim`, from the input, the product `result`
      and the one-element upstream gradient: the quotient rule when no
      element is zero, zero when two or more are, and the zero-safe
      construction on the flattened input when exactly one is. */
  function ProdBackwardAll(x: Tensor<real>, result: real, g: Tensor<real>): (r: Tensor<real>)
    requires Valid(x) && Valid(g) && g.shape == [1]
    ensures Valid(r) && r.shape == x.shape
  {
    assert |g.data| == 1 by {
      assert [1][1..] == [];
    }
    var zeros := CountZeros(x.data);
    if zeros == 0 then
      NoZerosIff(x.data);
      Div(Full(x.shape, g.data[0] * result), x)
    else if zeros > 1 then
      Full(x.shape, g.data[0] * 0.0)
    else
      var flat := Flatten(x);
      View(SafeZerosBackward(flat, 0, g), x.shape)
  }

  /** The backward pass along axis `d`: put the reduced axis back on the
      gradient and the output when it was dropped, then use the quotient rule
      when the input holds no zero and the zero-safe construction otherwise. */
  function ProdBackwardAxis(x: Tensor<real>, d: nat, keepdim: bool, y: Tensor<real>, g: Tensor<real>): (r: Tensor<real>)
    requires Valid(x) && d < |x.shape|
    requires Valid(y) && y.shape == ReducedShape(x.shape, d, keepdim)
    requires Valid(g) && g.shape == ReducedShape(x.shape, d, keepdim)
    ensures Valid(r) && r.shape == x.shape
  {
    NumelReduced(x.shape, d, keepdim);
    var g1 := ReinsertAxis(g, x.shape, d, keepdim);
    var y1 := ReinsertAxis(y, x.shape, d, keepdim);
    if CountZeros(x.data) == 0 then
      NoZerosIff(x.data);
      QuotientAlong(x, d, g1, y1)
    else
      SafeZerosBackward(x, d, g1)
  }

  /** The quotient rule along axis `d`: the gradient times the output, both
      shaped like the input with size 1 along `d`, broadcast along the axis
      and divided by the input. */
  function QuotientAlong(x: Tensor<real>, d: nat, g1: Tensor<real>, y1: Tensor<real>): (r: Tensor<real>)
    requires Valid(x) && d < |x.shape| && forall p :: 0 <= p < |x.data| ==> x.data[p] != 0.0
    requires Valid(g1) && g1.shape == KeepShape(x.shape, d) && Valid(y1) && y1.shape == g1.shape
    ensures Valid(r) && r.shape == x.shape
  {
    KeepShapeRestore(x.shape, d);
    Div(BroadcastAxis(Mul(g1, y1), d, x.shape[d]), x)
  }

  // ---------------------------------------------------------------------------
  // Every branch hands an element the product of the others

  /** On an axis longer than 1, element `q` of the zero-safe construction is
      the broadcast gradient times the two exclusive products at `q`. */
  lemma {:induction false} SafeZerosFactors(inp: Tensor<real>, d: nat, g: Tensor<real>, q: nat)
    requires Valid(inp) && d < |inp.shape| && q < |inp.data| && inp.shape[d] != 1
    requires Valid(g) && g.shape == KeepShape(inp.shape, d)
    ensures g.shape[d := inp.shape[d]] == inp.shape
    ensures SafeZerosBackward(inp, d, g).data[q]
         == Times(BroadcastAxis(g, d, inp.shape[d]).data[q],
                  Times(ExclusiveAlong(inp, d, true).data[q], ExclusiveAlong(inp, d, false).data[q]))
  {
    var n := inp.shape[d];
    KeepShapeRestore(inp.shape, d);
    var b, e := BroadcastAxis(g, d, n), Mul(ExclusiveAlong(inp, d, true), ExclusiveAlong(inp, d, false));
    assert SafeZerosBackward(inp, d, g) == Mul(b, e);
    assert Mul(b, e).data[q] == Times(b.data[q], e.data[q]);
    assert e.data[q] == Times(ExclusiveAlong(inp, d, true).data[q], ExclusiveAlong(inp, d, false).data[q]);
  }

  /** The zero-safe construction hands input element `q` the chain rule for
      its lane: the upstream gradient of the lane times the product of the
      other elements of that lane. */
  lemma {:induction false} SafeZerosAt(inp: Tensor<real>, d: nat, g: Tensor<real>, q: nat)
    requires Valid(inp) && d < |inp.shape| && q < |inp.data|
    requires Valid(g) && g.shape == KeepShape(inp.shape, d)
    ensures LaneSlot(inp.shape, d, q) < |g.data|
    ensures LaneSlot(inp.shape, d, q) < Outer(inp.shape, d) * Inner(inp.shape, d)
    ensures LanePos(inp.shape, d, q) < inp.shape[d]
    ensures SafeZerosBackward(inp, d, g).data[q]
         == Partial(g.data[LaneSlot(inp.shape, d, q)], LaneAt(inp, d, LaneSlot(inp.shape, d, q)), LanePos(inp.shape, d, q))
  {
    var s, n := inp.shape, inp.shape[d];
    LaneAtOf(inp, d, q);
    KeepShapeRestore(s, d);
    BroadcastAxisAt(g, d, n, q);
    var slot, pos := LaneSlot(s, d, q), LanePos(s, d, q);
    var lane := LaneAt(inp, d, slot);
    if n == 1 {
      LaneOfUnitAxis(s, d, q);
      PartialOfSingle(g.data[slot], lane);
    } else {
      SafeZerosFactors(inp, d, g, q);
      ExclusiveAlongProduct(inp, d, q);
    }
  }

  /** The flattened tensor is one lane, numbered 0, on which element `q` sits
      at position `q`. */
  lemma {:induction false} FlatLane(x: Tensor<real>, q: nat)
    requires Valid(x) && q < |x.data|
    ensures
      var t := Flatten(x);
      && Outer(t.shape, 0) * Inner(t.shape, 0) == 1
      && LaneSlot(t.shape, 0, q) == 0 && LanePos(t.shape, 0, q) == q
      && LaneAt(t, 0, 0) == x.data
  {
    var t := Flatten(x);
    var n := |x.data|;
    assert t.shape[..0] == [] && t.shape[1..] == [];
    assert Outer(t.shape, 0) == 1 && Inner(t.shape, 0) == 1;
    var lane := LaneAt(t, 0, 0);
    assert lane == Lane(t, 0, 0, 0);
    forall k | 0 <= k < n ensures lane[k] == x.data[k] {
      LaneElem(t, 0, 0, 0, k);
      assert Off(n, 1, 0, k, 0) == k;
    }
    assert lane == x.data;
    FlatCoords(q, n);
  }

  /** On a one-axis tensor of size `n`, position `q` lies on lane 0 at
      position `q`. */
  lemma {:induction false} FlatCoords(q: nat, n: nat)
    requires q < n
    ensures LaneO(q, n, 1) == 0 && LaneK(q, n, 1) == q && LaneI(q, 1) == 0
  {
    assert q / 1 == q && q % 1 == 0;
    DivModOf(0, q, n);
  }

  /** Without `dim`, every branch hands element `q` the upstream gradient
      times the product of all the other elements. */
  lemma {:induction false} BackwardAllAt(x: Tensor<real>, g: Tensor<real>, q: nat)
    requires Valid(x) && Valid(g) && g.shape == [1] && q < |x.data|
    ensures |g.data| == 1 && q < |ProdBackwardAll(x, Prod(x.data), g).data|
    ensures ProdBackwardAll(x, Prod(x.data), g).data[q] == Partial(g.data[0], x.data, q)
  {
    assert [1][1..] == [];
    var zeros := CountZeros(x.data);
    if zeros == 0 {
      QuotientAllAt(x, g, q);
    } else if zeros > 1 {
      ManyZerosKillEveryPartial(x.data, q, g.data[0]);
    } else {
      OneZeroAllAt(x, g, q);
    }
  }

  /** Without `dim` and with exactly one zero, the zero-safe construction on
      the flattened input hands element `q` the upstream gradient times the
      product of the others. */
  lemma {:induction false} OneZeroAllAt(x: Tensor<real>, g: Tensor<real>, q: nat)
    requires Valid(x) && Valid(g) && g.shape == [1] && q < |x.data| && CountZeros(x.data) == 1
    ensures |g.data| == 1 && q < |ProdBackwardAll(x, Prod(x.data), g).data|
    ensures ProdBackwardAll(x, Prod(x.data), g).data[q] == Partial(g.data[0], x.data, q)
  {
    assert [1][1..] == [];
    var t := Flatten(x);
    assert ProdBackwardAll(x, Prod(x.data), g) == View(SafeZerosBackward(t, 0, g), x.shape);
    SafeZerosFlatAt(t, g, q);
  }

  /** On a one-axis tensor the zero-safe construction hands element `q` the
      one upstream value times the product of the other elements. */
  lemma {:induction false} SafeZerosFlatAt(t: Tensor<real>, g: Tensor<real>, q: nat)
    requires Valid(t) && t.shape == [|t.data|] && q < |t.data| && Valid(g) && g.shape == [1]
    ensures g.shape == KeepShape(t.shape, 0) && |g.data| == 1
    ensures SafeZerosBackward(t, 0, g).data[q] == Partial(g.data[0], t.data, q)
  {
    assert [1][1..] == [];
    assert Flatten(t) == t;
    FlatLane(t, q);
    SafeZerosAt(t, 0, g, q);
  }

  /** Without `dim` and with no zero, the quotient rule hands element `q` the
      upstream gradient times the product divided by the element. */
  lemma {:induction false} QuotientAllAt(x: Tensor<real>, g: Tensor<real>, q: nat)
    requires Valid(x) && Valid(g) && g.shape == [1] && q < |x.data| && CountZeros(x.data) == 0
    ensures |g.data| == 1 && q < |ProdBackwardAll(x, Prod(x.data), g).data|
    ensures ProdBackwardAll(x, Prod(x.data), g).data[q] == Partial(g.data[0], x.data, q)
  {
    assert [1][1..] == [];
    NoZerosIff(x.data);
    assert ProdBackwardAll(x, Prod(x.data), g).data[q] == Over(Times(g.data[0], Prod(x.data)), x.data[q]);
    ClosedFormIsProdExcept(x.data, q, g.data[0]);
  }

  /** Along axis `d`, every branch hands element `q` the upstream gradient of
      its lane times the product of the other elements of that lane. */
  lemma {:induction false} BackwardAxisAt(x: Tensor<real>, d: nat, keepdim: bool, g: Tensor<real>, q: nat)
    requires Valid(x) && d < |x.shape| && q < |x.data|
    requires Valid(g) && g.shape == ReducedShape(x.shape, d, keepdim)
    ensures LaneSlot(x.shape, d, q) < |g.data|
    ensures LaneSlot(x.shape, d, q) < Outer(x.shape, d) * Inner(x.shape, d)
    ensures LanePos(x.shape, d, q) < x.shape[d]
    ensures q < |ProdBackwardAxis(x, d, keepdim, ReduceAxis(x, d, keepdim, Prod), g).data|
    ensures ProdBackwardAxis(x, d, keepdim, ReduceAxis(x, d, keepdim, Prod), g).data[q]
         == Partial(g.data[LaneSlot(x.shape, d, q)], LaneAt(x, d, LaneSlot(x.shape, d, q)), LanePos(x.shape, d, q))
  {
    NumelReduced(x.shape, d, keepdim);
    var g1 := ReinsertAxis(g, x.shape, d, keepdim);
    LaneAtOf(x, d, q);
    if CountZeros(x.data) == 0 {
      NoZerosIff(x.data);
      QuotientAxisAt(x, d, keepdim, g, q);
    } else {
      SafeZerosAt(x, d, g1, q);
    }
  }

  /** Element `q` of the quotient rule is the gradient times the output of
      `q`'s lane, divided by the element. */
  lemma {:induction false} QuotientAlongAt(x: Tensor<real>, d: nat, g1: Tensor<real>, y1: Tensor<real>, q: nat)
    requires Valid(x) && d < |x.shape| && forall p :: 0 <= p < |x.data| ==> x.data[p] != 0.0
    requires Valid(g1) && g1.shape == KeepShape(x.shape, d) && Valid(y1) && y1.shape == g1.shape
    requires q < |x.data|
    ensures LaneSlot(x.shape, d, q) < |g1.data| && x.data[q] != 0.0
    ensures QuotientAlong(x, d, g1, y1).data[q]
         == Over(Times(g1.data[LaneSlot(x.shape, d, q)], y1.data[LaneSlot(x.shape, d, q)]), x.data[q])
  {
    var n := x.shape[d];
    KeepShapeRestore(x.shape, d);
    var m := Mul(g1, y1);
    BroadcastAxisAt(m, d, n, q);
  }

  /** Along axis `d` with no zero in the input, the quotient rule hands
      element `q` the upstream gradient of its lane times the lane's product
      divided by the element, which is the product of the others. */
  lemma {:induction false} QuotientAxisAt(x: Tensor<real>, d: nat, keepdim: bool, g: Tensor<real>, q: nat)
    requires Valid(x) && d < |x.shape| && q < |x.data|
    requires Valid(g) && g.shape == ReducedShape(x.shape, d, keepdim)
    requires forall p :: 0 <= p < |x.data| ==> x.data[p] != 0.0
    ensures LaneSlot(x.shape, d, q) < |g.data|
    ensures LaneSlot(x.shape, d, q) < Outer(x.shape, d) * Inner(x.shape, d)
    ensures LanePos(x.shape, d, q) < x.shape[d]
    ensures
      var y := ReduceAxis(x, d, keepdim, Prod);
      var g1, y1 := ReinsertAxis(g, x.shape, d, keepdim), ReinsertAxis(y, x.shape, d, keepdim);
      && Valid(g1) && Valid(y1)
      && QuotientAlong(x, d, g1, y1).data[q]
        == Partial(g.data[LaneSlot(x.shape, d, q)], LaneAt(x, d, LaneSlot(x.shape, d, q)), LanePos(x.shape, d, q))
  {
    var s := x.shape;
    NumelReduced(s, d, keepdim);
    var y := ReduceAxis(x, d, keepdim, Prod);
    var g1, y1 := ReinsertAxis(g, s, d, keepdim), ReinsertAxis(y, s, d, keepdim);
    QuotientAlongAt(x, d, g1, y1, q);
    LaneAtOf(x, d, q);
    var slot, pos := LaneSlot(s, d, q), LanePos(s, d, q);
    var lane := LaneAt(x, d, slot);
    ClosedFormIsProdExcept(lane, pos, g.data[slot]);
  }

  /** With no zero in the input, the quotient rule and the zero-safe
      construction on the flattened input agree at every position. */
  lemma {:induction false} ClosedFormIsSafeForm(x: Tensor<real>, g: Tensor<real>, q: nat)
    requires Valid(x) && Valid(g) && g.shape == [1] && q < |x.data| && CountZeros(x.data) == 0
    ensures |g.data| == 1 && forall p :: 0 <= p < |x.data| ==> x.data[p] != 0.0
    ensures Div(Full(x.shape, g.data[0] * Prod(x.data)), x).data[q]
         == SafeZerosBackward(Flatten(x), 0, g).data[q]
  {
    assert [1][1..] == [];
    NoZerosIff(x.data);
    ClosedFormIsProdExcept(x.data, q, g.data[0]);
    SafeZerosFlatAt(Flatten(x), g, q);
  }

  /** Along an axis, with no zero in the input, the quotient rule and the
      zero-safe construction agree at every position. */
  lemma {:induction false} QuotientIsSafeForm(x: Tensor<real>, d: nat, keepdim: bool, g: Tensor<real>, q: nat)
    requires Valid(x) && d < |x.shape| && q < |x.data|
    requires Valid(g) && g.shape == ReducedShape(x.shape, d, keepdim)
    requires CountZeros(x.data) == 0
    ensures forall p :: 0 <= p < |x.data| ==> x.data[p] != 0.0
    ensures
      var y := ReduceAxis(x, d, keepdim, Prod);
      var g1, y1 := ReinsertAxis(g, x.shape, d, keepdim), ReinsertAxis(y, x.shape, d, keepdim);
      && Valid(g1) && Valid(y1)
      && QuotientAlong(x, d, g1, y1).data[q] == SafeZerosBackward(x, d, g1).data[q]
  {
    NoZerosIff(x.data);
    NumelReduced(x.shape, d, keepdim);
    QuotientAxisAt(x, d, keepdim, g, q);
    SafeZerosAt(x, d, ReinsertAxis(g, x.shape, d, keepdim), q);
  }

  /** Without `dim` and with exactly one zero, at position `z`, only that
      element receives a gradient: the upstream gradient times the product of
      the others, which is not zero. */
  lemma {:induction false} OneZeroGradient(x: Tensor<real>, g: Tensor<real>, z: nat, q: nat)
    requires Valid(x) && Valid(g) && g.shape == [1] && q < |x.data|
    requires z < |x.data| && x.data[z] == 0.0 && CountZeros(x.data) == 1
    ensures |g.data| == 1 && q < |ProdBackwardAll(x, Prod(x.data), g).data|
    ensures q != z ==> ProdBackwardAll(x, Prod(x.data), g).data[q] == 0.0
    ensures q == z ==>
      && ProdExcept(x.data, z) != 0.0
      && ProdBackwardAll(x, Prod(x.data), g).data[q] == Times(g.data[0], ProdExcept(x.data, z))
  {
    OneZeroAllAt(x, g, q);
    OneZeroPartials(x.data, z, q);
  }

  /** Without `dim` and with two or more zeros, every element receives a zero
      gradient, and so does every element's chain rule. */
  lemma {:induction false} ManyZerosGradient(x: Tensor<real>, g: Tensor<real>, q: nat)
    requires Valid(x) && Valid(g) && g.shape == [1] && q < |x.data| && CountZeros(x.data) > 1
    ensures |g.data| == 1 && q < |ProdBackwardAll(x, Prod(x.data), g).data|
    ensures ProdBackwardAll(x, Prod(x.data), g).data[q] == 0.0 == Partial(g.data[0], x.data, q)
  {
    assert [1][1..] == [];
    ManyZerosKillEveryPartial(x.data, q, g.data[0]);
  }

  // ---------------------------------------------------------------------------
  // The backward pass is the gradient of the forward pass

  /** Without `dim`, the backward value at `q` is the upstream gradient times
      the product of the others. */
  lemma {:induction false} ProdBackwardGlobalAt(x: Tensor<real>, keepdim: bool, g: Tensor<real>, q: nat)
    requires Valid(x) && q < |x.data| && Valid(g) && g.shape == [1]
    ensures ProdForward(x, None, keepdim).Ok? && GradFits(ProdForward(x, None, keepdim).value.1, g)
    ensures |g.data| == 1 && q < |ProdBackward(ProdForward(x, None, keepdim).value.1, g)[0].value.data|
    ensures ProdBackward(ProdForward(x, None, keepdim).value.1, g)[0].value.data[q] == Partial(g.data[0], x.data, q)
  {
    var ctx := ProdForward(x, None, keepdim).value.1;
    assert ctx.output.data[0] == Prod(x.data);
    BackwardAllAt(x, g, q);
  }

  /** Without `dim`, the backward value is the gradient of the product. */
  lemma {:induction false} ProdGlobalGradient(x: Tensor<real>, keepdim: bool, g: Tensor<real>, q: nat, h: real)
    requires Valid(x) && q < |x.data| && Valid(g) && g.shape == [1]
    ensures ProdForward(x, None, keepdim).Ok? && ProdForward(Bump(x, q, h), None, keepdim).Ok?
    ensures GradFits(ProdForward(x, None, keepdim).value.1, g)
    ensures GradientAt(g.data, ProdForward(x, None, keepdim).value.0.data, ProdForward(Bump(x, q, h), None, keepdim).value.0.data,
                       ProdBackward(ProdForward(x, None, keepdim).value.1, g)[0].value.data, q, h)
  {
    var y, y' := ProdForward(x, None, keepdim).value.0.data, ProdForward(Bump(x, q, h), None, keepdim).value.0.data;
    var grad := ProdBackward(ProdForward(x, None, keepdim).value.1, g)[0].value.data;
    ProdBackwardGlobalAt(x, keepdim, g, q);
    ProdBump(x.data, q, h);
    assert Bump(x, q, h).data == x.data[q := x.data[q] + h];
    var v := Times(h, ProdExcept(x.data, q));
    assert Delta(y', y)[0] == Unit(1, 0, v)[0];
    PartialStep(g.data[0], x.data, q, h);
    UnitChangeGradient(g.data, y, y', grad, q, h, 0, v);
  }

  /** Per axis, a step `h` at `q` moves the product of `q`'s lane by `h`
      times the product of the others, and leaves the other lanes'
      products. */
  lemma {:induction false} ProdAxisDelta(x: Tensor<real>, d: nat, keepdim: bool, q: nat, h: real)
    requires Valid(x) && d < |x.shape| && q < |x.data|
    ensures LaneSlot(x.shape, d, q) < Outer(x.shape, d) * Inner(x.shape, d)
    ensures LanePos(x.shape, d, q) < x.shape[d]
    ensures
      var y := ReduceAxis(x, d, keepdim, Prod);
      var y' := ReduceAxis(Bump(x, q, h), d, keepdim, Prod);
      var slot := LaneSlot(x.shape, d, q);
      |y'.data| == |y.data| &&
      Delta(y'.data, y.data) == Unit(|y.data|, slot, Times(h, ProdExcept(LaneAt(x, d, slot), LanePos(x.shape, d, q))))
  {
    LaneAtOf(x, d, q);
    var slot, pos := LaneSlot(x.shape, d, q), LanePos(x.shape, d, q);
    var lane := LaneAt(x, d, slot);
    ProdBump(lane, pos, h);
    AxisBump(x, d, keepdim, Prod, q, h, Times(h, ProdExcept(lane, pos)));
  }

  /** Per axis, handing every input element the chain rule for its lane is
      the gradient of the lane products. */
  lemma {:induction false} ProdAxisGradient(x: Tensor<real>, d: nat, keepdim: bool, g: Tensor<real>, grad: seq<real>, q: nat, h: real)
    requires Valid(x) && d < |x.shape| && q < |x.data|
    requires Valid(g) && g.shape == ReducedShape(x.shape, d, keepdim)
    requires LaneSlot(x.shape, d, q) < |g.data| && LaneSlot(x.shape, d, q) < Outer(x.shape, d) * Inner(x.shape, d)
    requires LanePos(x.shape, d, q) < x.shape[d] && q < |grad|
    requires grad[q] == Partial(g.data[LaneSlot(x.shape, d, q)], LaneAt(x, d, LaneSlot(x.shape, d, q)), LanePos(x.shape, d, q))
    ensures GradientAt(g.data, ReduceAxis(x, d, keepdim, Prod).data, ReduceAxis(Bump(x, q, h), d, keepdim, Prod).data,
                       grad, q, h)
  {
    NumelReduced(x.shape, d, keepdim);
    ProdAxisDelta(x, d, keepdim, q, h);
    var slot, pos := LaneSlot(x.shape, d, q), LanePos(x.shape, d, q);
    var lane := LaneAt(x, d, slot);
    PartialStep(g.data[slot], lane, pos, h);
    UnitChangeGradient(g.data, ReduceAxis(x, d, keepdim, Prod).data, ReduceAxis(Bump(x, q, h), d, keepdim, Prod).data,
      grad, q, h, slot, Times(h, ProdExcept(lane, pos)));
  }

  /** Per axis, the forward pass is the lane products, and the backward pass
      hands element `q` the chain rule for its lane. */
  lemma {:induction false} ProdBackwardAxisAt(x: Tensor<real>, dm: int, keepdim: bool, g: Tensor<real>, q: nat)
    requires Valid(x) && DimInRange(dm, |x.shape|) && q < |x.data|
    requires Valid(g) && g.shape == ReducedShape(x.shape, WrapDim(dm, |x.shape|), keepdim)
    ensures ProdForward(x, Some(dm), keepdim).Ok?
    ensures ProdForward(x, Some(dm), keepdim).value.0 == ReduceAxis(x, WrapDim(dm, |x.shape|), keepdim, Prod)
    ensures GradFits(ProdForward(x, Some(dm), keepdim).value.1, g)
    ensures
      var d := WrapDim(dm, |x.shape|);
      && LaneSlot(x.shape, d, q) < |g.data| && LaneSlot(x.shape, d, q) < Outer(x.shape, d) * Inner(x.shape, d)
      && LanePos(x.shape, d, q) < x.shape[d]
      && q < |ProdBackward(ProdForward(x, Some(dm), keepdim).value.1, g)[0].value.data|
      && ProdBackward(ProdForward(x, Some(dm), keepdim).value.1, g)[0].value.data[q]
         == Partial(g.data[LaneSlot(x.shape, d, q)], LaneAt(x, d, LaneSlot(x.shape, d, q)), LanePos(x.shape, d, q))
  {
    BackwardAxisAt(x, WrapDim(dm, |x.shape|), keepdim, g, q);
  }

  /** `ProdBackward` is the gradient of `ProdForward`: for every input
      position `q` and step `h`, the upstream gradient weighted by the change
      of the output under a step `h` at `q` equals the backward value at `q`
      times `h`, whatever zeros the input holds. */
  lemma {:induction false} ProdBackwardIsGradient(x: Tensor<real>, dim: Option<int>, keepdim: bool, g: Tensor<real>, q: nat, h: real)
    requires Valid(x) && ProdForward(x, dim, keepdim).Ok?
    requires Valid(g) && g.shape == ProdForward(x, dim, keepdim).value.0.shape
    requires q < |x.data|
    ensures GradFits(ProdForward(x, dim, keepdim).value.1, g)
    ensures GradientAt(g.data, ProdForward(x, dim, keepdim).value.0.data, ProdForward(Bump(x, q, h), dim, keepdim).value.0.data,
                       ProdBackward(ProdForward(x, dim, keepdim).value.1, g)[0].value.data, q, h)
  {
    match dim
    case None =>
      ProdGlobalGradient(x, keepdim, g, q, h);
    case Some(dm) =>
      var x' := Bump(x, q, h);
      ProdBackwardAxisAt(x, dm, keepdim, g, q);
      assert ProdForward(x', dim, keepdim).value.0 == ReduceAxis(x', WrapDim(dm, |x.shape|), keepdim, Prod);
      ProdAxisGradient(x, WrapDim(dm, |x.shape|), keepdim, g,
        ProdBackward(ProdForward(x, dim, keepdim).value.1, g)[0].value.data, q, h);
  }
}
