/** The selection reductions `Max`, `Min`, `Mode`, `Median` and `Kthvalue`
    and their shared backward rule.

    Each selects one element: of the whole tensor (only `Max` and `Min`, and
    only without `dim`), or of every lane of one axis. Reducing the whole
    tensor records the coordinates of the first element equal to the
    result; reducing an axis records, per lane, the position the selection
    kernel chose. The backward rule routes every upstream gradient to the
    element that was selected and gives every other element 0. The theorems
    at the end show that this is the gradient for every step that keeps the
    selection in place. */
module Selection {
  import opened Wrappers
  import opened Indexing
  import opened Tensors
  import opened Products
  import opened Gradients

  /** The five selection functions; `Kthvalue` carries its `k`. */
  datatype Variant = Max | Min | Mode | Median | Kthvalue(k: int)

  /** Only `Max` and `Min` can reduce the whole tensor to one element. */
  predicate HasAllReduce(v: Variant)
  {
    v.Max? || v.Min?
  }

  /** An argument of a call to the tensor's own selection kernel. */
  datatype Arg = IntArg(i: int) | BoolArg(b: bool)

  /** The arguments passed before `(dim, keepdim)`: `(k,)` for `Kthvalue`,
      none otherwise. */
  function AdditionalArgs(v: Variant): (r: seq<Arg>)
    ensures v.Kthvalue? ==> r == [IntArg(v.k)]
    ensures !v.Kthvalue? ==> r == []
  {
    if v.Kthvalue? then [IntArg(v.k)] else []
  }

  /** The full argument list of a per-axis kernel call. */
  function KernelArgs(v: Variant, dim: int, keepdim: bool): (r: seq<Arg>)
    ensures |r| == |AdditionalArgs(v)| + 2
    ensures r[..|r| - 2] == AdditionalArgs(v) && r[|r| - 2..] == [IntArg(dim), BoolArg(keepdim)]
  {
    AdditionalArgs(v) + [IntArg(dim), BoolArg(keepdim)]
  }

  /** A per-axis selection kernel: given its arguments and one lane, the
      position in the lane of the element it selects. */
  type Kernel = (seq<Arg>, seq<real>) -> nat

  /** A kernel selects a position inside every lane that has one. */
  ghost predicate PicksInLane(pick: Kernel)
  {
    forall args, lane: seq<real> :: |lane| > 0 ==> pick(args, lane) < |lane|
  }

  /** What a forward pass records for its backward pass: the coordinates of
      the selected element when the whole tensor was reduced, the selected
      positions otherwise. */
  datatype Saved = IndicesTuple(coords: seq<nat>) | Indices(indices: Tensor<nat>)

  datatype SelCtx = SelCtx(variant: Variant, dim: Option<int>, keepdim: bool,
                           additionalArgs: seq<Arg>, inputSize: seq<nat>, saved: Saved)

  /** The outputs of a forward pass: the one selected value, or the selected
      values and their positions along the axis. */
  datatype SelOutput = AllReduced(value: Tensor<real>) | PerAxis(values: Tensor<real>, indices: Tensor<nat>)

  /** Whether a call reduces the whole tensor. */
  predicate AllReduces(v: Variant, dim: Option<int>)
  {
    dim.None? && HasAllReduce(v)
  }

  /** The axis a per-axis call reduces: the last one when no `dim` is given. */
  function SelAxis(dim: Option<int>, rank: nat): (r: nat)
    requires rank > 0 && (dim.Some? ==> DimInRange(dim.value, rank))
    ensures r < rank
    ensures dim.None? ==> r == rank - 1
    ensures dim.Some? ==> r == WrapDim(dim.value, rank)
  {
    if dim.None? then rank - 1 else WrapDim(dim.value, rank)
  }

  /** The `dim` argument a per-axis kernel call receives. */
  function DimArg(dim: Option<int>, rank: nat): int
  {
    if dim.None? then rank - 1 else dim.value
  }

  // ---------------------------------------------------------------------------
  // The whole-tensor maximum and minimum

  /** `a` is strictly better than `b`: larger for `Max`, smaller for `Min`. */
  predicate Beats(v: Variant, a: real, b: real)
    requires HasAllReduce(v)
  {
    if v.Max? then a > b else a < b
  }

  /** `m` is an element of `s` that no element of `s` beats. */
  predicate IsExtreme(v: Variant, s: seq<real>, m: real)
    requires HasAllReduce(v)
  {
    (exists j :: 0 <= j < |s| && s[j] == m) && forall j :: 0 <= j < |s| ==> !Beats(v, s[j], m)
  }

  /** The maximum (`Max`) or minimum (`Min`) of the first `n` elements. */
  function ExtremeTo(v: Variant, s: seq<real>, n: nat): (r: real)
    requires HasAllReduce(v) && 0 < n <= |s|
    ensures IsExtreme(v, s[..n], r)
  {
    if n == 1 then
      assert s[..n][0] == s[0];
      s[0]
    else
      var m := ExtremeTo(v, s, n - 1);
      assert forall j :: 0 <= j < n - 1 ==> s[..n][j] == s[..n - 1][j];
      assert s[..n][n - 1] == s[n - 1];
      if Beats(v, s[n - 1], m) then s[n - 1] else m
  }

  /** The maximum (`Max`) or minimum (`Min`) of a non-empty sequence. */
  function Extreme(v: Variant, s: seq<real>): (r: real)
    requires HasAllReduce(v) && |s| > 0
    ensures IsExtreme(v, s, r)
  {
    assert s[..|s|] == s;
    ExtremeTo(v, s, |s|)
  }

  /** A sequence has exactly one extreme value. */
  lemma {:induction false} ExtremeUnique(v: Variant, s: seq<real>, m: real)
    requires HasAllReduce(v) && |s| > 0 && IsExtreme(v, s, m)
    ensures Extreme(v, s) == m
  {
    var e := Extreme(v, s);
    var j :| 0 <= j < |s| && s[j] == m;
    var j' :| 0 <= j' < |s| && s[j'] == e;
    assert !Beats(v, s[j], e) && !Beats(v, s[j'], m);
  }

  /** The first position at or after `j` that holds `v`, or `|s|` if none. */
  function FirstFrom(s: seq<real>, x: real, j: nat): (r: nat)
    requires j <= |s|
    ensures j <= r <= |s|
    ensures r < |s| ==> s[r] == x
    ensures forall i :: j <= i < r ==> s[i] != x
    decreases |s| - j
  {
    if j == |s| then j else if s[j] == x then j else FirstFrom(s, x, j + 1)
  }

  /** A position holding `x` with no `x` before it (from `j` on) is the first
      one. */
  lemma {:induction false} FirstFromIs(s: seq<real>, x: real, j: nat, p: nat)
    requires j <= p < |s| && s[p] == x
    requires forall i :: j <= i < p ==> s[i] != x
    ensures FirstFrom(s, x, j) == p
    decreases p - j
  {
    if j < p {
      FirstFromIs(s, x, j + 1, p);
    }
  }

  /** `input.eq(value).nonzero()[0]` in flat form: the first position
      holding the maximum (`Max`) or minimum (`Min`). */
  function FirstExtreme(v: Variant, s: seq<real>): (r: nat)
    requires HasAllReduce(v) && |s| > 0
    ensures r < |s| && s[r] == Extreme(v, s)
    ensures forall i :: 0 <= i < r ==> s[i] != Extreme(v, s)
  {
    FirstFrom(s, Extreme(v, s), 0)
  }

  // ---------------------------------------------------------------------------
  // Forward

  /** `_SelectionFunction.forward` (and `Kthvalue.forward`, whose `k` is the
      variant's): `Max` and `Min` without `dim` reduce the whole tensor, which
      must not be empty; every other call reduces one axis, which must exist
      and must not be empty. The context records the call's arguments and
      the input's shape. */
  function SelForward(v: Variant, x: Tensor<real>, dim: Option<int>, keepdim: bool, pick: Kernel): (r: Result<(SelOutput, SelCtx)>)
    requires Valid(x) && PicksInLane(pick)
    ensures r.Ok? <==>
      if AllReduces(v, dim) then |x.data| > 0
      else (dim.Some? ==> DimInRange(dim.value, |x.shape|)) && x.shape[SelAxis(dim, |x.shape|)] > 0
    ensures r.Ok? ==>
      var (out, ctx) := r.value;
      && ctx.variant == v && ctx.dim == dim && ctx.keepdim == keepdim
      && ctx.additionalArgs == AdditionalArgs(v) && ctx.inputSize == x.shape
    ensures r.Ok? && AllReduces(v, dim) ==> r.value == WholeForward(v, x, keepdim)
    ensures r.Ok? && !AllReduces(v, dim) ==> r.value == AxisForward(v, x, dim, keepdim, pick)
  {
    if AllReduces(v, dim) then
      if |x.data| == 0 then Err("cannot reduce a tensor with no elements")
      else Ok(WholeForward(v, x, keepdim))
    else if dim.Some? && !DimInRange(dim.value, |x.shape|) then Err("dimension out of range")
    else if x.shape[SelAxis(dim, |x.shape|)] == 0 then Err("cannot select from an axis of size 0")
    else Ok(AxisForward(v, x, dim, keepdim, pick))
  }

  /** The forward pass of `Max` or `Min` without `dim`: the extreme value as
      a one-element tensor; the context records the coordinates of its first
      occurrence in row-major order. */
  function WholeForward(v: Variant, x: Tensor<real>, keepdim: bool): (r: (SelOutput, SelCtx))
    requires Valid(x) && HasAllReduce(v) && |x.data| > 0
    ensures
      var (out, ctx) := r;
      && ctx == SelCtx(v, None, keepdim, AdditionalArgs(v), x.shape, ctx.saved)
      && out.AllReduced? && out.value.shape == [1] && |out.value.data| == 1
      && IsExtreme(v, x.data, out.value.data[0])
      && ctx.saved.IndicesTuple? && InBounds(x.shape, ctx.saved.coords)
      && FlatIndex(x.shape, ctx.saved.coords) < |x.data|
      && x.data[FlatIndex(x.shape, ctx.saved.coords)] == out.value.data[0]
      && forall j :: 0 <= j < FlatIndex(x.shape, ctx.saved.coords) ==> x.data[j] != out.value.data[0]
  {
    var value := Extreme(v, x.data);
    var p := FirstExtreme(v, x.data);
    CoordsRoundTrip(x.shape, p);
    (AllReduced(Scalar(value)), SelCtx(v, None, keepdim, AdditionalArgs(v), x.shape, IndicesTuple(Coords(x.shape, p))))
  }

  /** The forward pass along the axis `dim`, or the last axis when `dim` is
      absent: the kernel, called with the additional arguments followed by
      `(dim, keepdim)`, selects one position in every lane; the values at
      those positions and the positions themselves are returned, and the
      positions are recorded. */
  function AxisForward(v: Variant, x: Tensor<real>, dim: Option<int>, keepdim: bool, pick: Kernel): (r: (SelOutput, SelCtx))
    requires Valid(x) && PicksInLane(pick)
    requires dim.Some? ==> DimInRange(dim.value, |x.shape|)
    requires x.shape[SelAxis(dim, |x.shape|)] > 0
    ensures
      var (out, ctx) := r;
      var d := SelAxis(dim, |x.shape|);
      var args := KernelArgs(v, DimArg(dim, |x.shape|), keepdim);
      && out.PerAxis? && ctx == SelCtx(v, dim, keepdim, AdditionalArgs(v), x.shape, Indices(out.indices))
      && Valid(out.values) && out.values.shape == ReducedShape(x.shape, d, keepdim)
      && Valid(out.indices) && out.indices.shape == out.values.shape
      && |out.values.data| == Outer(x.shape, d) * Inner(x.shape, d)
      && forall p :: 0 <= p < |out.values.data| ==>
           && out.indices.data[p] == pick(args, LaneAt(x, d, p))
           && out.indices.data[p] < x.shape[d]
           && out.values.data[p] == LaneAt(x, d, p)[out.indices.data[p]]
  {
    var d := SelAxis(dim, |x.shape|);
    var args := KernelArgs(v, DimArg(dim, |x.shape|), keepdim);
    var values := ReduceAxis(x, d, keepdim, lane => if |lane| == 0 then 0.0 else lane[pick(args, lane)]);
    var indices := ReduceAxis(x, d, keepdim, lane => pick(args, lane));
    (PerAxis(values, indices), SelCtx(v, dim, keepdim, AdditionalArgs(v), x.shape, Indices(indices)))
  }

  // ---------------------------------------------------------------------------
  // Backward

  /** Whether the forward pass that recorded `ctx` reduced the whole tensor. */
  predicate WholeReduced(ctx: SelCtx)
  {
    AllReduces(ctx.variant, ctx.dim)
  }

  /** An upstream gradient shaped like the forward output recorded in `ctx`,
      and a record the forward pass can produce. */
  predicate BackFits(ctx: SelCtx, g: Tensor<real>)
  {
    var s := ctx.inputSize;
    && |s| > 0 && Valid(g)
    && if WholeReduced(ctx) then
         ctx.saved.IndicesTuple? && InBounds(s, ctx.saved.coords) && g.shape == [1] && |g.data| == 1
       else
         && (ctx.dim.Some? ==> DimInRange(ctx.dim.value, |s|))
         && ctx.saved.Indices? && Valid(ctx.saved.indices)
         && ctx.saved.indices.shape == ReducedShape(s, SelAxis(ctx.dim, |s|), ctx.keepdim)
         && g.shape == ctx.saved.indices.shape
         && forall p :: 0 <= p < |ctx.saved.indices.data| ==> ctx.saved.indices.data[p] < s[SelAxis(ctx.dim, |s|)]
  }

  /** The gradient the backward rule gives input element `q`: the upstream
      gradient of the output element that selected `q`, and 0 for an element
      nothing selected. */
  function SelGradAt(ctx: SelCtx, g: Tensor<real>, q: nat): real
    requires BackFits(ctx, g) && q < Numel(ctx.inputSize)
  {
    var s := ctx.inputSize;
    if WholeReduced(ctx) then
      if q == FlatIndex(s, ctx.saved.coords) then g.data[0] else 0.0
    else
      var d := SelAxis(ctx.dim, |s|);
      LaneOfPosition(s, d, q);
      NumelReduced(s, d, ctx.keepdim);
      var p := LaneSlot(s, d, q);
      if ctx.saved.indices.data[p] == LanePos(s, d, q) then g.data[p] else 0.0
  }

  /** The gradient of the input, of the input's shape. */
  function SelectionGrad(ctx: SelCtx, g: Tensor<real>): (r: Tensor<real>)
    requires BackFits(ctx, g)
    ensures Valid(r) && r.shape == ctx.inputSize
    ensures forall q :: 0 <= q < |r.data| ==> r.data[q] == SelGradAt(ctx, g, q)
  {
    var s := ctx.inputSize;
    Tensor(s, seq(Numel(s), q requires 0 <= q < Numel(s) => SelGradAt(ctx, g, q)))
  }

  /** `grad_input.scatter_(d, index, src)` where `index` and `src` have size
      1 along axis `d` of the shape `s` of `buf`: position `index[p]` of lane
      `p` receives `src[p]`, and every other element keeps its value. */
  method ScatterAlong(buf: array<real>, s: seq<nat>, d: nat, index: Tensor<nat>, src: Tensor<real>)
    requires d < |s| && buf.Length == Numel(s)
    requires Valid(index) && index.shape == KeepShape(s, d)
    requires Valid(src) && src.shape == index.shape
    requires forall p :: 0 <= p < |index.data| ==> index.data[p] < s[d]
    modifies buf
    ensures forall q :: 0 <= q < buf.Length ==>
      LaneSlot(s, d, q) < |index.data| &&
      buf[q] == if index.data[LaneSlot(s, d, q)] == LanePos(s, d, q) then src.data[LaneSlot(s, d, q)] else old(buf[q])
  {
    NumelReduced(s, d, true);
    var m := |index.data|;
    forall q | 0 <= q < buf.Length ensures LaneSlot(s, d, q) < m {
      LaneOfPosition(s, d, q);
    }
    var p := 0;
    while p < m
      invariant 0 <= p <= m
      invariant forall q :: 0 <= q < buf.Length ==>
        LaneSlot(s, d, q) < m &&
        buf[q] == if LaneSlot(s, d, q) < p && index.data[LaneSlot(s, d, q)] == LanePos(s, d, q)
                  then src.data[LaneSlot(s, d, q)] else old(buf[q])
    {
      var k := index.data[p];
      LaneFlatOf(s, d, p, k);
      var at := LaneFlat(s, d, p, k);
      buf[at] := src.data[p];
      forall q | 0 <= q < buf.Length
        ensures q == at <==> LaneSlot(s, d, q) == p && index.data[p] == LanePos(s, d, q)
      {
        LaneFlatOnly(s, d, q);
      }
      p := p + 1;
    }
  }

  /** `_SelectionFunction.backward`: a zero tensor of the input's shape that
      receives the upstream gradient at the recorded coordinates (whole
      tensor), or is scattered into along the axis at the recorded positions
      after the reduced axis is put back when it was dropped. The other three
      arguments receive no gradient. */
  method SelBackward(ctx: SelCtx, g: Tensor<real>) returns (r: seq<Option<Tensor<real>>>)
    requires BackFits(ctx, g)
    ensures |r| == 4 && r[0] == Some(SelectionGrad(ctx, g)) && r[1] == None && r[2] == None && r[3] == None
  {
    var s := ctx.inputSize;
    var buf := new real[Numel(s)](_ => 0.0);
    if WholeReduced(ctx) {
      FlatIndexInRange(s, ctx.saved.coords);
      buf[FlatIndex(s, ctx.saved.coords)] := g.data[0];
    } else {
      var d := SelAxis(ctx.dim, |s|);
      var index := ReinsertAxis(ctx.saved.indices, s, d, ctx.keepdim);
      var src := ReinsertAxis(g, s, d, ctx.keepdim);
      NumelReduced(s, d, ctx.keepdim);
      ScatterAlong(buf, s, d, index, src);
    }
    var grad := SelectionGrad(ctx, g);
    assert buf[..] == grad.data by {
      forall q | 0 <= q < |grad.data| ensures buf[q] == grad.data[q] {
      }
    }
    r := [Some(Tensor(s, buf[..])), None, None, None];
  }

  // ---------------------------------------------------------------------------
  // What the backward rule computes

  /** What a forward pass records fits the backward rule, for every upstream
      gradient of the forward output's shape. */
  lemma {:induction false} ForwardFitsBackward(v: Variant, x: Tensor<real>, dim: Option<int>, keepdim: bool, pick: Kernel, g: Tensor<real>)
    requires Valid(x) && PicksInLane(pick) && SelForward(v, x, dim, keepdim, pick).Ok?
    requires Valid(g)
    requires AllReduces(v, dim) ==> g.shape == [1]
    requires !AllReduces(v, dim) ==> g.shape == SelForward(v, x, dim, keepdim, pick).value.0.values.shape
    ensures BackFits(SelForward(v, x, dim, keepdim, pick).value.1, g)
  {
    if AllReduces(v, dim) {
      assert [1][1..] == [];
      assert Numel(g.shape) == 1;
    }
  }

  /** Without `dim`, the gradient of `Max` or `Min` is the upstream value at
      the first position holding the extreme value, and 0 everywhere else. */
  lemma {:induction false} WholeGradIsUnit(v: Variant, x: Tensor<real>, keepdim: bool, pick: Kernel, g: Tensor<real>)
    requires Valid(x) && PicksInLane(pick) && HasAllReduce(v) && |x.data| > 0
    requires Valid(g) && g.shape == [1]
    ensures SelForward(v, x, None, keepdim, pick).Ok?
    ensures BackFits(SelForward(v, x, None, keepdim, pick).value.1, g)
    ensures SelectionGrad(SelForward(v, x, None, keepdim, pick).value.1, g).data
         == Unit(|x.data|, FirstExtreme(v, x.data), g.data[0])
  {
    ForwardFitsBackward(v, x, None, keepdim, pick, g);
    var ctx := SelForward(v, x, None, keepdim, pick).value.1;
    var p := FirstExtreme(v, x.data);
    CoordsRoundTrip(x.shape, p);
    assert ctx.saved.coords == Coords(x.shape, p);
    var a, b := SelectionGrad(ctx, g).data, Unit(|x.data|, p, g.data[0]);
    forall q | 0 <= q < |a| ensures a[q] == b[q] {
    }
  }

  /** Per axis, every lane of the gradient is the lane's upstream value at
      the recorded position, and 0 everywhere else. */
  lemma {:induction false} AxisGradLane(ctx: SelCtx, g: Tensor<real>, p: nat)
    requires BackFits(ctx, g) && !WholeReduced(ctx) && p < |g.data|
    ensures
      var s, d := ctx.inputSize, SelAxis(ctx.dim, |ctx.inputSize|);
      && p < Outer(s, d) * Inner(s, d) && p < |ctx.saved.indices.data|
      && LaneAt(SelectionGrad(ctx, g), d, p) == Unit(s[d], ctx.saved.indices.data[p], g.data[p])
  {
    var s := ctx.inputSize;
    var d := SelAxis(ctx.dim, |s|);
    NumelReduced(s, d, ctx.keepdim);
    var t := SelectionGrad(ctx, g);
    var a, b := LaneAt(t, d, p), Unit(s[d], ctx.saved.indices.data[p], g.data[p]);
    forall k | 0 <= k < s[d] ensures a[k] == b[k] {
      LaneFlatAt(t, d, p, k);
      LaneFlatOf(s, d, p, k);
    }
  }

  // ---------------------------------------------------------------------------
  // The backward rule is the gradient while the selection stays in place

  /** A step `h` at `q` that leaves the first position of the maximum
      (`Max`) or minimum (`Min`) where it was moves the extreme value by `h`
      when `q` is that position and leaves it alone otherwise. */
  lemma {:induction false} ExtremeStep(v: Variant, s: seq<real>, q: nat, h: real)
    requires HasAllReduce(v) && q < |s|
    requires FirstExtreme(v, s[q := s[q] + h]) == FirstExtreme(v, s)
    ensures Extreme(v, s[q := s[q] + h]) == Extreme(v, s) + if q == FirstExtreme(v, s) then h else 0.0
  {
    var p := FirstExtreme(v, s);
    assert s[q := s[q] + h][p] == s[p] + if q == p then h else 0.0;
  }

  /** Such steps exist on every side of every input: a step `h` at `q` keeps
      the maximum (`Max`) or minimum (`Min`) at the same first position when
      it moves the selected element towards better or any other element
      towards worse; the extreme value moves by `h` in the first case and
      stays in the second. */
  lemma {:induction false} ExtremeBump(v: Variant, s: seq<real>, q: nat, h: real)
    requires HasAllReduce(v) && q < |s|
    requires q == FirstExtreme(v, s) ==> !Beats(v, 0.0, h)
    requires q != FirstExtreme(v, s) ==> !Beats(v, h, 0.0)
    ensures Extreme(v, s[q := s[q] + h]) == Extreme(v, s) + if q == FirstExtreme(v, s) then h else 0.0
    ensures FirstExtreme(v, s[q := s[q] + h]) == FirstExtreme(v, s)
  {
    var p, m := FirstExtreme(v, s), Extreme(v, s);
    var s' := s[q := s[q] + h];
    var m' := m + if q == p then h else 0.0;
    assert s'[p] == m';
    forall j | 0 <= j < |s'| ensures !Beats(v, s'[j], m') {
      assert !Beats(v, s[j], m);
    }
    ExtremeUnique(v, s', m');
    forall i | 0 <= i < p ensures s'[i] != m' {
      assert !Beats(v, s[i], m) && s[i] != m;
    }
    FirstFromIs(s', m', 0, p);
  }

  /** Without `dim`, the backward rule of `Max` and `Min` is the gradient of
      the forward rule for every step that keeps the first extreme position
      in place (`ExtremeBump` shows such steps in every direction away from
      a tie). */
  lemma {:induction false} WholeBackwardIsGradient(v: Variant, x: Tensor<real>, keepdim: bool, pick: Kernel, g: Tensor<real>, q: nat, h: real)
    requires Valid(x) && PicksInLane(pick) && HasAllReduce(v) && q < |x.data|
    requires Valid(g) && g.shape == [1]
    requires FirstExtreme(v, Bump(x, q, h).data) == FirstExtreme(v, x.data)
    ensures SelForward(v, x, None, keepdim, pick).Ok? && SelForward(v, Bump(x, q, h), None, keepdim, pick).Ok?
    ensures BackFits(SelForward(v, x, None, keepdim, pick).value.1, g)
    ensures GradientAt(g.data, SelForward(v, x, None, keepdim, pick).value.0.value.data,
                       SelForward(v, Bump(x, q, h), None, keepdim, pick).value.0.value.data,
                       SelectionGrad(SelForward(v, x, None, keepdim, pick).value.1, g).data, q, h)
  {
    var p := FirstExtreme(v, x.data);
    var x' := Bump(x, q, h);
    assert x'.data == x.data[q := x.data[q] + h];
    ExtremeStep(v, x.data, q, h);
    WholeGradIsUnit(v, x, keepdim, pick, g);
    var y := SelForward(v, x, None, keepdim, pick).value.0.value.data;
    var y' := SelForward(v, x', None, keepdim, pick).value.0.value.data;
    assert y == [Extreme(v, x.data)] && y' == [Extreme(v, x'.data)];
    var c := if q == p then h else 0.0;
    assert Delta(y', y) == Unit(1, 0, c) by {
      assert Delta(y', y)[0] == c;
    }
    var grad := SelectionGrad(SelForward(v, x, None, keepdim, pick).value.1, g).data;
    assert grad[q] == if q == p then g.data[0] else 0.0;
    TimesOfZero(g.data[0], h);
    UnitChangeGradient(g.data, y, y', grad, q, h, 0, c);
  }

  /** A zero factor on either side gives zero. */
  lemma {:induction false} TimesOfZero(a: real, b: real)
    ensures Times(0.0, b) == 0.0 && Times(a, 0.0) == 0.0
  {
  }

  /** The kernel selects the same position of `q`'s lane after a step `h` at
      `q` as before it. */
  predicate KeepsSelection(v: Variant, x: Tensor<real>, dim: Option<int>, keepdim: bool, pick: Kernel, q: nat, h: real)
    requires Valid(x) && q < |x.data| && (dim.Some? ==> DimInRange(dim.value, |x.shape|))
  {
    var d := SelAxis(dim, |x.shape|);
    var args := KernelArgs(v, DimArg(dim, |x.shape|), keepdim);
    LaneOfPosition(x.shape, d, q);
    var p := LaneSlot(x.shape, d, q);
    pick(args, LaneAt(Bump(x, q, h), d, p)) == pick(args, LaneAt(x, d, p))
  }

  /** Per axis, a step `h` at `q` that keeps the selection in `q`'s lane
      moves that lane's output by `h` when `q` is the selected element, and
      changes nothing else. */
  lemma {:induction false} AxisSelectionDelta(v: Variant, x: Tensor<real>, dim: Option<int>, keepdim: bool, pick: Kernel, q: nat, h: real)
    requires Valid(x) && PicksInLane(pick) && q < |x.data|
    requires (dim.Some? ==> DimInRange(dim.value, |x.shape|)) && x.shape[SelAxis(dim, |x.shape|)] > 0
    requires KeepsSelection(v, x, dim, keepdim, pick, q, h)
    ensures
      var d := SelAxis(dim, |x.shape|);
      var out := AxisForward(v, x, dim, keepdim, pick).0;
      var y := out.values.data;
      var y' := AxisForward(v, Bump(x, q, h), dim, keepdim, pick).0.values.data;
      && LaneSlot(x.shape, d, q) < |y| && |y'| == |y|
      && Delta(y', y) == Unit(|y|, LaneSlot(x.shape, d, q),
                              if out.indices.data[LaneSlot(x.shape, d, q)] == LanePos(x.shape, d, q) then h else 0.0)
  {
    var d := SelAxis(dim, |x.shape|);
    var out := AxisForward(v, x, dim, keepdim, pick).0;
    var y, y' := out.values.data, AxisForward(v, Bump(x, q, h), dim, keepdim, pick).0.values.data;
    LaneOfPosition(x.shape, d, q);
    var sl, pos := LaneSlot(x.shape, d, q), LanePos(x.shape, d, q);
    var c := if out.indices.data[sl] == pos then h else 0.0;
    var a, b := Delta(y', y), Unit(|y|, sl, c);
    forall p | 0 <= p < |y| ensures a[p] == b[p] {
      AxisOutputChange(v, x, dim, keepdim, pick, q, h, p);
    }
  }

  /** Output element `p` of the per-axis forward pass after a step `h` at
      `q` that keeps the selection in place. */
  lemma {:induction false} AxisOutputChange(v: Variant, x: Tensor<real>, dim: Option<int>, keepdim: bool, pick: Kernel, q: nat, h: real, p: nat)
    requires Valid(x) && PicksInLane(pick) && q < |x.data|
    requires (dim.Some? ==> DimInRange(dim.value, |x.shape|)) && x.shape[SelAxis(dim, |x.shape|)] > 0
    requires KeepsSelection(v, x, dim, keepdim, pick, q, h)
    requires p < |AxisForward(v, x, dim, keepdim, pick).0.values.data|
    ensures
      var d := SelAxis(dim, |x.shape|);
      var out := AxisForward(v, x, dim, keepdim, pick).0;
      var out' := AxisForward(v, Bump(x, q, h), dim, keepdim, pick).0;
      && LaneSlot(x.shape, d, q) < |out.values.data| && p < |out'.values.data|
      && out'.values.data[p] - out.values.data[p]
         == if p == LaneSlot(x.shape, d, q) && out.indices.data[p] == LanePos(x.shape, d, q) then h else 0.0
  {
    var d := SelAxis(dim, |x.shape|);
    var x' := Bump(x, q, h);
    assert x' == Tensor(x.shape, x.data[q := x.data[q] + h]);
    LaneAtOf(x, d, q);
    LaneAtUpdate(x, d, q, x.data[q] + h, p);
  }

  /** Per axis, the backward rule of every selection function is the
      gradient of its forward rule for every step that keeps the kernel's
      selection in place. */
  lemma {:induction false} AxisBackwardIsGradient(v: Variant, x: Tensor<real>, dim: Option<int>, keepdim: bool, pick: Kernel, g: Tensor<real>, q: nat, h: real)
    requires Valid(x) && PicksInLane(pick) && !AllReduces(v, dim) && q < |x.data|
    requires SelForward(v, x, dim, keepdim, pick).Ok?
    requires Valid(g) && g.shape == SelForward(v, x, dim, keepdim, pick).value.0.values.shape
    requires KeepsSelection(v, x, dim, keepdim, pick, q, h)
    ensures SelForward(v, Bump(x, q, h), dim, keepdim, pick).Ok?
    ensures BackFits(SelForward(v, x, dim, keepdim, pick).value.1, g)
    ensures GradientAt(g.data, SelForward(v, x, dim, keepdim, pick).value.0.values.data,
                       SelForward(v, Bump(x, q, h), dim, keepdim, pick).value.0.values.data,
                       SelectionGrad(SelForward(v, x, dim, keepdim, pick).value.1, g).data, q, h)
  {
    var d := SelAxis(dim, |x.shape|);
    ForwardFitsBackward(v, x, dim, keepdim, pick, g);
    assert SelForward(v, Bump(x, q, h), dim, keepdim, pick).Ok?;
    AxisSelectionDelta(v, x, dim, keepdim, pick, q, h);
    var (out, ctx) := SelForward(v, x, dim, keepdim, pick).value;
    var y := out.values.data;
    var y' := SelForward(v, Bump(x, q, h), dim, keepdim, pick).value.0.values.data;
    var sl, pos := LaneSlot(x.shape, d, q), LanePos(x.shape, d, q);
    var c := if out.indices.data[sl] == pos then h else 0.0;
    var grad := SelectionGrad(ctx, g).data;
    assert grad[q] == if out.indices.data[sl] == pos then g.data[sl] else 0.0;
    TimesOfZero(g.data[sl], h);
    UnitChangeGradient(g.data, y, y', grad, q, h, sl, c);
  }
}
