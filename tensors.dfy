/** The tensor operations the backward rules are built from, at the level of
    values: shapes, reshaping, broadcasting, repetition, and the lanes of an
    axis. Memory layout (views, strides, in-place fills) is not modelled; each
    operation returns the tensor that holds the values it would produce. */
module Tensors {
  import opened Indexing
  import opened Products

  /** A tensor: its shape and its elements in row-major order. */
  datatype Tensor<T> = Tensor(shape: seq<nat>, data: seq<T>)

  /** Every tensor has at least one axis, and as many elements as its shape
      says. */
  predicate Valid<T>(t: Tensor<T>)
  {
    |t.shape| > 0 && |t.data| == Numel(t.shape)
  }

  // ---------------------------------------------------------------------------
  // Dimension arguments and reduced shapes

  /** A dimension argument for a tensor of rank `rank` may count from the end. */
  predicate DimInRange(d: int, rank: nat)
  {
    -(rank as int) <= d < rank as int
  }

  /** The axis a dimension argument names (a negative one counts from the end). */
  function WrapDim(d: int, rank: nat): (r: nat)
    requires DimInRange(d, rank)
    ensures r < rank
  {
    if d >= 0 then d else d + rank
  }

  /** Shape of a per-axis reduction that keeps the reduced axis, with size 1. */
  function KeepShape(s: seq<nat>, d: nat): seq<nat>
    requires d < |s|
  {
    s[d := 1]
  }

  /** Setting an axis to 1 and back to its size gives the shape back. */
  lemma {:induction false} KeepShapeRestore(s: seq<nat>, d: nat)
    requires d < |s|
    ensures KeepShape(s, d)[d := s[d]] == s
  {
  }

  /** Shape of a per-axis reduction's result. Without `keepdim` the axis is
      dropped, except that a one-axis tensor reduces to a one-element
      one-axis tensor (there are no zero-axis tensors). */
  function ReducedShape(s: seq<nat>, d: nat, keepdim: bool): seq<nat>
    requires d < |s|
  {
    if keepdim || |s| == 1 then KeepShape(s, d) else s[..d] + s[d + 1..]
  }

  /** A reduced tensor has one element per lane of the reduced axis. */
  lemma {:induction false} NumelReduced(s: seq<nat>, d: nat, keepdim: bool)
    requires d < |s|
    ensures Numel(ReducedShape(s, d, keepdim)) == Outer(s, d) * Inner(s, d)
    ensures Numel(KeepShape(s, d)) == Outer(s, d) * Inner(s, d)
    ensures |ReducedShape(s, d, keepdim)| > 0
  {
    OuterInnerOfUpdate(s, d, 1);
    NumelRemoved(s, d);
  }

  /** `unsqueeze(d)`: a new axis of size 1 before axis `d`; the elements stay. */
  function Unsqueeze<T>(t: Tensor<T>, d: nat): Tensor<T>
    requires d <= |t.shape|
  {
    Tensor(t.shape[..d] + [1] + t.shape[d..], t.data)
  }

  /** The step every per-axis backward rule starts with: when `keepdim` was
      false and the input had more than one axis, the reduced axis is put back
      with size 1. Either way the gradient then has the input's shape with
      size 1 along the reduced axis, and the reinsertion happens exactly when
      the gradient's shape lacked that axis. */
  function ReinsertAxis<T>(g: Tensor<T>, s: seq<nat>, d: nat, keepdim: bool): (r: Tensor<T>)
    requires d < |s| && g.shape == ReducedShape(s, d, keepdim)
    ensures r.shape == KeepShape(s, d) && r.data == g.data
    ensures r.shape == g.shape <==> keepdim || |s| == 1
  {
    if !keepdim && |s| != 1 then
      var r := Unsqueeze(g, d);
      assert r.shape == KeepShape(s, d) by {
        var rest := s[..d] + s[d + 1..];
        assert rest[..d] == s[..d];
        assert rest[d..] == s[d + 1..];
      }
      assert |r.shape| != |g.shape|;
      r
    else
      g
  }

  // ---------------------------------------------------------------------------
  // Whole-tensor reshaping and broadcasting

  /** `expand` of a one-element tensor holding `v` to `shape`. */
  function Full<T>(shape: seq<nat>, v: T): (r: Tensor<T>)
    requires |shape| > 0
    ensures Valid(r) && r.shape == shape
    ensures forall q :: 0 <= q < |r.data| ==> r.data[q] == v
  {
    Tensor(shape, seq(Numel(shape), _ => v))
  }

  /** `input.new((v,))`: a one-axis tensor holding just `v`. */
  function Scalar<T>(v: T): (r: Tensor<T>)
    ensures Valid(r) && r.shape == [1] && r.data == [v]
  {
    assert [1][1..] == [];
    Tensor([1], [v])
  }

  /** `view(shape)`: the same elements under another shape of equal size. */
  function View<T>(t: Tensor<T>, shape: seq<nat>): (r: Tensor<T>)
    requires |shape| > 0 && Numel(shape) == |t.data|
    ensures Valid(r) && r.shape == shape && r.data == t.data
  {
    Tensor(shape, t.data)
  }

  /** `view(-1)`: the elements as one axis. */
  function Flatten<T>(t: Tensor<T>): (r: Tensor<T>)
    requires Valid(t)
    ensures Valid(r) && r.shape == [|t.data|] && r.data == t.data
  {
    assert Numel([|t.data|]) == |t.data| by {
      assert [|t.data|][1..] == [];
    }
    View(t, [|t.data|])
  }

  // ---------------------------------------------------------------------------
  // Lanes of an axis

  /** The elements of lane `(o, i)` of axis `d`, in order along the axis. */
  function Lane<T>(t: Tensor<T>, d: nat, o: nat, i: nat): (r: seq<T>)
    requires Valid(t) && d < |t.shape|
    requires o < Outer(t.shape, d) && i < Inner(t.shape, d)
    ensures |r| == t.shape[d]
  {
    LaneTo(t, d, o, i, t.shape[d])
  }

  /** Position `k` of lane `(o, i)` holds the element at coordinates
      `(o, k, i)`. */
  lemma {:induction false} LaneElem<T>(t: Tensor<T>, d: nat, o: nat, i: nat, k: nat)
    requires Valid(t) && d < |t.shape|
    requires o < Outer(t.shape, d) && i < Inner(t.shape, d) && k < t.shape[d]
    ensures Off(t.shape[d], Inner(t.shape, d), o, k, i) < |t.data|
    ensures Lane(t, d, o, i)[k] == t.data[Off(t.shape[d], Inner(t.shape, d), o, k, i)]
  {
    LaneToAt(t, d, o, i, t.shape[d], k);
  }

  /** The first `m` elements of lane `(o, i)` of axis `d`. */
  function LaneTo<T>(t: Tensor<T>, d: nat, o: nat, i: nat, m: nat): (r: seq<T>)
    requires Valid(t) && d < |t.shape|
    requires o < Outer(t.shape, d) && i < Inner(t.shape, d) && m <= t.shape[d]
    ensures |r| == m
  {
    if m == 0 then []
    else
      NumelSplit(t.shape, d);
      OffRoundTrip(Outer(t.shape, d), t.shape[d], Inner(t.shape, d), o, m - 1, i);
      LaneTo(t, d, o, i, m - 1) + [t.data[Off(t.shape[d], Inner(t.shape, d), o, m - 1, i)]]
  }

  lemma {:induction false} LaneToAt<T>(t: Tensor<T>, d: nat, o: nat, i: nat, m: nat, k: nat)
    requires Valid(t) && d < |t.shape|
    requires o < Outer(t.shape, d) && i < Inner(t.shape, d) && k < m <= t.shape[d]
    ensures Off(t.shape[d], Inner(t.shape, d), o, k, i) < |t.data|
    ensures LaneTo(t, d, o, i, m)[k] == t.data[Off(t.shape[d], Inner(t.shape, d), o, k, i)]
    decreases m
  {
    NumelSplit(t.shape, d);
    OffRoundTrip(Outer(t.shape, d), t.shape[d], Inner(t.shape, d), o, k, i);
    if k < m - 1 {
      LaneToAt(t, d, o, i, m - 1, k);
    }
  }

  /** Changing the element at coordinates `(o, k, i)` of axis `d` changes
      lane `(o, i)` at position `k`, and no other lane. */
  lemma {:induction false} LaneOfUpdate<T>(x: Tensor<T>, d: nat, o: nat, k: nat, i: nat, v: T, o': nat, i': nat)
    requires Valid(x) && d < |x.shape|
    requires o < Outer(x.shape, d) && k < x.shape[d] && i < Inner(x.shape, d)
    requires o' < Outer(x.shape, d) && i' < Inner(x.shape, d)
    ensures Off(x.shape[d], Inner(x.shape, d), o, k, i) < |x.data|
    ensures Lane(Tensor(x.shape, x.data[Off(x.shape[d], Inner(x.shape, d), o, k, i) := v]), d, o', i')
         == if o' == o && i' == i then Lane(x, d, o, i)[k := v] else Lane(x, d, o', i')
  {
    var n, outer, inner := x.shape[d], Outer(x.shape, d), Inner(x.shape, d);
    NumelSplit(x.shape, d);
    var q := Off(n, inner, o, k, i);
    OffRoundTrip(outer, n, inner, o, k, i);
    var y := Tensor(x.shape, x.data[q := v]);
    var a := Lane(y, d, o', i');
    var b := if o' == o && i' == i then Lane(x, d, o, i)[k := v] else Lane(x, d, o', i');
    forall k' | 0 <= k' < n ensures a[k'] == b[k'] {
      OffRoundTrip(outer, n, inner, o', k', i');
      LaneElem(y, d, o', i', k');
      LaneElem(x, d, o', i', k');
    }
    assert a == b;
  }

  /** Lane number `p` of axis `d`, counting lanes in the order of their
      elements in a reduced tensor. */
  function LaneAt<T>(t: Tensor<T>, d: nat, p: nat): (r: seq<T>)
    requires Valid(t) && d < |t.shape| && p < Outer(t.shape, d) * Inner(t.shape, d)
    ensures |r| == t.shape[d]
  {
    SlotRoundTrip(Outer(t.shape, d), Inner(t.shape, d), p);
    Lane(t, d, p / Inner(t.shape, d), p % Inner(t.shape, d))
  }

  /** The first `m` lanes of axis `d`, in the order of `LaneAt`. */
  function Lanes<T>(t: Tensor<T>, d: nat, m: nat): (r: seq<seq<T>>)
    requires Valid(t) && d < |t.shape| && m <= Outer(t.shape, d) * Inner(t.shape, d)
    ensures |r| == m
    ensures forall p :: 0 <= p < m ==> |r[p]| == t.shape[d]
  {
    if m == 0 then [] else Lanes(t, d, m - 1) + [LaneAt(t, d, m - 1)]
  }

  lemma {:induction false} LanesAt<T>(t: Tensor<T>, d: nat, m: nat, p: nat)
    requires Valid(t) && d < |t.shape| && p < m <= Outer(t.shape, d) * Inner(t.shape, d)
    ensures Lanes(t, d, m)[p] == LaneAt(t, d, p)
    decreases m
  {
    if p < m - 1 {
      LanesAt(t, d, m - 1, p);
    }
  }

  /** The lane number of flat position `q` on axis `d`. */
  function LaneSlot(s: seq<nat>, d: nat, q: nat): nat
    requires d < |s|
  {
    Slot(Inner(s, d), LaneO(q, s[d], Inner(s, d)), LaneI(q, Inner(s, d)))
  }

  /** The position of flat position `q` within its lane of axis `d`. */
  function LanePos(s: seq<nat>, d: nat, q: nat): nat
    requires d < |s|
  {
    LaneK(q, s[d], Inner(s, d))
  }

  /** Every flat position of shape `s` lies in a lane of axis `d`, at a
      position inside that lane. */
  lemma {:induction false} LaneOfPosition(s: seq<nat>, d: nat, q: nat)
    requires d < |s| && q < Numel(s)
    ensures LaneSlot(s, d, q) < Outer(s, d) * Inner(s, d)
    ensures LanePos(s, d, q) < s[d]
  {
    var n, outer, inner := s[d], Outer(s, d), Inner(s, d);
    NumelSplit(s, d);
    LaneRoundTrip(outer, n, inner, q);
    SlotRoundTrips(outer, inner);
  }

  /** The flat position of position `k` of lane number `p` of axis `d`. */
  function LaneFlat(s: seq<nat>, d: nat, p: nat, k: nat): nat
    requires d < |s|
  {
    if Inner(s, d) == 0 then 0 else Off(s[d], Inner(s, d), p / Inner(s, d), k, p % Inner(s, d))
  }

  /** Position `k` of lane number `p` lies in the tensor, on lane `p`, at
      position `k`. */
  lemma {:induction false} LaneFlatOf(s: seq<nat>, d: nat, p: nat, k: nat)
    requires d < |s| && p < Outer(s, d) * Inner(s, d) && k < s[d]
    ensures LaneFlat(s, d, p, k) < Numel(s)
    ensures LaneSlot(s, d, LaneFlat(s, d, p, k)) == p && LanePos(s, d, LaneFlat(s, d, p, k)) == k
  {
    var n, outer, inner := s[d], Outer(s, d), Inner(s, d);
    var o, i := LaneFlatCoords(s, d, p, k);
    NumelSplit(s, d);
    OffRoundTrip(outer, n, inner, o, k, i);
  }

  /** The outer and inner coordinates of lane number `p`. */
  lemma {:induction false} LaneFlatCoords(s: seq<nat>, d: nat, p: nat, k: nat) returns (o: nat, i: nat)
    requires d < |s| && p < Outer(s, d) * Inner(s, d)
    ensures o < Outer(s, d) && i < Inner(s, d) && Slot(Inner(s, d), o, i) == p
    ensures LaneFlat(s, d, p, k) == Off(s[d], Inner(s, d), o, k, i)
  {
    var inner := Inner(s, d);
    SlotRoundTrip(Outer(s, d), inner, p);
    o, i := p / inner, p % inner;
  }

  /** Only position `k` of lane `p` lies on lane `p` at position `k`. */
  lemma {:induction false} LaneFlatOnly(s: seq<nat>, d: nat, q: nat)
    requires d < |s| && q < Numel(s)
    ensures q == LaneFlat(s, d, LaneSlot(s, d, q), LanePos(s, d, q))
  {
    var n, outer, inner := s[d], Outer(s, d), Inner(s, d);
    NumelSplit(s, d);
    LaneRoundTrip(outer, n, inner, q);
    var o, i := LaneO(q, n, inner), LaneI(q, inner);
    SlotCoords(inner, o, i, Slot(inner, o, i));
  }

  /** Position `k` of lane number `p` holds the element at `LaneFlat`. */
  lemma {:induction false} LaneFlatAt<T>(t: Tensor<T>, d: nat, p: nat, k: nat)
    requires Valid(t) && d < |t.shape| && p < Outer(t.shape, d) * Inner(t.shape, d) && k < t.shape[d]
    ensures LaneFlat(t.shape, d, p, k) < |t.data|
    ensures LaneAt(t, d, p)[k] == t.data[LaneFlat(t.shape, d, p, k)]
  {
    LaneFlatOf(t.shape, d, p, k);
    LaneAtIsLane(t, d, p);
    LaneElem(t, d, p / Inner(t.shape, d), p % Inner(t.shape, d), k);
  }

  /** Every flat position lies on a lane, at a position within it. */
  lemma {:induction false} LaneAtOf<T>(t: Tensor<T>, d: nat, q: nat)
    requires Valid(t) && d < |t.shape| && q < |t.data|
    ensures LaneSlot(t.shape, d, q) < Outer(t.shape, d) * Inner(t.shape, d)
    ensures LanePos(t.shape, d, q) < t.shape[d]
    ensures LaneAt(t, d, LaneSlot(t.shape, d, q))[LanePos(t.shape, d, q)] == t.data[q]
  {
    var n, outer, inner := t.shape[d], Outer(t.shape, d), Inner(t.shape, d);
    NumelSplit(t.shape, d);
    LaneRoundTrip(outer, n, inner, q);
    var o, i := LaneO(q, n, inner), LaneI(q, inner);
    SlotRoundTrips(outer, inner);
    assert LaneAt(t, d, Slot(inner, o, i)) == Lane(t, d, o, i);
    var k := LaneK(q, n, inner);
    assert o < outer && k < n && i < inner;
    LaneElem(t, d, o, i, k);
  }

  /** Changing the element at flat position `q` changes the lane it lies on,
      at its position there, and no other lane. */
  lemma {:induction false} LaneAtUpdate<T>(x: Tensor<T>, d: nat, q: nat, v: T, p: nat)
    requires Valid(x) && d < |x.shape| && q < |x.data|
    requires p < Outer(x.shape, d) * Inner(x.shape, d)
    ensures LanePos(x.shape, d, q) < x.shape[d]
    ensures LaneAt(Tensor(x.shape, x.data[q := v]), d, p)
         == if p == LaneSlot(x.shape, d, q) then LaneAt(x, d, p)[LanePos(x.shape, d, q) := v]
            else LaneAt(x, d, p)
  {
    if p == LaneSlot(x.shape, d, q) {
      LaneAtUpdateSame(x, d, q, v);
    } else {
      LaneAtUpdateOther(x, d, q, v, p);
    }
  }

  /** The lane that flat position `q` lies on changes at `q`'s position. */
  lemma {:induction false} LaneAtUpdateSame<T>(x: Tensor<T>, d: nat, q: nat, v: T)
    requires Valid(x) && d < |x.shape| && q < |x.data|
    ensures LaneSlot(x.shape, d, q) < Outer(x.shape, d) * Inner(x.shape, d) && LanePos(x.shape, d, q) < x.shape[d]
    ensures LaneAt(Tensor(x.shape, x.data[q := v]), d, LaneSlot(x.shape, d, q))
         == LaneAt(x, d, LaneSlot(x.shape, d, q))[LanePos(x.shape, d, q) := v]
  {
    var n, outer, inner := x.shape[d], Outer(x.shape, d), Inner(x.shape, d);
    NumelSplit(x.shape, d);
    LaneRoundTrip(outer, n, inner, q);
    var o, k, i := LaneO(q, n, inner), LaneK(q, n, inner), LaneI(q, inner);
    LaneAtSlot(x, d, o, i);
    LaneAtSlot(Tensor(x.shape, x.data[q := v]), d, o, i);
    LaneOfUpdate(x, d, o, k, i, v, o, i);
  }

  /** The lanes that flat position `q` does not lie on do not change. */
  lemma {:induction false} LaneAtUpdateOther<T>(x: Tensor<T>, d: nat, q: nat, v: T, p: nat)
    requires Valid(x) && d < |x.shape| && q < |x.data|
    requires p < Outer(x.shape, d) * Inner(x.shape, d) && p != LaneSlot(x.shape, d, q)
    ensures LanePos(x.shape, d, q) < x.shape[d]
    ensures LaneAt(Tensor(x.shape, x.data[q := v]), d, p) == LaneAt(x, d, p)
  {
    var n, outer, inner := x.shape[d], Outer(x.shape, d), Inner(x.shape, d);
    NumelSplit(x.shape, d);
    LaneRoundTrip(outer, n, inner, q);
    var o, k, i := LaneO(q, n, inner), LaneK(q, n, inner), LaneI(q, inner);
    LaneAtIsLane(Tensor(x.shape, x.data[q := v]), d, p);
    LaneAtIsLane(x, d, p);
    SlotCoords(inner, o, i, p);
    LaneOfUpdate(x, d, o, k, i, v, p / inner, p % inner);
  }

  /** Lane number `p` is the lane at the outer and inner coordinates of `p`. */
  lemma {:induction false} LaneAtIsLane<T>(t: Tensor<T>, d: nat, p: nat)
    requires Valid(t) && d < |t.shape| && p < Outer(t.shape, d) * Inner(t.shape, d)
    ensures Inner(t.shape, d) > 0 && 0 <= p / Inner(t.shape, d) < Outer(t.shape, d) && 0 <= p % Inner(t.shape, d) < Inner(t.shape, d)
    ensures LaneAt(t, d, p) == Lane(t, d, p / Inner(t.shape, d), p % Inner(t.shape, d))
  {
    SlotRoundTrip(Outer(t.shape, d), Inner(t.shape, d), p);
  }

  /** The lane numbered by the slot of `(o, i)` is lane `(o, i)`. */
  lemma {:induction false} LaneAtSlot<T>(t: Tensor<T>, d: nat, o: nat, i: nat)
    requires Valid(t) && d < |t.shape| && o < Outer(t.shape, d) && i < Inner(t.shape, d)
    ensures Slot(Inner(t.shape, d), o, i) < Outer(t.shape, d) * Inner(t.shape, d)
    ensures LaneAt(t, d, Slot(Inner(t.shape, d), o, i)) == Lane(t, d, o, i)
  {
    SlotRoundTrips(Outer(t.shape, d), Inner(t.shape, d));
  }

  /** A reduction along axis `d`: every lane becomes the one element `f` of
      that lane. */
  function ReduceAxis<T, U>(t: Tensor<T>, d: nat, keepdim: bool, f: seq<T> -> U): (r: Tensor<U>)
    requires Valid(t) && d < |t.shape|
    ensures Valid(r) && r.shape == ReducedShape(t.shape, d, keepdim)
    ensures |r.data| == Outer(t.shape, d) * Inner(t.shape, d)
    ensures forall p {:trigger LaneAt(t, d, p)} :: 0 <= p < |r.data| ==> r.data[p] == f(LaneAt(t, d, p))
  {
    NumelReduced(t.shape, d, keepdim);
    var m := Outer(t.shape, d) * Inner(t.shape, d);
    Tensor(ReducedShape(t.shape, d, keepdim), seq(m, p requires 0 <= p < m => f(LaneAt(t, d, p))))
  }

  /** `expand_as`: a tensor whose axis `d` has size 1 broadcast along that
      axis to size `n`. Every element of lane `(o, i)` is the element the
      source holds for that lane. */
  function BroadcastAxis<T>(g: Tensor<T>, d: nat, n: nat): (r: Tensor<T>)
    requires Valid(g) && d < |g.shape| && g.shape[d] == 1
    ensures Valid(r) && r.shape == g.shape[d := n]
    ensures Outer(r.shape, d) == Outer(g.shape, d) && Inner(r.shape, d) == Inner(g.shape, d)
  {
    OuterInnerOfUpdate(g.shape, d, n);
    Tensor(g.shape[d := n], BroadcastTo(g, d, n, Numel(g.shape[d := n])))
  }

  /** The first `m` elements of the broadcast: each is the element of `g` in
      its lane. */
  function BroadcastTo<T>(g: Tensor<T>, d: nat, n: nat, m: nat): (r: seq<T>)
    requires Valid(g) && d < |g.shape| && g.shape[d] == 1 && m <= Numel(g.shape[d := n])
    ensures |r| == m
  {
    if m == 0 then []
    else
      BroadcastSlot(g, d, n, m - 1);
      BroadcastTo(g, d, n, m - 1) + [g.data[LaneSlot(g.shape[d := n], d, m - 1)]]
  }

  /** The lane of every position of the broadcast is an element of `g`. */
  lemma {:induction false} BroadcastSlot<T>(g: Tensor<T>, d: nat, n: nat, q: nat)
    requires Valid(g) && d < |g.shape| && g.shape[d] == 1 && q < Numel(g.shape[d := n])
    ensures LaneSlot(g.shape[d := n], d, q) < |g.data|
  {
    OuterInnerOfUpdate(g.shape, d, n);
    LaneOfPosition(g.shape[d := n], d, q);
    NumelSplit(g.shape, d);
  }

  lemma {:induction false} BroadcastToAt<T>(g: Tensor<T>, d: nat, n: nat, m: nat, q: nat)
    requires Valid(g) && d < |g.shape| && g.shape[d] == 1 && q < m <= Numel(g.shape[d := n])
    ensures LaneSlot(g.shape[d := n], d, q) < |g.data|
    ensures BroadcastTo(g, d, n, m)[q] == g.data[LaneSlot(g.shape[d := n], d, q)]
    decreases m
  {
    BroadcastSlot(g, d, n, q);
    if q < m - 1 {
      BroadcastToAt(g, d, n, m - 1, q);
    }
  }

  /** Element `q` of a broadcast holds the element of `g` in `q`'s lane. */
  lemma {:induction false} BroadcastAxisAt<T>(g: Tensor<T>, d: nat, n: nat, q: nat)
    requires Valid(g) && d < |g.shape| && g.shape[d] == 1 && q < Numel(g.shape[d := n])
    ensures LaneSlot(g.shape[d := n], d, q) < |g.data|
    ensures q < |BroadcastAxis(g, d, n).data|
    ensures BroadcastAxis(g, d, n).data[q] == g.data[LaneSlot(g.shape[d := n], d, q)]
  {
    BroadcastToAt(g, d, n, Numel(g.shape[d := n]), q);
  }

  /** On an axis of size 1 every element is its own lane, at position 0. */
  lemma {:induction false} LaneOfUnitAxis(s: seq<nat>, d: nat, q: nat)
    requires d < |s| && s[d] == 1 && q < Numel(s)
    ensures LaneSlot(s, d, q) == q && LanePos(s, d, q) == 0
  {
    var inner := Inner(s, d);
    NumelSplit(s, d);
    LaneRoundTrip(Outer(s, d), 1, inner, q);
    SlotIsOff(inner, LaneO(q, 1, inner), LaneI(q, inner));
  }

  // ---------------------------------------------------------------------------
  // Repetition

  /** Tiling along axis `d`: the axis, of size `m`, is repeated `times` times,
      so position `k` of the result holds position `k % m` of the source. */
  function Tile<T>(t: Tensor<T>, d: nat, times: nat): (r: Tensor<T>)
    requires Valid(t) && d < |t.shape|
    ensures Valid(r) && r.shape == t.shape[d := t.shape[d] * times]
    ensures Outer(r.shape, d) == Outer(t.shape, d) && Inner(r.shape, d) == Inner(t.shape, d)
    ensures forall o: nat, k: nat, i: nat ::
      o < Outer(t.shape, d) && k < t.shape[d] * times && i < Inner(t.shape, d) ==>
      && Off(t.shape[d] * times, Inner(t.shape, d), o, k, i) < |r.data|
      && Off(t.shape[d], Inner(t.shape, d), o, k % t.shape[d], i) < |t.data|
      && r.data[Off(t.shape[d] * times, Inner(t.shape, d), o, k, i)]
         == t.data[Off(t.shape[d], Inner(t.shape, d), o, k % t.shape[d], i)]
  {
    var m, outer, inner := t.shape[d], Outer(t.shape, d), Inner(t.shape, d);
    var n := m * times;
    OuterInnerOfUpdate(t.shape, d, n);
    NumelSplit(t.shape, d);
    OffRoundTrips(outer, m, inner);
    Tensor(t.shape[d := n], Build(outer, n, inner,
      (o: nat, k: nat, i: nat) requires o < outer && k < n && i < inner =>
        t.data[Off(m, inner, o, k % m, i)]))
  }

  /** `repeat(*reps)` with one count per axis: tiling along every axis in turn. */
  function Repeat<T>(t: Tensor<T>, reps: seq<nat>): (r: Tensor<T>)
    requires Valid(t) && |reps| == |t.shape|
    ensures Valid(r) && |r.shape| == |t.shape|
  {
    RepeatFrom(t, reps, 0)
  }

  function RepeatFrom<T>(t: Tensor<T>, reps: seq<nat>, j: nat): (r: Tensor<T>)
    requires Valid(t) && |reps| == |t.shape| && j <= |reps|
    ensures Valid(r) && |r.shape| == |t.shape|
    decreases |reps| - j
  {
    if j == |reps| then t else RepeatFrom(Tile(t, j, reps[j]), reps, j + 1)
  }

  /** Tiling an axis once changes nothing. */
  lemma {:induction false} TileOnce<T>(t: Tensor<T>, d: nat)
    requires Valid(t) && d < |t.shape|
    ensures Tile(t, d, 1) == t
  {
    var r := Tile(t, d, 1);
    var m, outer, inner := t.shape[d], Outer(t.shape, d), Inner(t.shape, d);
    assert r.shape == t.shape by {
      assert m * 1 == m;
    }
    NumelSplit(t.shape, d);
    forall o: nat, k: nat, i: nat | o < outer && k < m && i < inner
      ensures Off(m, inner, o, k, i) < |r.data| && r.data[Off(m, inner, o, k, i)] == t.data[Off(m, inner, o, k, i)]
    {
      TileOnceAt(t, d, o, k, i);
    }
    SameAtAllCoords(r.data, t.data, outer, m, inner);
  }

  lemma {:induction false} TileOnceAt<T>(t: Tensor<T>, d: nat, o: nat, k: nat, i: nat)
    requires Valid(t) && d < |t.shape|
    requires o < Outer(t.shape, d) && k < t.shape[d] && i < Inner(t.shape, d)
    ensures
      var r, q := Tile(t, d, 1), Off(t.shape[d], Inner(t.shape, d), o, k, i);
      q < |r.data| && q < |t.data| && r.data[q] == t.data[q]
  {
    var m := t.shape[d];
    assert m * 1 == m;
    DivModOf(0, k, m);
    assert k % m == k;
  }

  lemma {:induction false} RepeatFromOnes<T>(t: Tensor<T>, reps: seq<nat>, j: nat)
    requires Valid(t) && |reps| == |t.shape| && j <= |reps|
    requires forall a :: j <= a < |reps| ==> reps[a] == 1
    ensures RepeatFrom(t, reps, j) == t
    decreases |reps| - j
  {
    if j < |reps| {
      TileOnce(t, j);
      RepeatFromOnes(t, reps, j + 1);
    }
  }

  lemma {:induction false} RepeatFromSingle<T>(t: Tensor<T>, reps: seq<nat>, d: nat, j: nat)
    requires Valid(t) && |reps| == |t.shape| && j <= d < |reps|
    requires forall a :: 0 <= a < |reps| && a != d ==> reps[a] == 1
    ensures RepeatFrom(t, reps, j) == Tile(t, d, reps[d])
    decreases |reps| - j
  {
    if j < d {
      TileOnce(t, j);
      RepeatFromSingle(t, reps, d, j + 1);
    } else {
      RepeatFromOnes(Tile(t, d, reps[d]), reps, d + 1);
    }
  }

  /** Repeating with count 1 on every axis but `d` tiles along `d` alone. */
  lemma {:induction false} RepeatSingleAxis<T>(t: Tensor<T>, reps: seq<nat>, d: nat)
    requires Valid(t) && |reps| == |t.shape| && d < |reps|
    requires forall a :: 0 <= a < |reps| && a != d ==> reps[a] == 1
    ensures Repeat(t, reps) == Tile(t, d, reps[d])
  {
    RepeatFromSingle(t, reps, d, 0);
  }

  /** Tiling an axis of size 1 `n` times puts element `(o, 0, i)` at every
      position `(o, k, i)`. */
  lemma {:induction false} TileUnitCoords<T>(g: Tensor<T>, d: nat, n: nat)
    requires Valid(g) && d < |g.shape| && g.shape[d] == 1
    ensures forall o: nat, k: nat, i: nat :: o < Outer(g.shape, d) && k < n && i < Inner(g.shape, d) ==>
      && Off(n, Inner(g.shape, d), o, k, i) < |Tile(g, d, n).data| && Slot(Inner(g.shape, d), o, i) < |g.data|
      && Tile(g, d, n).data[Off(n, Inner(g.shape, d), o, k, i)] == g.data[Slot(Inner(g.shape, d), o, i)]
  {
    forall o: nat, k: nat, i: nat | o < Outer(g.shape, d) && k < n && i < Inner(g.shape, d)
      ensures && Off(n, Inner(g.shape, d), o, k, i) < |Tile(g, d, n).data| && Slot(Inner(g.shape, d), o, i) < |g.data|
              && Tile(g, d, n).data[Off(n, Inner(g.shape, d), o, k, i)] == g.data[Slot(Inner(g.shape, d), o, i)]
    {
      TileUnitAt(g, d, n, o, k, i);
    }
  }

  lemma {:induction false} TileUnitAt<T>(g: Tensor<T>, d: nat, n: nat, o: nat, k: nat, i: nat)
    requires Valid(g) && d < |g.shape| && g.shape[d] == 1
    requires o < Outer(g.shape, d) && k < n && i < Inner(g.shape, d)
    ensures Off(n, Inner(g.shape, d), o, k, i) < |Tile(g, d, n).data| && Slot(Inner(g.shape, d), o, i) < |g.data|
    ensures Tile(g, d, n).data[Off(n, Inner(g.shape, d), o, k, i)] == g.data[Slot(Inner(g.shape, d), o, i)]
  {
    assert g.shape[d] * n == n;
    assert k % 1 == 0;
    SlotIsOff(Inner(g.shape, d), o, i);
  }

  // ---------------------------------------------------------------------------
  // Element-wise arithmetic

  /** Element-wise product of two tensors of one shape (`mul`). */
  function Mul(a: Tensor<real>, b: Tensor<real>): (r: Tensor<real>)
    requires Valid(a) && b.shape == a.shape && Valid(b)
    ensures Valid(r) && r.shape == a.shape
    ensures forall q :: 0 <= q < |r.data| ==> r.data[q] == Times(a.data[q], b.data[q])
  {
    Tensor(a.shape, seq(|a.data|, q requires 0 <= q < |a.data| => a.data[q] * b.data[q]))
  }

  /** Element-wise quotient (`div`); the divisor holds no zero. */
  function Div(a: Tensor<real>, b: Tensor<real>): (r: Tensor<real>)
    requires Valid(a) && b.shape == a.shape && Valid(b)
    requires forall q :: 0 <= q < |b.data| ==> b.data[q] != 0.0
    ensures Valid(r) && r.shape == a.shape
    ensures forall q :: 0 <= q < |r.data| ==> r.data[q] == Over(a.data[q], b.data[q])
  {
    Tensor(a.shape, seq(|a.data|, q requires 0 <= q < |a.data| => a.data[q] / b.data[q]))
  }

  /** Every element divided by the count `c` (`div_(c)`); `c` is zero only
      when there is nothing to divide. */
  function DivScalar(t: Tensor<real>, c: nat): (r: Tensor<real>)
    requires Valid(t) && (c == 0 ==> |t.data| == 0)
    ensures Valid(r) && r.shape == t.shape
    ensures forall q :: 0 <= q < |r.data| ==> r.data[q] == t.data[q] / c as real
  {
    Tensor(t.shape, seq(|t.data|, q requires 0 <= q < |t.data| => t.data[q] / c as real))
  }
}
