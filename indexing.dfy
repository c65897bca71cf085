/** Row-major index arithmetic for tensors stored as one flat sequence.

    A tensor of shape `s` keeps its elements in row-major order (the last axis
    varies fastest). Looking at one axis `d` of size `n`, every flat position
    splits into three coordinates: `o` over the axes before `d` (there are
    `outer` such combinations), `k` along `d`, and `i` over the axes after `d`
    (`inner` combinations). The flat position is then `(o * n + k) * inner + i`.
    This module proves once that this is a bijection, so that the tensor
    operations can be stated coordinate by coordinate. */
module Indexing {

  /** Number of elements of a tensor of shape `s`: the product of its sizes. */
  function Numel(s: seq<nat>): nat
  {
    if |s| == 0 then 1 else s[0] * Numel(s[1..])
  }

  /** Number of index combinations over the axes before `d`. */
  function Outer(s: seq<nat>, d: nat): nat
    requires d < |s|
  {
    Numel(s[..d])
  }

  /** Number of index combinations over the axes after `d`. */
  function Inner(s: seq<nat>, d: nat): nat
    requires d < |s|
  {
    Numel(s[d + 1..])
  }

  lemma {:induction false} MulAssoc(a: nat, b: nat, c: nat)
    ensures a * (b * c) == (a * b) * c
  {
  }

  lemma {:induction false} NumelConcat(a: seq<nat>, b: seq<nat>)
    ensures Numel(a + b) == Numel(a) * Numel(b)
  {
    if |a| == 0 {
      assert a + b == b;
    } else {
      assert (a + b)[1..] == a[1..] + b;
      NumelConcat(a[1..], b);
      MulAssoc(a[0], Numel(a[1..]), Numel(b));
    }
  }

  /** The element count splits around any axis. */
  lemma {:induction false} NumelSplit(s: seq<nat>, d: nat)
    requires d < |s|
    ensures Numel(s) == Outer(s, d) * s[d] * Inner(s, d)
  {
    assert s == s[..d] + ([s[d]] + s[d + 1..]);
    NumelConcat(s[..d], [s[d]] + s[d + 1..]);
    assert ([s[d]] + s[d + 1..])[1..] == s[d + 1..];
    MulAssoc(Outer(s, d), s[d], Inner(s, d));
  }

  /** A shape with elements has no axis of size 0. */
  lemma {:induction false} NumelPositive(s: seq<nat>, d: nat)
    requires d < |s| && Numel(s) > 0
    ensures Outer(s, d) > 0 && s[d] > 0 && Inner(s, d) > 0
  {
    NumelSplit(s, d);
    MulPositive(Outer(s, d), s[d], Inner(s, d));
  }

  lemma {:induction false} MulPositive(a: nat, b: nat, c: nat)
    requires a * b * c > 0
    ensures a > 0 && b > 0 && c > 0
  {
    ZeroFactor(a, b, c);
  }

  lemma {:induction false} ZeroFactor(a: nat, b: nat, c: nat)
    ensures a == 0 || b == 0 || c == 0 ==> a * b * c == 0
  {
    if a == 0 || b == 0 {
      assert a * b == 0;
    }
  }

  /** Replacing the size of axis `d` changes neither `Outer` nor `Inner`. */
  lemma {:induction false} OuterInnerOfUpdate(s: seq<nat>, d: nat, m: nat)
    requires d < |s|
    ensures Outer(s[d := m], d) == Outer(s, d)
    ensures Inner(s[d := m], d) == Inner(s, d)
    ensures Numel(s[d := m]) == Outer(s, d) * m * Inner(s, d)
  {
    assert s[d := m][..d] == s[..d];
    assert s[d := m][d + 1..] == s[d + 1..];
    NumelSplit(s[d := m], d);
  }

  /** Removing axis `d` leaves `Outer * Inner` elements. */
  lemma {:induction false} NumelRemoved(s: seq<nat>, d: nat)
    requires d < |s|
    ensures Numel(s[..d] + s[d + 1..]) == Outer(s, d) * Inner(s, d)
  {
    NumelConcat(s[..d], s[d + 1..]);
  }

  // ---------------------------------------------------------------------------
  // Division and remainder facts

  lemma {:induction false} MulMono(a: nat, b: nat, c: nat)
    requires a <= b
    ensures a * c <= b * c
  {
  }

  /** Quotient and remainder of `a * d + b` by `d` are `a` and `b`. */
  lemma {:induction false} DivModOf(a: nat, b: nat, d: nat)
    requires b < d
    ensures (a * d + b) / d == a
    ensures (a * d + b) % d == b
  {
    var x := a * d + b;
    var q, r := x / d, x % d;
    assert x == q * d + r;
    if q > a {
      MulMono(a + 1, q, d);
    } else if q < a {
      MulMono(q + 1, a, d);
    }
  }

  /** A position below `a * b` has quotient by `b` below `a`. */
  lemma {:induction false} DivBelow(q: nat, a: nat, b: nat)
    requires q < a * b
    ensures b > 0
    ensures q / b < a
  {
    if q / b >= a {
      MulMono(a, q / b, b);
    }
  }

  // ---------------------------------------------------------------------------
  // The (outer, n, inner) view of one axis

  /** Flat position of coordinates `(o, k, i)` along an axis of size `n`. */
  function Off(n: nat, inner: nat, o: nat, k: nat, i: nat): nat
  {
    (o * n + k) * inner + i
  }

  /** Coordinate before the axis, of flat position `q`. */
  function LaneO(q: nat, n: nat, inner: nat): nat
  {
    if n == 0 || inner == 0 then 0 else (q / inner) / n
  }

  /** Coordinate along the axis, of flat position `q`. */
  function LaneK(q: nat, n: nat, inner: nat): nat
  {
    if n == 0 || inner == 0 then 0 else (q / inner) % n
  }

  /** Coordinate after the axis, of flat position `q`. */
  function LaneI(q: nat, inner: nat): nat
  {
    if inner == 0 then 0 else q % inner
  }

  /** Coordinates in range give a flat position in range, from which they are
      recovered. */
  lemma {:induction false} OffRoundTrip(outer: nat, n: nat, inner: nat, o: nat, k: nat, i: nat)
    requires o < outer && k < n && i < inner
    ensures Off(n, inner, o, k, i) < outer * n * inner
    ensures LaneO(Off(n, inner, o, k, i), n, inner) == o
    ensures LaneK(Off(n, inner, o, k, i), n, inner) == k
    ensures LaneI(Off(n, inner, o, k, i), inner) == i
  {
    var q := Off(n, inner, o, k, i);
    MulMono(o + 1, outer, n);
    MulMono(o * n + k + 1, outer * n, inner);
    DivModOf(o * n + k, i, inner);
    DivModOf(o, k, n);
  }

  lemma {:induction false} OffRoundTrips(outer: nat, n: nat, inner: nat)
    ensures forall o: nat, k: nat, i: nat :: o < outer && k < n && i < inner ==>
      && Off(n, inner, o, k, i) < outer * n * inner
      && LaneO(Off(n, inner, o, k, i), n, inner) == o
      && LaneK(Off(n, inner, o, k, i), n, inner) == k
      && LaneI(Off(n, inner, o, k, i), inner) == i
  {
    forall o: nat, k: nat, i: nat | o < outer && k < n && i < inner
      ensures && Off(n, inner, o, k, i) < outer * n * inner
              && LaneO(Off(n, inner, o, k, i), n, inner) == o
              && LaneK(Off(n, inner, o, k, i), n, inner) == k
              && LaneI(Off(n, inner, o, k, i), inner) == i
    {
      OffRoundTrip(outer, n, inner, o, k, i);
    }
  }

  /** Every flat position in range is the position of its own coordinates. */
  lemma {:induction false} LaneRoundTrip(outer: nat, n: nat, inner: nat, q: nat)
    requires q < outer * n * inner
    ensures LaneO(q, n, inner) < outer && LaneK(q, n, inner) < n && LaneI(q, inner) < inner
    ensures Off(n, inner, LaneO(q, n, inner), LaneK(q, n, inner), LaneI(q, inner)) == q
  {
    MulAssoc(outer, n, inner);
    assert q < (outer * n) * inner;
    DivBelow(q, outer * n, inner);
    DivBelow(q / inner, outer, n);
    assert q == (q / inner) * inner + q % inner;
    assert q / inner == ((q / inner) / n) * n + (q / inner) % n;
  }

  lemma {:induction false} LaneRoundTrips(outer: nat, n: nat, inner: nat)
    ensures forall q: nat :: q < outer * n * inner ==>
      && LaneO(q, n, inner) < outer && LaneK(q, n, inner) < n && LaneI(q, inner) < inner
      && Off(n, inner, LaneO(q, n, inner), LaneK(q, n, inner), LaneI(q, inner)) == q
  {
    forall q: nat | q < outer * n * inner
      ensures && LaneO(q, n, inner) < outer && LaneK(q, n, inner) < n && LaneI(q, inner) < inner
              && Off(n, inner, LaneO(q, n, inner), LaneK(q, n, inner), LaneI(q, inner)) == q
    {
      LaneRoundTrip(outer, n, inner, q);
    }
  }

  /** Two flat sequences agree when they agree at every coordinate triple. */
  lemma {:induction false} SameAtAllCoords<T>(a: seq<T>, b: seq<T>, outer: nat, n: nat, inner: nat)
    requires |a| == outer * n * inner && |b| == outer * n * inner
    requires forall o: nat, k: nat, i: nat :: o < outer && k < n && i < inner ==>
      Off(n, inner, o, k, i) < |a| && a[Off(n, inner, o, k, i)] == b[Off(n, inner, o, k, i)]
    ensures a == b
  {
    forall q | 0 <= q < |a| ensures a[q] == b[q] {
      LaneRoundTrip(outer, n, inner, q);
    }
  }

  /** A flat sequence given element by element is also given coordinate by
      coordinate. */
  lemma {:induction false} ByCoords<T>(outer: nat, n: nat, inner: nat, f: (nat, nat, nat) --> T, r: seq<T>)
    requires forall o: nat, k: nat, i: nat :: o < outer && k < n && i < inner ==> f.requires(o, k, i)
    requires |r| == outer * n * inner
    requires forall q: nat :: q < |r| ==>
      && LaneO(q, n, inner) < outer && LaneK(q, n, inner) < n && LaneI(q, inner) < inner
      && r[q] == f(LaneO(q, n, inner), LaneK(q, n, inner), LaneI(q, inner))
    ensures forall o: nat, k: nat, i: nat :: o < outer && k < n && i < inner ==>
      Off(n, inner, o, k, i) < |r| && r[Off(n, inner, o, k, i)] == f(o, k, i)
  {
    forall o: nat, k: nat, i: nat | o < outer && k < n && i < inner
      ensures Off(n, inner, o, k, i) < |r| && r[Off(n, inner, o, k, i)] == f(o, k, i)
    {
      OffRoundTrip(outer, n, inner, o, k, i);
    }
  }

  /** The flat sequence whose element at coordinates `(o, k, i)` is `f(o, k, i)`. */
  function Build<T>(outer: nat, n: nat, inner: nat, f: (nat, nat, nat) --> T): (r: seq<T>)
    requires forall o: nat, k: nat, i: nat :: o < outer && k < n && i < inner ==> f.requires(o, k, i)
    ensures |r| == outer * n * inner
    ensures forall o: nat, k: nat, i: nat :: o < outer && k < n && i < inner ==>
      Off(n, inner, o, k, i) < |r| && r[Off(n, inner, o, k, i)] == f(o, k, i)
  {
    LaneRoundTrips(outer, n, inner);
    var r := seq(outer * n * inner, q requires 0 <= q < outer * n * inner =>
      f(LaneO(q, n, inner), LaneK(q, n, inner), LaneI(q, inner)));
    ByCoords(outer, n, inner, f, r);
    r
  }

  // ---------------------------------------------------------------------------
  // The (outer, inner) view of a tensor whose axis has been reduced

  /** Flat position of lane `(o, i)` in a tensor whose reduced axis has size 1
      or has been removed. */
  function Slot(inner: nat, o: nat, i: nat): nat
  {
    o * inner + i
  }

  lemma {:induction false} SlotIsOff(inner: nat, o: nat, i: nat)
    ensures Slot(inner, o, i) == Off(1, inner, o, 0, i)
  {
  }

  lemma {:induction false} SlotRoundTrips(outer: nat, inner: nat)
    ensures forall o: nat, i: nat :: o < outer && i < inner ==>
      && Slot(inner, o, i) < outer * inner
      && Slot(inner, o, i) / inner == o
      && Slot(inner, o, i) % inner == i
  {
    forall o: nat, i: nat | o < outer && i < inner
      ensures && Slot(inner, o, i) < outer * inner
              && Slot(inner, o, i) / inner == o
              && Slot(inner, o, i) % inner == i
    {
      MulMono(o + 1, outer, inner);
      DivModOf(o, i, inner);
    }
  }

  lemma {:induction false} SlotRoundTrip(outer: nat, inner: nat, q: nat)
    requires q < outer * inner
    ensures inner > 0 && q / inner < outer && Slot(inner, q / inner, q % inner) == q
  {
    DivBelow(q, outer, inner);
  }

  /** A flat position is the slot of `(o, i)` exactly when `o` and `i` are its
      coordinates. */
  lemma {:induction false} SlotCoords(inner: nat, o: nat, i: nat, p: nat)
    requires i < inner
    ensures p == Slot(inner, o, i) <==> p / inner == o && p % inner == i
  {
    if p == Slot(inner, o, i) {
      DivModOf(o, i, inner);
    }
  }

  // ---------------------------------------------------------------------------
  // Full row-major coordinates

  /** `c` is a coordinate tuple inside shape `s`. */
  predicate InBounds(s: seq<nat>, c: seq<nat>)
  {
    |c| == |s| && forall j :: 0 <= j < |s| ==> c[j] < s[j]
  }

  /** Row-major flat position of the coordinate tuple `c` in shape `s`. */
  function FlatIndex(s: seq<nat>, c: seq<nat>): nat
    requires |c| == |s|
  {
    if |s| == 0 then 0 else c[0] * Numel(s[1..]) + FlatIndex(s[1..], c[1..])
  }

  /** Coordinate tuple of the row-major flat position `p` in shape `s`. */
  function Coords(s: seq<nat>, p: nat): (c: seq<nat>)
    ensures |c| == |s|
  {
    if |s| == 0 then []
    else if Numel(s[1..]) == 0 then [0] + Coords(s[1..], 0)
    else [p / Numel(s[1..])] + Coords(s[1..], p % Numel(s[1..]))
  }

  lemma {:induction false} FlatIndexInRange(s: seq<nat>, c: seq<nat>)
    requires InBounds(s, c)
    ensures FlatIndex(s, c) < Numel(s)
  {
    if |s| > 0 {
      assert InBounds(s[1..], c[1..]) by {
        forall j | 0 <= j < |s| - 1 ensures c[1..][j] < s[1..][j] {
          assert c[1..][j] == c[j + 1];
        }
      }
      FlatIndexInRange(s[1..], c[1..]);
      RowBound(c[0], s[0], Numel(s[1..]), FlatIndex(s[1..], c[1..]));
    }
  }

  /** Row `a` of `b` rows of width `m`, at column `r`, lies inside. */
  lemma {:induction false} RowBound(a: nat, b: nat, m: nat, r: nat)
    requires a < b && r < m
    ensures a * m + r < b * m
  {
    MulMono(a + 1, b, m);
  }

  /** Flat position -> coordinates -> flat position is the identity. */
  lemma {:induction false} CoordsRoundTrip(s: seq<nat>, p: nat)
    requires p < Numel(s)
    ensures InBounds(s, Coords(s, p))
    ensures FlatIndex(s, Coords(s, p)) == p
  {
    if |s| > 0 {
      var m := Numel(s[1..]);
      var hi, lo := QuotRem(p, s[0], m);
      var c := Coords(s, p);
      assert c == [hi] + Coords(s[1..], lo);
      assert c[1..] == Coords(s[1..], lo);
      CoordsRoundTrip(s[1..], lo);
      forall j | 0 <= j < |s| ensures c[j] < s[j] {
        if j > 0 {
          assert c[j] == c[1..][j - 1];
        }
      }
    }
  }

  /** Quotient and remainder of a position below `a * m` by `m`. */
  lemma {:induction false} QuotRem(p: nat, a: nat, m: nat) returns (hi: nat, lo: nat)
    requires p < a * m
    ensures m > 0 && hi == p / m && lo == p % m
    ensures hi < a && lo < m && hi * m + lo == p
  {
    DivBelow(p, a, m);
    hi, lo := p / m, p % m;
  }

  /** Coordinates -> flat position -> coordinates is the identity. */
  lemma {:induction false} FlatIndexRoundTrip(s: seq<nat>, c: seq<nat>)
    requires InBounds(s, c)
    ensures Coords(s, FlatIndex(s, c)) == c
  {
    if |s| > 0 {
      assert InBounds(s[1..], c[1..]) by {
        forall j | 0 <= j < |s| - 1 ensures c[1..][j] < s[1..][j] {
          assert c[1..][j] == c[j + 1];
        }
      }
      FlatIndexInRange(s[1..], c[1..]);
      FlatIndexRoundTrip(s[1..], c[1..]);
      var m := Numel(s[1..]);
      DivModOf(c[0], FlatIndex(s[1..], c[1..]), m);
      assert c == [c[0]] + c[1..];
    }
  }
}
