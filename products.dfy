/** One-dimensional product algebra behind the gradient of a product.

    Every along-axis operation that the product's backward rule uses (narrow,
    concatenation, cumulative product, reversal by index selection) acts on
    each lane of the axis independently. This module models them on one lane,
    a `seq<real>` of exact numbers, and proves what the
    exclusive-cumulative-product construction computes: the product of all
    the other elements. */
module Products {

  /** Product of the elements at positions `lo` to `hi - 1` (1 when empty). */
  function ProdRange(s: seq<real>, lo: nat, hi: nat): real
    requires lo <= hi <= |s|
    decreases hi - lo
  {
    if lo == hi then 1.0 else ProdRange(s, lo, hi - 1) * s[hi - 1]
  }

  /** Product of all elements (`prod()`; 1 for the empty lane). */
  function Prod(s: seq<real>): real
  {
    ProdRange(s, 0, |s|)
  }

  /** Product of every element except the one at `k` (the product of those
      before it times the product of those after it): the partial derivative
      of `Prod(s)` with respect to `s[k]`. */
  function ProdExcept(s: seq<real>, k: nat): real
    requires k < |s|
  {
    ProdRange(s, 0, k) * ProdRange(s, k + 1, |s|)
  }

  /** Multiplication as a named function. Element-wise facts about tensors
      state their products with it, so that a factor proved equal to another
      term can be replaced inside the product. */
  function Times(a: real, b: real): real
  {
    a * b
  }

  /** Division by a nonzero number as a named function, for the same
      reason. */
  function Over(a: real, b: real): real
    requires b != 0.0
  {
    a / b
  }

  /** The chain rule at element `k` of a product that received the upstream
      gradient `c`: `c` times the partial derivative, the product of the
      other elements. */
  function Partial(c: real, s: seq<real>, k: nat): real
    requires k < |s|
  {
    Times(c, ProdExcept(s, k))
  }

  lemma {:induction false} Assoc(a: real, b: real, c: real)
    ensures a * (b * c) == a * b * c
  {
  }

  /** A range's product splits at any point inside it. */
  lemma {:induction false} ProdRangeSplit(s: seq<real>, lo: nat, mid: nat, hi: nat)
    requires lo <= mid <= hi <= |s|
    ensures ProdRange(s, lo, hi) == ProdRange(s, lo, mid) * ProdRange(s, mid, hi)
    decreases hi - mid
  {
    if mid < hi {
      ProdRangeSplit(s, lo, mid, hi - 1);
      Assoc(ProdRange(s, lo, mid), ProdRange(s, mid, hi - 1), s[hi - 1]);
    }
  }

  /** Two ranges holding the same elements have the same product. */
  lemma {:induction false} ProdRangeSame(a: seq<real>, la: nat, b: seq<real>, lb: nat, len: nat)
    requires la + len <= |a| && lb + len <= |b|
    requires forall i :: la <= i < la + len ==> a[i] == b[i - la + lb]
    ensures ProdRange(a, la, la + len) == ProdRange(b, lb, lb + len)
  {
    if len > 0 {
      ProdRangeSame(a, la, b, lb, len - 1);
      assert a[la + len - 1] == b[lb + len - 1];
    }
  }

  /** A nonempty range's product is its first element times the rest. */
  lemma {:induction false} ProdRangeFront(s: seq<real>, lo: nat, hi: nat)
    requires lo < hi <= |s|
    ensures ProdRange(s, lo, hi) == s[lo] * ProdRange(s, lo + 1, hi)
  {
    ProdRangeSplit(s, lo, lo + 1, hi);
    assert ProdRange(s, lo, lo + 1) == s[lo];
  }

  lemma {:induction false} Assoc3(p: real, a: real, c: real, x: real, b: real)
    requires p == a * c && c == x * b
    ensures p == a * x * b
  {
  }

  /** The product factors around any position. */
  lemma {:induction false} ProdAround(s: seq<real>, k: nat)
    requires k < |s|
    ensures Prod(s) == ProdRange(s, 0, k) * s[k] * ProdRange(s, k + 1, |s|)
  {
    ProdRangeSplit(s, 0, k, |s|);
    ProdRangeFront(s, k, |s|);
    Assoc3(Prod(s), ProdRange(s, 0, k), ProdRange(s, k, |s|), s[k], ProdRange(s, k + 1, |s|));
  }

  /** The only element of a one-element lane has no others: the product of
      the others is the empty product. */
  lemma {:induction false} ProdExceptSingle(s: seq<real>)
    requires |s| == 1
    ensures ProdExcept(s, 0) == 1.0
  {
  }

  /** On a lane of one element the chain rule passes the upstream gradient
      through unchanged. */
  lemma {:induction false} PartialOfSingle(c: real, s: seq<real>)
    requires |s| == 1
    ensures Partial(c, s, 0) == c
  {
    ProdExceptSingle(s);
  }

  /** Dividing a product by one of its nonzero factors leaves the others. */
  lemma {:induction false} FactorOut(g: real, a: real, x: real, b: real)
    requires x != 0.0
    ensures g * (a * x * b) / x == g * (a * b)
  {
    assert g * (a * x * b) == (g * (a * b)) * x;
  }

  /** The quotient rule agrees with the product of the others wherever the
      element itself is not zero. */
  lemma {:induction false} ClosedFormIsProdExcept(s: seq<real>, k: nat, g: real)
    requires k < |s| && s[k] != 0.0
    ensures Over(Times(g, Prod(s)), s[k]) == Partial(g, s, k)
  {
    var a, b := ProdRange(s, 0, k), ProdRange(s, k + 1, |s|);
    ProdAround(s, k);
    assert Times(g, Prod(s)) == g * (a * s[k] * b);
    FactorOut(g, a, s[k], b);
    assert Partial(g, s, k) == g * (a * b);
  }

  /** Adding `h` to the element at `k` adds `h` times the product of the
      others: the product is linear in each element. */
  lemma {:induction false} ProdBump(s: seq<real>, k: nat, h: real)
    requires k < |s|
    ensures Prod(s[k := s[k] + h]) == Prod(s) + Times(h, ProdExcept(s, k))
  {
    var s' := s[k := s[k] + h];
    ProdAround(s, k);
    ProdAround(s', k);
    ProdRangeSame(s', 0, s, 0, k);
    ProdRangeSame(s', k + 1, s, k + 1, |s| - k - 1);
    Distribute(ProdRange(s, 0, k), s[k], h, ProdRange(s, k + 1, |s|));
  }

  /** The chain rule's value times a step `h` is the upstream gradient
      times the change `h` makes to the product. */
  lemma {:induction false} PartialStep(c: real, s: seq<real>, k: nat, h: real)
    requires k < |s|
    ensures Times(Partial(c, s, k), h) == Times(c, Times(h, ProdExcept(s, k)))
  {
  }

  lemma {:induction false} Distribute(a: real, x: real, h: real, b: real)
    ensures a * (x + h) * b == a * x * b + h * (a * b)
  {
  }

  // ---------------------------------------------------------------------------
  // Zeros

  /** Number of zero elements among the first `n`. */
  function ZerosTo(s: seq<real>, n: nat): nat
    requires n <= |s|
  {
    if n == 0 then 0 else ZerosTo(s, n - 1) + (if s[n - 1] == 0.0 then 1 else 0)
  }

  /** Number of zero elements (the length of `(input == 0).nonzero()`). */
  function CountZeros(s: seq<real>): nat
  {
    ZerosTo(s, |s|)
  }

  /** No zero is counted exactly when no element is zero. */
  lemma {:induction false} NoZerosTo(s: seq<real>, n: nat)
    requires n <= |s|
    ensures ZerosTo(s, n) == 0 <==> forall k :: 0 <= k < n ==> s[k] != 0.0
  {
    if n > 0 {
      NoZerosTo(s, n - 1);
    }
  }

  lemma {:induction false} NoZerosIff(s: seq<real>)
    ensures CountZeros(s) == 0 <==> forall k :: 0 <= k < |s| ==> s[k] != 0.0
  {
    NoZerosTo(s, |s|);
  }

  /** Two zeros at different positions are each counted. */
  lemma {:induction false} TwoZerosCounted(s: seq<real>, n: nat, j: nat, k: nat)
    requires n <= |s| && j < n && k < n && j != k && s[j] == 0.0 && s[k] == 0.0
    ensures ZerosTo(s, n) > 1
  {
    if n - 1 != j && n - 1 != k {
      TwoZerosCounted(s, n - 1, j, k);
    } else {
      var other := if n - 1 == j then k else j;
      ZeroCounted(s, n - 1, other);
    }
  }

  /** A zero among the first `n` is counted. */
  lemma {:induction false} ZeroCounted(s: seq<real>, n: nat, j: nat)
    requires n <= |s| && j < n && s[j] == 0.0
    ensures ZerosTo(s, n) > 0
  {
    if j < n - 1 {
      ZeroCounted(s, n - 1, j);
    }
  }

  /** Zeros at most at `k` are counted at most once. */
  lemma {:induction false} ZerosOnlyAt(s: seq<real>, n: nat, k: nat)
    requires n <= |s|
    requires forall j :: 0 <= j < n && j != k ==> s[j] != 0.0
    ensures ZerosTo(s, n) <= 1
    ensures k >= n ==> ZerosTo(s, n) == 0
  {
    if n > 0 {
      ZerosOnlyAt(s, n - 1, k);
    }
  }

  /** A product with a zero factor vanishes; one without does not. */
  lemma {:induction false} ProdRangeZeroIff(s: seq<real>, lo: nat, hi: nat)
    requires lo <= hi <= |s|
    ensures ProdRange(s, lo, hi) == 0.0 <==> exists j :: lo <= j < hi && s[j] == 0.0
    decreases hi - lo
  {
    if lo < hi {
      ProdRangeZeroIff(s, lo, hi - 1);
      ZeroProduct(ProdRange(s, lo, hi - 1), s[hi - 1]);
      if ProdRange(s, lo, hi) == 0.0 && ProdRange(s, lo, hi - 1) != 0.0 {
        assert s[hi - 1] == 0.0;
      }
    }
  }

  lemma {:induction false} ZeroProduct(a: real, b: real)
    ensures a * b == 0.0 <==> a == 0.0 || b == 0.0
  {
  }

  /** The product of the others vanishes exactly when another element is
      zero. */
  lemma {:induction false} ProdExceptZeroIff(s: seq<real>, k: nat)
    requires k < |s|
    ensures ProdExcept(s, k) == 0.0 <==> exists j :: 0 <= j < |s| && j != k && s[j] == 0.0
  {
    ProdRangeZeroIff(s, 0, k);
    ProdRangeZeroIff(s, k + 1, |s|);
    ZeroProduct(ProdRange(s, 0, k), ProdRange(s, k + 1, |s|));
  }

  /** With two or more zeros every partial derivative of the product is zero. */
  lemma {:induction false} ManyZerosKillEveryPartial(s: seq<real>, k: nat, c: real)
    requires k < |s| && CountZeros(s) > 1
    ensures ProdExcept(s, k) == 0.0 && Partial(c, s, k) == 0.0
  {
    ProdExceptZeroIff(s, k);
    if forall j :: 0 <= j < |s| && j != k ==> s[j] != 0.0 {
      ZerosOnlyAt(s, |s|, k);
    }
  }

  /** With exactly one zero, at position `z`, the partial derivative is zero
      everywhere but at `z`, where it is the nonzero product of the others. */
  lemma {:induction false} OneZeroPartials(s: seq<real>, z: nat, k: nat)
    requires z < |s| && k < |s| && s[z] == 0.0 && CountZeros(s) == 1
    ensures ProdExcept(s, k) == 0.0 <==> k != z
  {
    ProdExceptZeroIff(s, k);
    if k == z {
      forall j | 0 <= j < |s| && j != k ensures s[j] != 0.0 {
        if s[j] == 0.0 {
          TwoZerosCounted(s, |s|, j, z);
        }
      }
    }
  }

  // ---------------------------------------------------------------------------
  // The cumulative product and reversal, on one lane

  /** The running products of the first `n` elements: element `k` is the
      product of the first `k + 1`. */
  function CumProdTo(s: seq<real>, n: nat): (r: seq<real>)
    requires n <= |s|
    ensures |r| == n
  {
    if n == 0 then [] else CumProdTo(s, n - 1) + [ProdRange(s, 0, n)]
  }

  /** Inclusive cumulative product along the lane (`cumprod`). */
  function CumProd(s: seq<real>): (r: seq<real>)
    ensures |r| == |s|
  {
    CumProdTo(s, |s|)
  }

  lemma {:induction false} CumProdToAt(s: seq<real>, n: nat, k: nat)
    requires k < n <= |s|
    ensures CumProdTo(s, n)[k] == ProdRange(s, 0, k + 1)
  {
    if k < n - 1 {
      CumProdToAt(s, n - 1, k);
    }
  }

  /** Element `k` of the cumulative product multiplies the first `k + 1`
      elements. */
  lemma {:induction false} CumProdAt(s: seq<real>, k: nat)
    requires k < |s|
    ensures CumProd(s)[k] == ProdRange(s, 0, k + 1)
  {
    CumProdToAt(s, |s|, k);
  }

  /** The first `m` elements of the reversal of `s`: `s[n - 1], ...,
      s[n - m]`. */
  function ReverseTo(s: seq<real>, m: nat): (r: seq<real>)
    requires m <= |s|
    ensures |r| == m
  {
    if m == 0 then [] else ReverseTo(s, m - 1) + [s[|s| - m]]
  }

  lemma {:induction false} ReverseToAt(s: seq<real>, m: nat, j: nat)
    requires j < m <= |s|
    ensures ReverseTo(s, m)[j] == s[|s| - 1 - j]
  {
    if j < m - 1 {
      ReverseToAt(s, m - 1, j);
    }
  }

  /** Reversal of the lane (`reverse_dim`, which selects the positions
      `n - 1, ..., 0` in turn). */
  function ReverseLane(s: seq<real>): (r: seq<real>)
    ensures |r| == |s|
  {
    ReverseTo(s, |s|)
  }

  /** Element `j` of the reversed lane is element `n - 1 - j` of the lane. */
  lemma {:induction false} ReverseLaneAt(s: seq<real>, j: nat)
    requires j < |s|
    ensures ReverseLane(s)[j] == s[|s| - 1 - j]
  {
    ReverseToAt(s, |s|, j);
  }

  /** The first `m` elements of the reversed lane multiply to the last `m`
      elements of the lane. */
  lemma {:induction false} ProdReversePrefix(s: seq<real>, m: nat)
    requires m <= |s|
    ensures ProdRange(ReverseLane(s), 0, m) == ProdRange(s, |s| - m, |s|)
  {
    if m > 0 {
      var n := |s|;
      ProdReversePrefix(s, m - 1);
      ReverseLaneAt(s, m - 1);
      ProdRangeSplit(s, n - m, n - m + 1, n);
      assert ProdRange(s, n - m, n - m + 1) == s[n - m];
      Commute(ProdRange(s, n - m + 1, n), s[n - m]);
    }
  }

  /** Real multiplication commutes. */
  lemma {:induction false} Commute(a: real, b: real)
    ensures a * b == b * a
  {
  }

  // ---------------------------------------------------------------------------
  // The exclusive cumulative products of the safe backward

  /** `cat(ones, narrow(inp, 0, n - 1)).cumprod()`: element `k` multiplies
      everything strictly before `k`. (An empty lane, which the rule never
      meets, stays empty.) */
  function ExclusiveNormal(s: seq<real>): (r: seq<real>)
    ensures |r| == |s|
  {
    if |s| == 0 then [] else CumProd([1.0] + s[..|s| - 1])
  }

  /** `reverse(cat(ones, reverse(narrow(inp, 1, n - 1))).cumprod())`:
      element `k` multiplies everything strictly after `k`. */
  function ExclusiveReverse(s: seq<real>): (r: seq<real>)
    ensures |r| == |s|
  {
    if |s| == 0 then [] else ReverseLane(CumProd([1.0] + ReverseLane(s[1..])))
  }

  /** A range that starts with a leading 1 multiplies to the rest. */
  lemma {:induction false} LeadingOne(t: seq<real>, m: nat)
    requires 0 < m <= |t| && t[0] == 1.0
    ensures ProdRange(t, 0, m) == ProdRange(t, 1, m)
  {
    ProdRangeSplit(t, 0, 1, m);
    assert ProdRange(t, 0, 1) == 1.0;
  }

  lemma {:induction false} ExclusiveNormalAt(s: seq<real>, k: nat)
    requires k < |s|
    ensures ExclusiveNormal(s)[k] == ProdRange(s, 0, k)
  {
    var t := [1.0] + s[..|s| - 1];
    CumProdAt(t, k);
    LeadingOne(t, k + 1);
    ProdRangeSame(t, 1, s, 0, k);
  }

  lemma {:induction false} ExclusiveReverseAt(s: seq<real>, k: nat)
    requires k < |s|
    ensures ExclusiveReverse(s)[k] == ProdRange(s, k + 1, |s|)
  {
    var n := |s|;
    var u := ReverseLane(s[1..]);
    var t := [1.0] + u;
    var j := n - 1 - k;
    ReverseLaneAt(CumProd(t), k);
    CumProdAt(t, j);
    LeadingOne(t, j + 1);
    ProdRangeSame(t, 1, u, 0, j);
    ProdReversePrefix(s[1..], j);
    ProdRangeSame(s[1..], k, s, k + 1, j);
  }

  /** Multiplying the two exclusive products gives, at every position, the
      product of all the other elements, whatever zeros the lane holds. */
  lemma {:induction false} ExclusiveProductIsProdExcept(s: seq<real>, k: nat)
    requires k < |s|
    ensures Times(ExclusiveNormal(s)[k], ExclusiveReverse(s)[k]) == ProdExcept(s, k)
  {
    ExclusiveNormalAt(s, k);
    ExclusiveReverseAt(s, k);
  }
}
