# Backward rules of PyTorch's reduction functions, in Dafny

This project models the reduction functions of the legacy autograd module
`torch/autograd/_functions/reduce.py`: `Sum`, `Mean`, `Prod`, and the
selection functions `Max`, `Min`, `Mode`, `Median` and `Kthvalue`. For each
one it gives the forward pass, which reduces the whole tensor or every lane
of one axis and records a context, and the backward pass, which turns an
upstream gradient into the input's gradient. Around them it proves what the
rules are for.

- **Per element.** Every backward rule hands an input element the derivative
  of the output element it fed, times that output's upstream gradient. For
  a sum that derivative is 1. For a mean it is one over the element count.
  For a product it is the product of the other elements of the lane. For a
  selection it is 1 at the selected element and 0 elsewhere.
- **Prod's branches.** Each of `Prod`'s zero-count branches computes that
  same value: the quotient rule, the all-zero result and the zero-safe
  exclusive-cumulative-product construction.
- **Gradient theorems.** These tie each backward rule to its forward rule
  without limits. A step `h` at input position `q` changes the forward
  output. That change, weighted by the upstream gradient, equals the
  backward value at `q` times `h` (`Gradients.GradientAt`). This holds
  exactly because sums, means and products are linear in any single
  element. For selections it holds for the steps after which the forward
  rule still selects the same position.

A tensor is a value `Tensor(shape, data)` with rank at least 1 and its
elements in row-major order. Elements are exact `real` numbers. Along axis
`d` a shape splits into `Outer × s[d] × Inner`. Lane `p = o·Inner + i` is the
run of `s[d]` elements at offsets `(o·s[d] + k)·Inner + i`. A reduced tensor
has one element per lane, in that same order.

The model has these modules:

- `Wrappers`: `Option` and `Result`.
- `Indexing`: element counts, offsets and row-major coordinates.
- `Tensors`: shapes, lanes, `unsqueeze`, `expand`, `repeat`, `view` and
  element-wise arithmetic.
- `Gradients`: the gradient statement.
- `Products`: products of sequences, zero counts, cumulative and exclusive
  products.
- `SumMean`: `Sum` and `Mean`.
- `ProdRule`: `Prod`.
- `Selection`: the selection family.

Two operations are imperative, as in the source. The selection backward pass
allocates a zero buffer and writes into it (`Selection.SelBackward`). The
per-axis scatter is a loop over an `array<real>` (`Selection.ScatterAlong`).
Both are proved to compute the pure function
`Selection.SelectionGrad`.

The tensor-level kernels behind `Max`, `Min`, `Mode`, `Median` and
`Kthvalue` along an axis are not part of this model. They enter as a
parameter `pick`, which receives the kernel arguments and a lane and returns
a position in that lane. The model assumes only that the position lies in
the lane. Without `dim`, `Max` and `Min` are modelled in full: the largest
or smallest element, and the first position that holds it.

## Model

| member | source | states |
|---|---|---|
| `Tensors.ReinsertAxis` | torch/autograd/_functions/reduce.py:25-26 | the reduced gradient gets its axis back as size 1 exactly when `keepdim` was false and the input has more than one axis; data is unchanged |
| `Tensors.RepeatSingleAxis` | torch/autograd/_functions/reduce.py:28-30 | repeating with count 1 on every axis but `d` is tiling along `d` alone |
| `Tensors.ReduceAxis` | torch/autograd/_functions/reduce.py:18 | a reduction along `d` has the reduced shape, one element per lane, and element `p` is the reduction of lane `p` |
| `Tensors.BroadcastAxisAt` | torch/autograd/_functions/reduce.py:74 | expanding a size-1 axis gives every element the value of its lane's single element |
| `Tensors.Flatten` | torch/autograd/_functions/reduce.py:85 | `view(-1)` keeps the elements and makes the shape one axis of length numel |
| `Indexing.CoordsRoundTrip` | torch/autograd/_functions/reduce.py:147 | the row-major coordinates of a flat position are in bounds and map back to that position |
| `Indexing.FlatIndexRoundTrip` | torch/autograd/_functions/reduce.py:166 | in-bounds coordinates survive flat position and back |
| `SumMean.SumForward` | torch/autograd/_functions/reduce.py:11-18 | succeeds exactly when `dim` is absent or names an axis; result is `[sum of all]` or, per lane, the lane's sum in the reduced shape; context records dim, keepdim, input size |
| `SumMean.MeanForward` | torch/autograd/_functions/reduce.py:108-115 | same as `SumForward` with means |
| `SumMean.Repeats` | torch/autograd/_functions/reduce.py:28-29 | repeat counts are the axis length at `dim` and 1 on every other axis |
| `SumMean.RepeatBack` | torch/autograd/_functions/reduce.py:25-30 | result has the input's shape; every element of lane `(o, i)` holds upstream element `(o, i)` |
| `SumMean.SumBackward` | torch/autograd/_functions/reduce.py:21-30 | three gradient slots, only the input's filled, of the input's shape: the single upstream value everywhere without `dim`, the lane's upstream value per axis |
| `SumMean.MeanBackward` | torch/autograd/_functions/reduce.py:118-129 | as `SumBackward`, divided by the number of input elements without `dim` and by the axis length per axis |
| `SumMean.RepeatBackAt` | torch/autograd/_functions/reduce.py:25-30 | element `q` of the repeated gradient is the upstream element of `q`'s lane |
| `SumMean.SumOfBump` | torch/autograd/_functions/reduce.py:16 | a step `h` at one element moves the sum by `h` |
| `SumMean.MeanOfBump` | torch/autograd/_functions/reduce.py:113 | a step `h` at one element moves the mean by `h / n` |
| `SumMean.SumAxisDelta` | torch/autograd/_functions/reduce.py:18 | per axis, a step `h` at `q` changes only `q`'s lane's output, by `h` |
| `SumMean.MeanAxisDelta` | torch/autograd/_functions/reduce.py:115 | per axis, a step `h` at `q` changes only `q`'s lane's output, by `h / s[d]` |
| `SumMean.ForwardAxisAt` | torch/autograd/_functions/reduce.py:17-18 | with a valid `dim`, negative included, output element `(o, i)` of `Sum` is the sum of the input elements at row-major coordinates `(o, k, i)` for every `k` along the axis, and that of `Mean` (line 115) is their mean |
| `SumMean.SumBackwardAxis` | torch/autograd/_functions/reduce.py:24-30 | per axis, backward element `q` is the upstream element of `q`'s lane, negative `dim` included |
| `SumMean.MeanBackwardAxis` | torch/autograd/_functions/reduce.py:122-129 | per axis, backward element `q` is the upstream element of `q`'s lane divided by the axis length |
| `SumMean.SumGlobalGradient` | torch/autograd/_functions/reduce.py:22-23 | without `dim`, the backward value at every position is the gradient of the sum |
| `SumMean.MeanGlobalGradient` | torch/autograd/_functions/reduce.py:119-121 | without `dim`, the backward value at every position is the gradient of the mean |
| `SumMean.SumAxisGradient` | torch/autograd/_functions/reduce.py:24-30 | per axis, the lane's upstream value is the gradient of the lane sums at `q` |
| `SumMean.MeanAxisGradient` | torch/autograd/_functions/reduce.py:122-129 | per axis, the lane's upstream value over the axis length is the gradient of the lane means at `q` |
| `SumMean.SumBackwardIsGradient` | torch/autograd/_functions/reduce.py:8-30 | for every input, `dim`, upstream gradient and step, `Sum.backward` is the gradient of `Sum.forward` |
| `SumMean.MeanBackwardIsGradient` | torch/autograd/_functions/reduce.py:105-129 | for every input, `dim`, upstream gradient and step, `Mean.backward` is the gradient of `Mean.forward` |
| `Products.ProdBump` | torch/autograd/_functions/reduce.py:41 | a step `h` at element `k` moves the product by `h` times the product of the others |
| `Products.ClosedFormIsProdExcept` | torch/autograd/_functions/reduce.py:81 | for a nonzero element, upstream times product divided by the element is upstream times the product of the others |
| `Products.NoZerosIff` | torch/autograd/_functions/reduce.py:79-80 | the zero count is 0 exactly when no element is zero |
| `Products.ProdRangeZeroIff` | torch/autograd/_functions/reduce.py:79-83 | a product over a range is zero exactly when some element in it is zero |
| `Products.ProdExceptZeroIff` | torch/autograd/_functions/reduce.py:82-85 | the product of the others is zero exactly when another element is zero |
| `Products.ManyZerosKillEveryPartial` | torch/autograd/_functions/reduce.py:82-83 | with two or more zeros every product of the others, and every partial derivative, is zero |
| `Products.OneZeroPartials` | torch/autograd/_functions/reduce.py:84-85 | with exactly one zero, the product of the others vanishes exactly at the positions other than the zero |
| `Products.CumProdAt` | torch/autograd/_functions/reduce.py:65 | inclusive cumulative product: element `k` is the product of elements `0..k` |
| `Products.ReverseLaneAt` | torch/autograd/_functions/reduce.py:67-68 | reversing a lane puts element `|s|-1-j` at `j` |
| `Products.ProdReversePrefix` | torch/autograd/_functions/reduce.py:70-72 | a prefix product of the reversed lane is the matching suffix product of the lane |
| `Products.ExclusiveNormalAt` | torch/autograd/_functions/reduce.py:62-65 | the forward exclusive product at `k` is the product of the elements before `k` |
| `Products.ExclusiveReverseAt` | torch/autograd/_functions/reduce.py:70-72 | the reverse exclusive product at `k` is the product of the elements after `k` |
| `Products.ExclusiveProductIsProdExcept` | torch/autograd/_functions/reduce.py:52-57 | the two exclusive products at `k` multiply to the product of every element but `k` |
| `ProdRule.ProdForward` | torch/autograd/_functions/reduce.py:36-47 | succeeds exactly when `dim` is absent or names an axis; output `[product]` or lane products; context saves input, output and input size |
| `ProdRule.ExclusiveAlongAt` | torch/autograd/_functions/reduce.py:62-72 | along an axis, element `q` of the exclusive cumulative product is that of `q`'s lane at `q`'s position |
| `ProdRule.ExclusiveAlongProduct` | torch/autograd/_functions/reduce.py:74 | along an axis, the two exclusive products at `q` multiply to the product of the rest of `q`'s lane |
| `ProdRule.SafeZerosBackward` | torch/autograd/_functions/reduce.py:51-75 | the zero-safe construction has the input's shape |
| `ProdRule.SafeZerosAt` | torch/autograd/_functions/reduce.py:51-75 | element `q` of the zero-safe construction is the lane's upstream value times the product of the rest of the lane, whatever the zeros, the size-1 shortcut included |
| `ProdRule.ProdBackward` | torch/autograd/_functions/reduce.py:77-102 | three gradient slots, only the input's filled, of the input's shape |
| `ProdRule.ProdBackwardAll` | torch/autograd/_functions/reduce.py:77-85 | the no-`dim` dispatch on the zero count returns the input's shape |
| `ProdRule.ProdBackwardAxis` | torch/autograd/_functions/reduce.py:87-102 | the per-axis dispatch on the total zero count returns the input's shape |
| `ProdRule.QuotientAllAt` | torch/autograd/_functions/reduce.py:80-81 | with no zero, the quotient rule gives upstream times the product of the others |
| `ProdRule.ManyZerosGradient` | torch/autograd/_functions/reduce.py:82-83 | with two or more zeros, every element is zero, which is upstream times the product of the others |
| `ProdRule.OneZeroAllAt` | torch/autograd/_functions/reduce.py:84-85 | with one zero, the flattened zero-safe path gives upstream times the product of the others |
| `ProdRule.OneZeroGradient` | torch/autograd/_functions/reduce.py:84-85 | with one zero at `z`, the gradient is zero off `z` and upstream times the product of the others at `z` |
| `ProdRule.SafeZerosFlatAt` | torch/autograd/_functions/reduce.py:85 | on a flat input with a one-element gradient, the zero-safe construction is upstream times the product of the others |
| `ProdRule.BackwardAllAt` | torch/autograd/_functions/reduce.py:77-85 | all three zero-count branches give element `q` upstream times the product of the others |
| `ProdRule.ClosedFormIsSafeForm` | torch/autograd/_functions/reduce.py:81 | without zeros the quotient rule equals the zero-safe construction on the flattened input |
| `ProdRule.QuotientAlongAt` | torch/autograd/_functions/reduce.py:98 | per axis, element `q` of the quotient rule is gradient times output of its lane divided by `x[q]` |
| `ProdRule.QuotientAxisAt` | torch/autograd/_functions/reduce.py:90-98 | per axis and without zeros, the quotient rule at `q` is the lane's upstream value times the product of the rest of the lane |
| `ProdRule.QuotientIsSafeForm` | torch/autograd/_functions/reduce.py:97-100 | without zeros, the per-axis quotient rule and the zero-safe construction agree at every element |
| `ProdRule.BackwardAxisAt` | torch/autograd/_functions/reduce.py:87-102 | per axis, both branches give element `q` its lane's upstream value times the product of the rest of the lane |
| `ProdRule.ProdBackwardGlobalAt` | torch/autograd/_functions/reduce.py:77-85 | forward then backward without `dim` gives element `q` upstream times the product of the others |
| `ProdRule.ProdBackwardAxisAt` | torch/autograd/_functions/reduce.py:87-102 | forward then backward with `dim`, negative `dim` included, gives element `q` its lane's upstream value times the product of the rest of the lane |
| `ProdRule.ProdGlobalGradient` | torch/autograd/_functions/reduce.py:40-43 | without `dim`, the backward value at `q` is the gradient of the product |
| `ProdRule.ProdAxisDelta` | torch/autograd/_functions/reduce.py:45 | per axis, a step `h` at `q` changes only `q`'s lane's product, by `h` times the product of the rest of the lane |
| `ProdRule.ProdAxisGradient` | torch/autograd/_functions/reduce.py:45 | per axis, the lane's upstream value times the product of the rest of the lane is the gradient of the lane products at `q` |
| `ProdRule.ProdBackwardIsGradient` | torch/autograd/_functions/reduce.py:33-102 | for every input, zeros included, and every `dim`, upstream gradient and step, `Prod.backward` is the gradient of `Prod.forward` |
| `Selection.AdditionalArgs` | torch/autograd/_functions/reduce.py:199-204 | only `Kthvalue` passes extra kernel arguments, namely `[k]` |
| `Selection.KernelArgs` | torch/autograd/_functions/reduce.py:154-156 | the kernel receives the additional arguments followed by `(dim, keepdim)` |
| `Selection.SelAxis` | torch/autograd/_functions/reduce.py:150-153 | the working axis is the last one when `dim` is absent and the wrapped `dim` otherwise |
| `Selection.ExtremeTo` | torch/autograd/_functions/reduce.py:146 | the running maximum (minimum) of a prefix is an element of it that no element beats |
| `Selection.Extreme` | torch/autograd/_functions/reduce.py:146 | `max()` / `min()` is an element of the tensor that no element beats |
| `Selection.ExtremeUnique` | torch/autograd/_functions/reduce.py:146 | any element that no element beats is the extreme value |
| `Selection.FirstFrom` | torch/autograd/_functions/reduce.py:147 | the first position from `j` holding `x`, or the length when there is none |
| `Selection.FirstFromIs` | torch/autograd/_functions/reduce.py:147 | a position holding `x` with no earlier match from `j` is the first match |
| `Selection.FirstExtreme` | torch/autograd/_functions/reduce.py:147 | a position holding the extreme value, and no earlier position holds it |
| `Selection.SelForward` | torch/autograd/_functions/reduce.py:139-160 | succeeds exactly when the tensor has elements (whole reduction) or `dim` names an axis of positive length; the context records variant, dim, keepdim, additional arguments and input size; dispatches on whether `Max`/`Min` reduce the whole tensor |
| `Selection.WholeForward` | torch/autograd/_functions/reduce.py:145-148 | returns the extreme value as a one-element tensor and records in-bounds coordinates of its first row-major occurrence |
| `Selection.AxisForward` | torch/autograd/_functions/reduce.py:149-160 | per lane, the index is the kernel's choice for the lane, lies in the lane, and the value is the lane's element there; the indices are saved |
| `Selection.SelectionGrad` | torch/autograd/_functions/reduce.py:163-180 | the backward result as a value: the input's shape, element `q` as `SelGradAt` defines it |
| `Selection.ScatterAlong` | torch/autograd/_functions/reduce.py:179 | element `q` receives the source value of `q`'s lane exactly when the lane's index is `q`'s position; every other element keeps its value |
| `Selection.SelBackward` | torch/autograd/_functions/reduce.py:163-180 | four gradient slots; the input's is `SelectionGrad`, the other three are empty |
| `Selection.ForwardFitsBackward` | torch/autograd/_functions/reduce.py:158 | whatever the forward pass records fits the backward pass for every upstream gradient of the output's shape |
| `Selection.WholeGradIsUnit` | torch/autograd/_functions/reduce.py:164-166 | without `dim`, the gradient is the upstream value at the first extreme position and 0 everywhere else |
| `Selection.AxisGradLane` | torch/autograd/_functions/reduce.py:167-179 | per axis, lane `p` of the gradient is the upstream value `g[p]` at the saved index and 0 elsewhere in the lane |
| `Selection.ExtremeStep` | torch/autograd/_functions/reduce.py:145-147 | a step after which the first extreme position is unchanged moves the extreme value by `h` when it was at that position and by 0 otherwise |
| `Selection.ExtremeBump` | torch/autograd/_functions/reduce.py:145-147 | a step that moves the selected element towards better, or any other element towards worse, keeps the first extreme position and moves the extreme value by `h` or 0 |
| `Selection.WholeBackwardIsGradient` | torch/autograd/_functions/reduce.py:139-166 | without `dim`, the `Max`/`Min` backward is the gradient of the forward for every step after which the first extreme position is unchanged |
| `Selection.AxisSelectionDelta` | torch/autograd/_functions/reduce.py:149-160 | per axis, a step that keeps the kernel's choice changes only `q`'s lane's value, by `h` when `q` was selected and by 0 otherwise |
| `Selection.AxisOutputChange` | torch/autograd/_functions/reduce.py:157 | per axis, each output element changes by `h` when it is `q`'s lane and `q` was selected, and by 0 otherwise |
| `Selection.AxisBackwardIsGradient` | torch/autograd/_functions/reduce.py:149-180 | per axis, the backward of every selection function is the gradient of its forward for every step that keeps the kernel's choice |

## Left out

- `Norm` (its forward and backward) is not part of this model. It works in floating point with `pow`, `abs` and `sign` on arbitrary `p`, which exact reals do not capture.
- The autograd engine is not modelled. This covers `Function`, `Variable`, `save_for_backward`, `saved_variables` and `mark_non_differentiable`. The context is a plain value returned beside the output.
- The name lookup `getattr(input, cls.__name__.lower())` is not modelled. The variant is an explicit `Selection.Variant`.
- `Selection.AxisForward`: the per-axis kernels of `max`, `min`, `mode`, `median` and `kthvalue` are not part of this model. They are the parameter `pick`, which is only required to return a position inside the lane. Two consequences follow. The model does not state that the value picked is the lane's maximum, minimum, mode, median or k-th smallest. It also does not model the kernels' own errors, such as `k` out of range.
- `Selection.WholeBackwardIsGradient`: weaker than the backward rule's intent. It covers only steps after which the first extreme position is unchanged (`Selection.ExtremeBump` gives such steps: the selected element towards better, any other element towards worse). Across a tie the function has no derivative.
- `Selection.AxisBackwardIsGradient`: weaker than the backward rule's intent. It covers only steps that keep the kernel's choice in place.
- `grad_indices` is not modelled. The backward pass unsqueezes it (line 176) but never uses it.
- Floating point is not modelled: rounding, NaN and infinities. In particular, a NaN maximum never equals itself, so the `nonzero` lookup in line 147 finds nothing.
- Memory layout and in-place mutation are modelled on values. This covers `expand`, `expand_as`, `view`, `narrow`, `cat`, `new`, `fill_`, `repeat(...).div_` and `index_select`. The exception is the selection backward pass's fresh buffer and its `scatter_`, which are modelled as an array.
- Zero-dimensional tensors are not modelled, since every shape has rank at least 1, as the legacy tensors do. A reduction of a rank-1 tensor with `keepdim` false has shape `[1]`.
- Inputs with no elements: the mean of an empty lane is taken as 0 (floating point gives NaN). Without `dim`, `Max` and `Min` of an empty tensor, and any selection along an axis of length 0, are errors in the model.
- A `dim` outside the tensor's axes is an error in every forward pass. A negative `dim` counts from the end. The backward passes index `input_size`, `repeats` and `unsqueeze` with the same negative `dim`, which selects the same axis.
