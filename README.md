# nnet1 multi-task loss, parallel component and phone normaliser in Dafny

This project models three pieces of a Kaldi nnet1 fork used to train
multilingual acoustic models with several output tasks.

- **The loss objects** of `src/nnet/nnet-loss.{h,cc}`:
  - `Xent` (cross-entropy with optional target interpolation and a weighted
    arg-max accuracy count) and `Mse` (mean square error) are classes. Their
    running totals and one-hour progress window are fields that `Eval`
    updates in place.
  - `MultiTaskLoss` reads a `multitask,<kind>,<dim>,<weight>,...`
    definition and builds the column offsets of the tasks. For every task it
    masks the frame weights down to the frames whose Posterior has a target in
    that task's columns. It lets each task's loss object evaluate its
    columns and copies the gradients, scaled by the task weights, into one
    gradient matrix. Its `AvgLoss` is the weighted sum of the tasks'
    averages.
- **`ParallelComponent`** of `src/nnet/nnet-parallel-component.h`: a layer
  made of nested networks side by side, each owning a disjoint range of the
  input columns and of the output columns. The model covers:
  - its configuration parser (a list of files or a list of prototypes,
    exactly one of the two);
  - its stream format (count, numbered entries, closing token) and the
    width check after reading;
  - the forward routing of columns;
  - the backward pass, which infers from the incoming gradient a 0/1 mask
    per frame and branch, multiplies each branch's gradient rows by its mask
    column and routes the branches' input gradients back to their columns;
  - the parameter, update and option calls.
- **`uniphone.py`** of `egs/SBS-mul/s5/local`:
  - a fixed table that maps the phone symbols of several languages to a
    shared phone set;
  - a filter that splits each input line on whitespace, maps every token
    through the table (tokens not in the table are kept) and prints the
    results joined by single spaces.

Matrices are values (`Matrices.Mat`, rows of reals). A slice write in the
source is a reassignment of the whole matrix in the model. Arrays are used
where the source fills a buffer element by element:
- the mask of `BackpropagateFnc` is an `array2`;
- the vector of `GetParams` is an `array`.

Floating point is modelled by reals. Library calls whose code is not part of
this model are parameters or stated assumptions:
- a nested network's reading, initialisation, forward and backward passes;
- the natural logarithm.

Failed `KALDI_ASSERT`s and `KALDI_ERR`s abort the program. The model
turns them into `Err` results.

Three behaviours of the source are easy to misread; the model follows the
code in each.
- The inline comments at `nnet-parallel-component.h` lines 248 and 258-259
  make the thresholded value 0 for "keep" and the mask one minus it, so a
  softmax branch *keeps* a frame when the absolute row-sum of its gradient
  is below 1e-6 (`BranchMasks.SoftmaxKeptIff`).
- Frame weights are not checked one by one; only their sum is:
  - `Xent::Eval` refuses a negative sum (`nnet-loss.cc` lines 73-74);
  - `Mse::Eval` first truncates the sum to a 32-bit integer
    (`nnet-loss.cc` lines 452-453), so a sum in (-1, 0) passes
    (`MseLossObject.NegativeWeightSumAccepted`).
- `ParallelComponent::Update` is empty (`nnet-parallel-component.h`
  lines 308-310): the branches update themselves inside their own backward
  pass, and the model keeps `Update` a no-op.

## Model

| member | source | states |
|---|---|---|
| LossMath.CountCorrectFramesWeighted | src/nnet/nnet-loss.cc:38-57 | the loop's result is the sum of the weights at the positions where the two id vectors agree |
| LossMath.WeightedMatchesBounds | src/nnet/nnet-loss.cc:38-57 | with non-negative weights the weighted count of correct frames lies between 0 and the weight sum, and equals the weight sum when the two id vectors are equal |
| LossMath.RowMaxId | src/nnet/nnet-loss.cc:89-92 | the arg-max of a row is a valid column index, or -1 for an empty row |
| LossMath.RowMaxIdIsFirstMax | src/nnet/nnet-loss.cc:89-92 | the arg-max holds a maximal value, and no earlier column holds that value (the first maximum wins) |
| LossMath.FindRowMaxId | src/nnet/nnet-loss.cc:89-91 | one arg-max per row of the matrix |
| LossMath.OneHotRows | src/nnet/nnet-loss.cc:104-112 | the hard target has a 1 exactly at each row's arg-max column and 0 elsewhere |
| LossMath.HardTargets | src/nnet/nnet-loss.cc:104-112 | the loop that zeroes the matrix and sets each row's arg-max cell builds exactly the one-hot matrix |
| LossMath.InterpTarget | src/nnet/nnet-loss.cc:97-116 | the effective target keeps the target's shape |
| LossMath.InterpTargetCell | src/nnet/nnet-loss.cc:97-116 | each cell of the effective target is `t` when interpolation is off (mode "none" or weight outside (0,1)); otherwise `wt*t + (1-wt)*y` for "soft", `wt*t + (1-wt)*onehot(argmax y)` for "hard", and `wt*t` for any other mode |
| LossMath.InterpRow | src/nnet/nnet-loss.cc:97-116 | a row of the effective target, cell by cell as above |
| LossMath.InterpRowSum | src/nnet/nnet-loss.cc:97-116 | when the output and target rows sum to 1, so does the effective target row, for "none", "soft" and "hard" |
| LossMath.OneHotRowSum | src/nnet/nnet-loss.cc:104-112 | a one-hot row sums to 1 |
| LossMath.XentGradient | src/nnet/nnet-loss.cc:119-122 | the cross-entropy gradient has the output's shape |
| LossMath.XentGradientCell | src/nnet/nnet-loss.cc:97-122 | each gradient cell is `w[i] * (y - t')` for the effective target `t'` |
| LossMath.XentGradientRow | src/nnet/nnet-loss.cc:119-122 | each gradient row is the frame weight times the difference between the output row and the effective target row |
| LossMath.XentGradientZeroWeight | src/nnet/nnet-loss.cc:119-122 | a frame with weight 0 gets a zero gradient row |
| LossMath.XentGradientRowSumVanishes | src/nnet/nnet-loss.cc:97-122 | when the output and target rows are distributions, the gradient row sums to 0 (the fact that makes the softmax row-sum test of the parallel component meaningful) |
| LossMath.XentLossZeroWeights | src/nnet/nnet-loss.cc:124-139 | with all frame weights 0 the cross-entropy and the target entropy are both 0 |
| LossMath.MseGradient | src/nnet/nnet-loss.cc:459-461 | the mean-square gradient is `w[i] * (y - t)` cell by cell |
| LossMath.MseMatchedIsZero | src/nnet/nnet-loss.cc:459-467 | when the output equals the target on every row of non-zero weight, the gradient is the zero matrix and the loss is 0 |
| LossMath.MseLossNonNegative | src/nnet/nnet-loss.cc:464-467 | with non-negative frame weights the loss `0.5 * sum w * (w*(y-t))^2` is non-negative |
| LossMath.TruncateToInt | src/nnet/nnet-loss.cc:452-453 | the conversion of the weight sum to an integer truncates toward zero |
| LossMath.PosteriorToMatrix | src/nnet/nnet-loss.cc:180 | the dense target exists exactly when every Posterior column lies inside the output; it has one row per frame, and each cell holds the last Posterior value given for that column |
| LossMath.PostEntryUnnamed | src/nnet/nnet-loss.cc:180 | a column that a frame's Posterior does not name is 0 in the dense target |
| XentLoss.AccumulateKeepsWindow | src/nnet/nnet-loss.cc:144-167 | fresh totals keep the window invariant, and so does every mini-batch with non-negative frames: the open window holds at most 360000 frames, and each closed window held more than 360000 of the counted frames |
| XentLoss.AccumulateProgress | src/nnet/nnet-loss.cc:150-167 | the list of window averages only grows; exactly one entry, the window's `(loss - entropy) / frames`, is appended when the window passes 360000 frames, and the window totals are then reset to 0 |
| XentLoss.AccumulateTotals | src/nnet/nnet-loss.cc:144-147 | the overall frames, correct count and loss-minus-entropy advance by exactly the mini-batch's contribution |
| XentLoss.AvgLossOf | src/nnet/nnet-loss.h:86-89 | the average loss is 0 before any frame, and otherwise `(loss - entropy) / frames` |
| XentLoss.EffectiveTarget | src/nnet/nnet-loss.cc:97-116 | the step-by-step copy, scale and mix of the target gives the effective target |
| XentLoss.Xent.constructor | src/nnet/nnet-loss.h:65-67 | every total is 0, mode "none", weight 1 |
| XentLoss.Xent.SetTargetInterp | src/nnet/nnet-loss.h:92-99 | the mode is stored; the weight is forced to 1 for mode "none" and stored as given otherwise; totals unchanged |
| XentLoss.Xent.AvgLoss | src/nnet/nnet-loss.h:86-89 | the average loss of the current totals |
| XentLoss.Xent.Eval | src/nnet/nnet-loss.cc:60-168 | succeeds exactly when the shapes agree and the weight sum is non-negative (the finiteness checks after the logarithms always pass, see Left out); then returns the interpolated cross-entropy gradient and adds the weight sum, the weighted correct count, the cross-entropy and the entropy to the totals and the window; a refused call changes nothing; with non-negative weights the correct count grows by at most the weight sum |
| XentLoss.Xent.Record | src/nnet/nnet-loss.cc:144-167 | the in-place update of the totals and the window matches `Accumulate` and keeps the window invariant |
| XentLoss.Xent.EvalPosterior | src/nnet/nnet-loss.cc:171-184 | needs one Posterior entry per frame and every column inside the output; then behaves as the dense `Eval` on the converted target |
| MseLossObject.MseAccumulateKeepsWindow | src/nnet/nnet-loss.cc:472-491 | the window invariant of the mean-square loss is kept; the list of window averages keeps its entries and gains one, the window's `loss / frames`, exactly when the window passes 360000 frames |
| MseLossObject.MseAvgLossOf | src/nnet/nnet-loss.h:203-206 | the average loss is 0 before any frame, and otherwise `loss / frames` |
| MseLossObject.Mse.constructor | src/nnet/nnet-loss.h:183-184 | every total is 0 |
| MseLossObject.Mse.SetTargetInterp | src/nnet/nnet-loss.h:209 | changes nothing |
| MseLossObject.Mse.AvgLoss | src/nnet/nnet-loss.h:203-206 | the average loss of the current totals |
| MseLossObject.Mse.Record | src/nnet/nnet-loss.cc:472-491 | the in-place update of the totals and the window matches `MseAccumulate` |
| MseLossObject.Mse.Eval | src/nnet/nnet-loss.cc:439-492 | succeeds exactly when the shapes agree and the truncated weight sum is non-negative; then returns the mean-square gradient and adds the truncated weight sum and the loss to the totals; a refused call changes nothing |
| MseLossObject.Mse.EvalPosterior | src/nnet/nnet-loss.cc:495-508 | needs one Posterior entry per frame and every column inside the output; then behaves as the dense `Eval` on the converted target |
| MseLossObject.NegativeWeightSumAccepted | src/nnet/nnet-loss.cc:452-453 | a weight sum of -0.5 truncates to 0 and passes the check |
| TextUtil.SplitPiecesHaveNoDelim | src/nnet/nnet-loss.cc:529 | no piece of the split holds a ',' or ':' |
| TextUtil.JoinSplit | src/nnet/nnet-loss.cc:529 | splitting and rejoining with ',' gives the string with every ':' turned into ',' |
| TextUtil.SplitJoin | src/nnet/nnet-loss.cc:529 | joining pieces free of delimiters and splitting again gives the pieces back |
| TextUtil.ParseInt32 | src/nnet/nnet-loss.cc:547-550 | a dimension that parses lies in the 32-bit range |
| TextUtil.ParseIntToString | src/nnet/nnet-loss.cc:547-550 | every 32-bit integer written in decimal parses back to itself |
| TextUtil.ParseRealNat | src/nnet/nnet-loss.cc:554-557 | a natural number written in decimal parses as that real |
| TextUtil.ParseDigitsPointDigits | src/nnet/nnet-loss.cc:554-557 | `digits.digits` parses as its decimal value |
| TextUtil.ParseDecimalToString | src/nnet/nnet-loss.cc:554-557 | a non-negative number written with a fixed number of decimals that holds it exactly, such as `1.0` or `0.001`, parses back to itself |
| TaskDefinition.ParseTriplets | src/nnet/nnet-loss.cc:536-560 | a successful parse gives one task per triplet, in order, each with a known kind, a parsed dimension and a parsed non-negative weight |
| TaskDefinition.ParseTaskPieces | src/nnet/nnet-loss.cc:536-560 | a task's three rendered pieces, its weight written with enough decimals, parse back to that task |
| TaskDefinition.ParsePieces | src/nnet/nnet-loss.cc:536-560 | the rendered pieces of a task list parse back to the list |
| TaskDefinition.SplitRender | src/nnet/nnet-loss.cc:529-532 | a rendered definition splits into the header and the task pieces |
| TaskDefinition.ParseHeaderAndPieces | src/nnet/nnet-loss.cc:531-560 | the header followed by the task pieces parses to the tasks |
| TaskDefinition.RenderParses | src/nnet/nnet-loss.cc:527-560 | every definition `multitask,<kind>,<dim>,<weight>,...` rendered from tasks with 32-bit dimensions, each weight written with enough decimals to be exact, parses back to its tasks |
| TaskDefinition.DocumentedDefinition | src/nnet/nnet-loss.h:236-239 | the documented example `multitask,xent,2456,1.0,mse,440,0.001` parses as a cross-entropy task of 2456 columns with weight 1 and a mean-square task of 440 columns with weight 0.001 |
| FrameMasks.MaskedWeights | src/nnet/nnet-loss.cc:592-611 | the masked weights have one entry per frame |
| FrameMasks.SingleLabelOneTask | src/nnet/nnet-loss.cc:597-606 | a frame whose Posterior names a single column has a target in exactly the task whose offset range holds that column |
| FrameMasks.MaskFrameWeights | src/nnet/nnet-loss.cc:592-611 | the loop gives each frame its weight when its Posterior names a column in `[lo, hi)` and 0 otherwise |
| MultiTaskSpec.TaskGradientZeroWeight | src/nnet/nnet-loss.cc:615-628 | a frame of weight 0 gets a zero gradient row from either kind of task |
| MultiTaskSpec.EvalBlocks | src/nnet/nnet-loss.cc:615-634 | in a successful evaluation each task's columns of the gradient are that task's gradient on its columns, under its masked weights, scaled by its weight |
| MultiTaskSpec.MaskedFrameZero | src/nnet/nnet-loss.cc:592-634 | a frame with no Posterior entry in a task's columns has a zero row in that task's block of the gradient, whatever the output |
| MultiTaskSpec.OnlyFirstTaskInterpolated | src/nnet/nnet-loss.cc:616-628 | task 0 runs with the multi-task loss's mode and weight when that mode is not "none"; every other cross-entropy task runs with "none" and weight 1, so it is never interpolated |
| MultiTaskSpec.WeightedAvgLossBounds | src/nnet/nnet-loss.cc:683-689 | with non-negative weights and averages the overall average is non-negative; with zero weights it is 0 |
| MultiTask.ComputeOffsets | src/nnet/nnet-loss.cc:563-566 | the offset loop gives the prefix sums of the dimensions: entry 0 is 0 and each entry adds the previous dimension |
| MultiTask.ComputeMasks | src/nnet/nnet-loss.cc:592-611 | one masked weight vector per task, masked by that task's offset range |
| MultiTask.NewTask | src/nnet/nnet-loss.cc:538-541 | a fresh loss object of the given kind with zero totals |
| MultiTask.EvalTask | src/nnet/nnet-loss.cc:616-628 | a task's evaluation first sets its interpolation as the multi-task loss dictates, then succeeds exactly when its loss accepts the weights (under the total logarithm of `XentLoss.Xent.Eval`), returning that loss's gradient and updating its totals |
| MultiTask.Refused | src/nnet/nnet-loss.cc:615-634 | a task whose columns do not fit or whose loss refuses its weights makes the whole evaluation fail |
| MultiTask.InputsNeed | src/nnet/nnet-loss.cc:578-584 | a successful evaluation had one Posterior entry and one weight per frame, an output as wide as the last offset, and a Posterior inside the output |
| MultiTask.MultiTaskLoss.constructor | src/nnet/nnet-loss.h:227 | no task, mode "none", weight 1 |
| MultiTask.MultiTaskLoss.SetTargetInterp | src/nnet/nnet-loss.h:263-270 | the mode is stored; the weight is forced to 1 for mode "none" and stored as given otherwise; nothing else changes |
| MultiTask.MultiTaskLoss.InitFromString | src/nnet/nnet-loss.cc:527-572 | succeeds exactly when the definition parses and at least one task exists afterwards; then appends one fresh loss object, one dimension and one weight per parsed task and sets the offsets to the prefix sums of all dimensions; a refused definition changes nothing |
| MultiTask.MultiTaskLoss.Define | src/nnet/nnet-loss.cc:536-566 | the triplet loop appends the tasks' dimensions, weights and fresh loss objects, then the offsets are recomputed |
| MultiTask.MultiTaskLoss.PushTask | src/nnet/nnet-loss.cc:538-559 | one task's loss object, dimension and weight are appended |
| MultiTask.MultiTaskLoss.EvalDense | src/nnet/nnet-loss.h:243-248 | the dense-target evaluation always fails |
| MultiTask.MultiTaskLoss.Eval | src/nnet/nnet-loss.cc:574-655 | succeeds exactly when the loss is initialised and the evaluation is well formed (under the total logarithm of `XentLoss.Xent.Eval`); the result is the assembled gradient `EvalDiff`, and every task's loss object ends in the state its own evaluation gives |
| MultiTask.MultiTaskLoss.EvalTasks | src/nnet/nnet-loss.cc:613-634 | the task loop succeeds exactly when every task does, produces `EvalDiff` and updates every task's totals |
| MultiTask.MultiTaskLoss.RunTask | src/nnet/nnet-loss.cc:616-628 | evaluating task `l` changes only task `l`'s loss object |
| MultiTask.MultiTaskLoss.AvgLoss | src/nnet/nnet-loss.cc:683-689 | the loop returns `sum_l weight_l * AvgLoss_l` |
| ParallelConfig.ListUntil | src/nnet/nnet-parallel-component.h:54-59 | a list read up to its closing token ends after its start and inside the stream |
| ParallelConfig.ParseConfig | src/nnet/nnet-parallel-component.h:51-72 | a successful parse has exactly one of the two lists non-empty |
| ParallelConfig.ReadList | src/nnet/nnet-parallel-component.h:54-66 | the token loop collects the names up to the closing token |
| ParallelConfig.ReadConfig | src/nnet/nnet-parallel-component.h:47-72 | the parsing loop over the configuration tokens computes `ParseConfig` |
| ParallelConfig.ListUntilNames | src/nnet/nnet-parallel-component.h:54-59 | names followed by the closing token are read back exactly |
| ParallelConfig.OneSection | src/nnet/nnet-parallel-component.h:53-66 | one section's names are read back and reading stops after its closing token |
| ParallelConfig.ParseRenderConfig | src/nnet/nnet-parallel-component.h:47-72 | a configuration written from one non-empty list of names parses back to that list |
| ParallelConfig.TwoProtoSections | src/nnet/nnet-parallel-component.h:60-66 | two prototype sections append their names in order |
| ParallelConfig.UnknownTokenRefused | src/nnet/nnet-parallel-component.h:67-68 | a configuration starting with an unknown token is refused |
| ParallelConfig.BothKindsRefused | src/nnet/nnet-parallel-component.h:72 | a configuration naming both files and prototypes is refused |
| ParallelStream.DeserialiseSerialised | src/nnet/nnet-parallel-component.h:101-138 | reading what is written gives back the same networks, in the same order, and stops after the closing token |
| ParallelStream.ReadEntriesIgnoresIndex | src/nnet/nnet-parallel-component.h:106-113 | the numbers after the entry tokens do not affect what is read |
| ParallelStream.EntriesAt | src/nnet/nnet-parallel-component.h:132-136 | entry `i` is the entry token, the number `i + 1` and network `i` |
| NestedNnets.AllParamsLength | src/nnet/nnet-parallel-component.h:144-149 | the concatenated parameters are as long as the sum of the branches' parameter counts |
| NestedNnets.AllParamsBlock | src/nnet/nnet-parallel-component.h:151-161 | branch `i`'s parameters sit in the concatenation at the `i`-th prefix sum of the counts |
| BranchMasks.LowerThreshold | src/nnet/nnet-parallel-component.h:253-254 | the threshold yields only 0 or 1 |
| BranchMasks.SoftmaxIndices | src/nnet/nnet-parallel-component.h:243-245 | the list holds exactly the branches whose last component is a softmax |
| BranchMasks.MaskIsBinary | src/nnet/nnet-parallel-component.h:240-282 | every mask cell is 0 or 1 |
| BranchMasks.SoftmaxKeptIff | src/nnet/nnet-parallel-component.h:243-263 | a softmax branch keeps a frame iff the absolute row-sum of its columns of the incoming gradient is below 1e-6, and drops it otherwise |
| BranchMasks.NonSoftmaxKeptIff | src/nnet/nnet-parallel-component.h:240-282 | a non-softmax branch keeps a frame iff every softmax branch drops it; with no softmax branch it keeps every frame |
| BranchMasks.NonSoftmaxMasksAgree | src/nnet/nnet-parallel-component.h:269-282 | all non-softmax branches get the same mask |
| BranchMasks.SomeBranchKeepsEachFrame | src/nnet/nnet-parallel-component.h:243-282 | when some branch is not a softmax, every frame is kept by at least one branch |
| BranchMasks.ComputeMask | src/nnet/nnet-parallel-component.h:237-282 | the two mask loops fill the frame-by-branch array with exactly these masks |
| BranchMasks.FrameInactive | src/nnet/nnet-parallel-component.h:273-277 | the inner loop finds a frame inactive iff every softmax column of the mask is zero there |
| ParallelSpec.AfterInit | src/nnet/nnet-parallel-component.h:45-99 | a successful initialisation leaves branches whose widths add up to the component's |
| ParallelSpec.AfterInitAppends | src/nnet/nnet-parallel-component.h:72-90 | a successful initialisation keeps the earlier branches and appends one network per listed name, in order, loaded from that name |
| ParallelSpec.InitFromRenderedConfig | src/nnet/nnet-parallel-component.h:45-99 | initialising from a configuration written from a list of names loads exactly those names' networks |
| ParallelSpec.AfterRead | src/nnet/nnet-parallel-component.h:101-124 | a successful read leaves branches whose widths add up to the component's |
| ParallelSpec.WriteReadRoundTrip | src/nnet/nnet-parallel-component.h:101-138 | what is written is read back by a component of the same widths as the same networks, and refused by a component of other widths |
| ParallelSpec.Forward | src/nnet/nnet-parallel-component.h:199-212 | the output has the input's rows and the sum of the output widths as columns |
| ParallelSpec.ForwardRouting | src/nnet/nnet-parallel-component.h:199-212 | branch `i`'s output columns, from the `i`-th prefix sum of the output widths, are branch `i`'s forward pass on its input columns |
| ParallelSpec.ForwardLocal | src/nnet/nnet-parallel-component.h:199-212 | branch `i`'s output columns depend only on branch `i`'s input columns |
| ParallelSpec.MaskedGradRows | src/nnet/nnet-parallel-component.h:288-295 | a kept frame passes its gradient row unchanged to the branch; a dropped frame passes zeros |
| ParallelSpec.BackwardRouting | src/nnet/nnet-parallel-component.h:286-305 | branch `i`'s input-gradient columns are branch `i`'s backward pass on its masked gradient, and nothing else |
| ParallelSpec.BackwardKeepsShapes | src/nnet/nnet-parallel-component.h:286-305 | the backward pass keeps every branch's widths, so the width check still holds |
| ParallelSpec.WithOptionsKeeps | src/nnet/nnet-parallel-component.h:312-316 | setting the options changes no width and no parameter |
| ParallelComp.CopyRange | src/nnet/nnet-parallel-component.h:157 | the range of the vector is overwritten by the source and the rest is kept |
| ParallelComp.ParallelComponent.constructor | src/nnet/nnet-parallel-component.h:36-38 | the given widths and no nested network |
| ParallelComp.ParallelComponent.DimSums | src/nnet/nnet-parallel-component.h:92-98 | the summing loop returns the sums of the branch widths, which equal the component's widths iff the component is valid |
| ParallelComp.ParallelComponent.LoadInto | src/nnet/nnet-parallel-component.h:74-90 | a loading loop succeeds iff every name loads, and then appends the loaded networks in order; the earlier branches are always kept |
| ParallelComp.ParallelComponent.InitData | src/nnet/nnet-parallel-component.h:45-99 | succeeds exactly when the configuration parses, the networks load and the widths add up; then the branches are those of `AfterInit`; a configuration that does not parse changes nothing |
| ParallelComp.ParallelComponent.ReadData | src/nnet/nnet-parallel-component.h:101-124 | succeeds exactly when the stream has the expected tokens and the widths add up; then the branches are those read and the result is the position after the closing token |
| ParallelComp.ParallelComponent.WriteData | src/nnet/nnet-parallel-component.h:126-138 | writes the count, one numbered entry per branch and the closing token |
| ParallelComp.ParallelComponent.GetNestedNnet | src/nnet/nnet-parallel-component.h:140-142 | the branch at `id`, and an error for an index out of range |
| ParallelComp.ParallelComponent.NumParams | src/nnet/nnet-parallel-component.h:144-149 | the sum of the branches' parameter counts, which is the length of all their parameters |
| ParallelComp.ParallelComponent.GetParams | src/nnet/nnet-parallel-component.h:151-161 | the vector holds the branches' parameters one branch after the other |
| ParallelComp.ParallelComponent.PropagateFnc | src/nnet/nnet-parallel-component.h:199-212 | the copy loop produces the component's output `Forward` |
| ParallelComp.ParallelComponent.BackpropagateFnc | src/nnet/nnet-parallel-component.h:214-306 | the branches become what their backward passes return, the component stays valid, and the input gradient is `BackwardDiff` |
| ParallelComp.ParallelComponent.BackwardBranches | src/nnet/nnet-parallel-component.h:286-305 | the last loop replaces every branch and copies every branch's input gradient into its columns |
| ParallelComp.ParallelComponent.Update | src/nnet/nnet-parallel-component.h:308-310 | changes nothing |
| ParallelComp.ParallelComponent.SetTrainOptions | src/nnet/nnet-parallel-component.h:312-316 | every branch gets the options, and the width check holds after iff it held before |
| ParallelComp.BranchBackward | src/nnet/nnet-parallel-component.h:289-297 | one branch's masked gradient through its backward pass, as in `BackwardNets` and `BackwardGrads` |
| ParallelComp.ColumnIsMask | src/nnet/nnet-parallel-component.h:293-294 | column `i` of the mask array is branch `i`'s mask |
| ParallelComp.LoadAllPrefixFails | src/nnet/nnet-parallel-component.h:74-90 | once some name fails to load, loading the whole list fails |
| Uniphone.WordEnd | egs/SBS-mul/s5/local/uniphone.py:111 | the end of the first word is the first whitespace character, or the end of the line |
| Uniphone.WordsAreWords | egs/SBS-mul/s5/local/uniphone.py:111 | every piece of the split is non-empty and holds no whitespace |
| Uniphone.WordsEmptyIffBlank | egs/SBS-mul/s5/local/uniphone.py:111 | a line splits into no words iff it is all whitespace |
| Uniphone.WordsAroundSpace | egs/SBS-mul/s5/local/uniphone.py:111 | a whitespace character separates the words before it from those after it |
| Uniphone.WordsOfJoin | egs/SBS-mul/s5/local/uniphone.py:111-112 | splitting values joined by single spaces gives the words of the values, in order |
| Uniphone.WordsJoin | egs/SBS-mul/s5/local/uniphone.py:111-112 | words joined by single spaces split back into the same words |
| Uniphone.JoinSingleSpaced | egs/SBS-mul/s5/local/uniphone.py:112 | joining single-spaced values gives a single-spaced line, empty iff there is no value |
| Uniphone.SingleSpacedIff | egs/SBS-mul/s5/local/uniphone.py:111-112 | a line is single spaced iff splitting and rejoining it gives it back |
| Uniphone.TableLastEntry | egs/SBS-mul/s5/local/uniphone.py:5-108 | a key of the dictionary display maps to the value of its last entry |
| Uniphone.LastEntryWins | egs/SBS-mul/s5/local/uniphone.py:5-108 | the last entry of a key gives that key's value |
| Uniphone.EntryValuesArePhoneLists | egs/SBS-mul/s5/local/uniphone.py:6-107 | every value of the table is a non-empty list of phones separated by single spaces |
| Uniphone.MapValuesSingleSpaced | egs/SBS-mul/s5/local/uniphone.py:5-108 | every value of the map is non-empty and single spaced |
| Uniphone.DuplicateKeysAgree | egs/SBS-mul/s5/local/uniphone.py:18-107 | the keys 'd̪' and 't̪', each given twice, have the same value both times, which is the map's value |
| Uniphone.MapTokenPhones | egs/SBS-mul/s5/local/uniphone.py:112 | a token maps to a non-empty single-spaced string of at least one word |
| Uniphone.NormaliseWords | egs/SBS-mul/s5/local/uniphone.py:111-112 | the words of an output line are the words of the mapped tokens, in order |
| Uniphone.NormaliseSingleSpaced | egs/SBS-mul/s5/local/uniphone.py:111-112 | an output line is single spaced, and empty iff the input line is blank |
| Uniphone.NormaliseWordCount | egs/SBS-mul/s5/local/uniphone.py:112 | an output line has at least as many words as the input line has tokens |
| Uniphone.UnmappedTokensKept | egs/SBS-mul/s5/local/uniphone.py:112 | a line none of whose tokens is a key comes out as its tokens joined by single spaces |
| Uniphone.LineBreakIgnored | egs/SBS-mul/s5/local/uniphone.py:110-112 | the line break read with a line does not change its output |
| Uniphone.MappedOnce | egs/SBS-mul/s5/local/uniphone.py:97-112 | the token 'e' becomes 'eː', which is not mapped again |
| Uniphone.ConcatLines | egs/SBS-mul/s5/local/uniphone.py:110 | the lines read, each with its line break, put back together give the whole input |
| Uniphone.OneLinePerLine | egs/SBS-mul/s5/local/uniphone.py:110-112 | the output has one line per input line, in order, and line `i` is input line `i` normalised |

## Left out

- Report and Info strings (`Report`, `InfoGradient`, `Info`, `InfoPropagate`, `InfoBackPropagate`): text formatting of floating-point values and `sqrt`, which reals do not model.
- `XentRegMCE` (the regularised cross-entropy loss) and its process-wide settings: outside the modelled core.
- The natural logarithm and the 1e-20 clamp in the cross-entropy and the entropy: the logarithm is a parameter `ln`, and the clamp constant is `LossMath.LogFloor`. No property of the logarithm is assumed.
- The finiteness checks (`KALDI_ISFINITE`) at the start of each `Eval`: reals are always finite, so these checks always pass in the model.
- XentLoss.Xent.Eval: the checks that the cross-entropy and the entropy are finite after the logarithms (`nnet-loss.cc` lines 141-142) always pass, because the model's `ln` is a total function on the reals. An output or target cell at or below -1e-20 makes the source's logarithm -inf or NaN and aborts the call; the model accepts it. `MultiTask.EvalTask` and `MultiTask.MultiTaskLoss.Eval` inherit this.
- `FindRowMaxId`, `PosteriorToMatrix` and `VectorBase::LowerThreshold` are library code outside this model. They are stated as assumptions:
  - the arg-max is the first maximal column, or -1 for an empty row;
  - a Posterior column outside the output is an error;
  - a later Posterior entry for the same column overwrites an earlier one;
  - the threshold is the 0/1 step described by the inline comments at `nnet-parallel-component.h` lines 248 and 258-259.
- The nested `Nnet` operations (`Read` from a file or a stream, `Init` from a prototype, `Propagate`, `Backpropagate`, `Write`, `GetComponent`): they are function parameters. A nested network is a value holding its widths, whether its last component is a softmax, its parameters and its training options.
- `ParallelComponent::Copy` and `GetType`: object cloning and type tags, which the model has no use for.
- The unused `in` and `out` arguments of `BackpropagateFnc` and of `Update`: they are left out.
- The copies of the last components made at the start of `BackpropagateFnc` and never freed: the model reads only their softmax flag.
- The whitespace handling of the token stream in `InitData` (`is >> std::ws`): the configuration is a sequence of tokens. A list that runs to the end of the stream without its closing token is an error, because reading the next token there fails.
- The binary/text switch of the stream format: the stream is a sequence of tokens, integers and networks.
- ParallelComp.ParallelComponent.GetNestedNnet: returns the branch as a value, not a reference through which the caller could change it.
- ParallelComp.ParallelComponent.BackpropagateFnc: the branches' backward passes are applied to the value of the branch list; aliasing between branches cannot arise in the model.
- `ConvertStringToInteger` and `ConvertStringToReal`: the model accepts an optional sign and decimal digits, with an optional fraction for reals. Exponents, hexadecimal, `inf`/`nan` and surrounding whitespace are not modelled.
- TextUtil.ParseInt32: the dimension is checked against the 32-bit range, but its positivity is not checked, as in the source.
- MultiTask.MultiTaskLoss.InitFromString: the whole definition is parsed before any loss object is created. The source creates objects while it parses and aborts on the first bad token. The two differ only in the state left after an abort, which the program does not outlive.
- The state after a failed `KALDI_ASSERT` or `KALDI_ERR` is promised only where the check comes before any change. An abort ends the program in the source.
- Calls whose behaviour is undefined in the source:
  - `Eval` on a `MultiTaskLoss` with no offsets, where `loss_dim_offset_.back()` reads an empty vector, is an error in the model;
  - hard interpolation on an output with no columns writes column -1 in the source; the model writes nothing.
- The cached target matrix `tgt_mat_` and the scratch matrices of the loss objects: they are locals of the model.
- 32-bit overflow of widths, offsets, parameter counts and frame counts: integers are unbounded. Only the truncation of the mean-square weight sum to an integer is modelled.
- GPU/host transfers and `CuDevice` selection: all matrices live in one memory.
- `nnet-component-test.cc` and `convert_kaldilats_to_fst.cc`: a test driver with random data and a lattice conversion tool, outside the modelled core.
- Uniphone: the process reads bytes from stdin and writes to stdout. The model works on the decoded text: `Filter` maps the whole input to the whole output. UTF-8 decoding, encoding errors and buffering are not modelled.
- Uniphone: lines end only at '\n', as Python's POSIX stdin does. Universal-newline translation ("\r\n" and "\r") on other platforms is not modelled.
- Uniphone.MappedOnce: shown for the token 'e' only. That no word of a table value is itself a key is not proved for the whole table, and neither is the 'ɛi' example. Each of these proofs must tell apart every pair of keys, which is too costly for the verifier here.
