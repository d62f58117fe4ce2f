# A verified model of a from-scratch neural-network trainer

This project models the exact, structural core of a small neural-network
trainer written in Rust. Matrix entries are Dafny `real`s, not IEEE floats.
The model covers:

- **Matrix buffer** (`Matrices.Matrix`, values in `MatrixValues.Mat`).
  - A column-major buffer: entry `(r, c)` sits at position `r + c * rows`, and the buffer always holds `rows * cols` entries.
  - Operations: zero-filled construction, get, set, transpose, element-wise product, sum and difference, scalar and matrix product, row sums (`sum_cols`), shuffled column indices, in-place column shuffling and splitting into column batches.
- **Layers.**
  - ReLU (`Relu.ReLULayer`) caches its input and masks gradients.
  - Dense (`Dense.DenseLayer`) computes `W * X + b`, forms `dW = G * Xᵀ`, `db = row sums of G` and `dX = Wᵀ * G`, and takes one plain descent step on its own weights and biases.
  - Both sit behind one interface (`Layers.Layer`). `Layers.LState` is a layer's fields as values, and `ForwardStep` / `BackwardStep` are the two passes on those values.
- **Network** (`Networks.Network`).
  - An ordered list of layers: forward runs them in insertion order, backward from last to first.
  - `calculate_accuracy` takes the argmax of each prediction column and looks up the one-hot target.
  - `train` runs forward then backward on the full input once per epoch, and records a metric at epoch 1 and at every multiple of 10.
- **Early stopping** (`EarlyStop.EarlyStopping`): a patience counter over validation losses. The validation loss is a parameter of each call.
- **Data loading** (`DataLoad`): validates records that are already tokenised and builds the matrices.
  - The feature records are `seq<seq<real>>` and the label records `seq<seq<nat>>`.
  - Loading rejects an empty feature file, a record of the wrong width, a sample-count mismatch, a label record whose field count is not 1, and a label out of range.
  - Otherwise it builds a feature-per-row / sample-per-column input matrix and a one-hot target.

Objects the source updates in place are classes: the matrix, the two layers, the network and the early-stopping callback.

- Every method that builds a matrix is proved against a specification function on `Mat`. For example, `Transpose` ensures `result.Value() == Transposed(Value())`.
- Lemmas then prove what those functions mean, for example that transposing twice gives the original.

`Network` keeps a ghost sequence `states` of its layers' states.

- `Forward`, `Backward` and `Train` are proved equal to the folds `ForwardThrough`, `BackwardThrough` and `TrainRun` over that sequence.
- Lemmas about the folds give the training history's schedule, the bounds on accuracy, and the fact that backward always accepts the gradient shaped like forward's output.

Where the source panics (an `assert_eq!` on shapes, an index out of bounds, the `len() - 1` underflow in `backward`), the model turns the panic condition into a precondition.

## Model

| member | source | states |
|---|---|---|
| MatrixValues.Index | src/data_structures/matrix.rs:45-53 | position `r + c * rows` of an in-range entry lies inside the `rows * cols` buffer |
| MatrixValues.IndexDecode | src/data_structures/matrix.rs:45-53 | the position of `(r, c)` decodes back to row `r` (remainder) and column `c` (quotient) |
| MatrixValues.IndexInjective | src/data_structures/matrix.rs:45-53 | distinct entries occupy distinct buffer positions |
| MatrixValues.Split | src/data_structures/matrix.rs:45-53 | every buffer position is the position of exactly one in-range entry |
| MatrixValues.Mat.Read | src/data_structures/matrix.rs:45-48 | the raw read at buffer position `r + c * rows`, defined whenever that position lies in the buffer, even for `r >= rows` |
| MatrixValues.ReadIsGet | src/data_structures/matrix.rs:45-48 | for an entry inside the shape, the raw read lies in the buffer and is entry `(r, c)` |
| MatrixValues.Zeros | src/data_structures/matrix.rs:15-21 | a valid `rows x cols` matrix whose every entry is 0 |
| MatrixValues.Updated | src/data_structures/matrix.rs:50-53 | after writing `v` at `(r, c)`, that entry reads `v` and every other entry is unchanged |
| MatrixValues.Transposed | src/data_structures/matrix.rs:55-63 | a `cols x rows` matrix with `t(c, r) == m(r, c)` |
| MatrixValues.TransposeInvolution | src/data_structures/matrix.rs:55-63 | transposing twice gives the original matrix |
| MatrixValues.ElementWise | src/data_structures/matrix.rs:65-74 | for equal shapes: the same shape, entry `(r, c)` is `op(a(r, c), b(r, c))` |
| MatrixValues.Hadamard | src/data_structures/matrix.rs:65-74 | for equal shapes: the same shape, entry-by-entry product |
| MatrixValues.Plus | src/data_structures/matrix.rs:157-170 | for equal shapes: the same shape, entry-by-entry sum |
| MatrixValues.PlusCommutes | src/data_structures/matrix.rs:157-170 | `a + b == b + a` |
| MatrixValues.Minus | src/data_structures/matrix.rs:188-201 | for equal shapes: the same shape, entry-by-entry difference |
| MatrixValues.MinusAntiCommutes | src/data_structures/matrix.rs:188-201 | `a - b` is `-1` times `b - a` |
| MatrixValues.Scaled | src/data_structures/matrix.rs:217-227 | the same shape, every entry multiplied by the scalar |
| MatrixValues.Dot | src/data_structures/matrix.rs:142-150 | the running sum of the inner loop after `n` steps: `a(i, 0) * b(0, j) + ... + a(i, n - 1) * b(n - 1, j)`, added in increasing `k` |
| MatrixValues.Product | src/data_structures/matrix.rs:131-155 | for `a.cols == b.rows`: an `a.rows x b.cols` matrix whose entry `(i, j)` is the sum over `k` of `a(i, k) * b(k, j)` |
| MatrixValues.DotTransposed | src/data_structures/matrix.rs:142-150 | each partial sum of the product equals the matching partial sum of the transposed operands swapped |
| MatrixValues.ProductTransposed | src/data_structures/matrix.rs:131-155 | `(a * b)ᵀ == bᵀ * aᵀ` |
| MatrixValues.ProductAssociative | src/data_structures/matrix.rs:131-155 | `(a * b) * c == a * (b * c)` for all compatible shapes, by exchanging the two finite sums |
| MatrixValues.RowSum | src/data_structures/matrix.rs:243-246 | the running sum of row `r` over its first `n` columns, added in increasing column order |
| MatrixValues.RowSums | src/data_structures/matrix.rs:240-250 | a `rows x 1` column whose entry `r` is the sum of row `r` over all columns |
| MatrixValues.RowSumIsDotWithOnes | src/data_structures/matrix.rs:243-246 | each partial row sum is the partial product of that row with a column of ones |
| MatrixValues.RowSumsIsProductWithOnes | src/data_structures/matrix.rs:240-250 | summing the columns equals multiplying by a column of ones |
| MatrixValues.Identity | src/data_structures/matrix.rs:78 | `0, 1, ..., n - 1` is a permutation of `[0, n)` |
| MatrixValues.ShuffledCols | src/data_structures/matrix.rs:83-101 | the same shape, and new column `j` is old column `indices[j]` (every index is a column) |
| MatrixValues.ShuffleIdentity | src/data_structures/matrix.rs:83-101 | shuffling by the identity permutation changes nothing |
| MatrixValues.ShuffleUndo | src/data_structures/matrix.rs:83-101 | shuffling by a permutation and then by its inverse restores the matrix |
| MatrixValues.NumBatches | src/data_structures/matrix.rs:108 | `ceil(cols / batch_size)`: the number `n` with `(n - 1) * batch_size < cols <= n * batch_size`, and 0 exactly when there are no columns |
| MatrixValues.NumBatchesStep | src/data_structures/matrix.rs:108 | the number of batches is 0 for no columns, 1 for at most one batch, and one more per `batch_size` columns beyond that (`ceil(cols / batch_size)`) |
| MatrixValues.BatchesFrom | src/data_structures/matrix.rs:108-123 | the batches of at most `batch_size` columns that start at `start`, `start + batch_size`, ...; meaning given by `BatchesFromShape` and `ConcatBatchesFrom` |
| MatrixValues.Batches | src/data_structures/matrix.rs:103-126 | the batch list of `split_into_batches`: the batches from column 0; meaning given by `BatchShape` and `BatchesRebuild` |
| MatrixValues.ColumnsGet | src/data_structures/matrix.rs:116-120 | entry `(r, j)` of the column range is entry `(r, lo + j)` of the matrix |
| MatrixValues.BatchesFromLength | src/data_structures/matrix.rs:108-123 | from column `start` there are `ceil((cols - start) / batch_size)` batches |
| MatrixValues.BatchesFromShape | src/data_structures/matrix.rs:108-123 | batch `b` from `start` is columns `[start + b * k, min(start + (b + 1) * k, cols))` |
| MatrixValues.BatchShape | src/data_structures/matrix.rs:103-126 | there are `ceil(cols / batch_size)` batches in order; batch `b` has the same rows and `min(batch_size, cols - b * batch_size)` columns, and its column `j` is original column `b * batch_size + j` |
| MatrixValues.BatchFull | src/data_structures/matrix.rs:109 | every batch except the last has exactly `batch_size` columns |
| MatrixValues.ConcatBatchesFrom | src/data_structures/matrix.rs:108-123 | the batches from `start`, placed side by side, are columns `[start, cols)` |
| MatrixValues.BatchesRebuild | src/data_structures/matrix.rs:103-126 | the batches placed side by side rebuild the input matrix |
| Matrices.Matrix.constructor | src/data_structures/matrix.rs:15-21 | a valid buffer of shape `rows x cols` holding all zeros |
| Matrices.Matrix.Get | src/data_structures/matrix.rs:45-48 | entry `(r, c)` of the current value, read at buffer position `r + c * rows` |
| Matrices.Matrix.Set | src/data_structures/matrix.rs:50-53 | in range, the new value is the old one with entry `(r, c)` replaced, so `get(r, c) == v` and nothing else changes |
| Matrices.Matrix.Assign | src/layers/relu.rs:28 | a field that receives a newly computed matrix takes over exactly its shape and contents |
| Matrices.Matrix.Clone | src/data_structures/matrix.rs:7 | a fresh matrix equal to the original |
| Matrices.Matrix.Transpose | src/data_structures/matrix.rs:55-63 | a fresh matrix holding `Transposed` of the input |
| Matrices.Matrix.ElementWiseMul | src/data_structures/matrix.rs:65-74 | for equal shapes, a fresh matrix holding the `Hadamard` product |
| Matrices.Matrix.Add | src/data_structures/matrix.rs:157-170 | for equal shapes, a fresh matrix holding `Plus` |
| Matrices.Matrix.Sub | src/data_structures/matrix.rs:188-201 | for equal shapes, a fresh matrix holding `Minus` |
| Matrices.Matrix.Scale | src/data_structures/matrix.rs:217-227 | a fresh matrix holding `Scaled` |
| Matrices.Matrix.Mul | src/data_structures/matrix.rs:131-155 | for `cols == other.rows`, a fresh matrix holding `Product` |
| Matrices.Matrix.GenerateShuffledIndices | src/data_structures/matrix.rs:76-81 | the result is a permutation of `[0, cols)` whatever the random draws are |
| Matrices.Matrix.ShuffleColumns | src/data_structures/matrix.rs:83-101 | in place, the matrix becomes `ShuffledCols` of its old value: same shape, new column `j` = old column `indices[j]` |
| Matrices.Matrix.CopyColumns | src/data_structures/matrix.rs:112-120 | a fresh matrix holding columns `[startCol, endCol)` |
| Matrices.Matrix.SplitIntoBatches | src/data_structures/matrix.rs:103-126 | for `batch_size > 0`, fresh matrices holding exactly `Batches(m, batch_size)`, in order |
| Matrices.SumCols | src/data_structures/matrix.rs:240-250 | a fresh matrix holding `RowSums` |
| Relu.Rectified | src/layers/relu.rs:27-34 | the same shape, with ReLU applied to every entry |
| Relu.Activate | src/layers/relu.rs:32 | the result is `max(x, 0)`: at least 0, at least `x`, and either `x` or 0 |
| Relu.Derivative | src/layers/relu.rs:44-46 | 1 where `x > 0` and 0 otherwise |
| Relu.ForwardRectifies | src/layers/relu.rs:32 | every output entry is `>= 0`, and equals `x` where `x > 0` and `0` otherwise |
| Relu.ForwardIdempotent | src/layers/relu.rs:27-34 | applying ReLU twice is applying it once |
| Relu.Mask | src/layers/relu.rs:42-47 | the same shape as the cache, with 1 where the cached entry is `> 0` and 0 otherwise |
| Relu.Gated | src/layers/relu.rs:39-51 | the same shape as the gradient, which must match the cache |
| Relu.BackwardGates | src/layers/relu.rs:42-50 | the input gradient is the output gradient where the cached input is `> 0`, and 0 where it is `<= 0` |
| Relu.MaskOfOutput | src/layers/relu.rs:42-47 | the derivative mask of a ReLU output equals the mask of its input |
| Relu.ReLULayer.constructor | src/layers/relu.rs:9-13 | the cache is a 0 x 0 matrix |
| Relu.ReLULayer.GetWeights | src/layers/relu.rs:17-19 | always None |
| Relu.ReLULayer.GetBiases | src/layers/relu.rs:20-22 | always None |
| Relu.ReLULayer.Forward | src/layers/relu.rs:27-35 | the cache becomes exactly the input; the output is a fresh matrix holding `Rectified(input)` |
| Relu.ReLULayer.Backward | src/layers/relu.rs:39-51 | for a gradient shaped like the cache (so only a 0 x 0 gradient before any forward), returns `Gated(cache, gradient)` and changes nothing |
| Dense.AddBias | src/layers/dense.rs:52-57 | the same shape, with bias entry `b(r, 0)` added to every entry of row `r` |
| Dense.Affine | src/layers/dense.rs:44-60 | for `x.rows == W.cols`, the output has `W.rows` rows and `x.cols` columns |
| Dense.AffineEntry | src/layers/dense.rs:49-57 | output entry `(i, j)` is the sum over `k` of `W(i, k) * X(k, j)`, plus `b(i, 0)` |
| Dense.AffineOfBatch | src/layers/dense.rs:44-60 | the affine map of a column range is that column range of the affine map, so samples are independent |
| Dense.WeightsGradient | src/layers/dense.rs:66-67 | `G * Xᵀ` has shape `G.rows x X.rows` |
| Dense.InputGradient | src/layers/dense.rs:75-76 | `Wᵀ * G` has shape `W.cols x G.cols` |
| Dense.Descend | src/layers/dense.rs:79-85 | a descent step keeps the parameter's shape |
| Dense.DescendEntry | src/layers/dense.rs:79-85 | each entry becomes `p - grad * (lr / batch)` |
| Dense.ZeroGradientIsFixedPoint | src/layers/dense.rs:62-88 | a zero output gradient leaves the weights and the biases unchanged |
| Dense.DenseLayer.constructor | src/layers/dense.rs:18-31 | weights `out x in`, biases `out x 1` (arbitrary initial values), and 0 x 0 caches and gradients |
| Dense.DenseLayer.GetWeights | src/layers/dense.rs:35-37 | always Some of the current weights |
| Dense.DenseLayer.GetBiases | src/layers/dense.rs:38-40 | always Some of the current biases |
| Dense.DenseLayer.Forward | src/layers/dense.rs:44-60 | for `input.rows == W.cols`: caches exactly the input, leaves W and b unchanged, and returns `W * input + b` |
| Dense.DenseLayer.Backward | src/layers/dense.rs:62-88 | `dW = G * cacheᵀ`, `db = row sums of G`; returns `Wᵀ * G` with the weights from before the update; `W' = W - dW * (lr / batch)`, `b' = b - db * (lr / batch)`, where `batch` is the cache's column count |
| Layers.ForwardStep | src/layers/mod.rs:12 | a forward pass keeps the layer's kind, caches exactly the input, and gives an output of the layer's height with the input's columns |
| Layers.BackwardStep | src/layers/mod.rs:14 | a backward pass keeps the layer's kind and cache, and gives a gradient shaped like the cached input |
| Layers.CanForward | src/layers/dense.rs:44-49 | the shape condition under which forward does not panic: a valid state and input, and for a dense layer `input.rows == W.cols` |
| Layers.CanBackward | src/layers/dense.rs:62-76 | the shape condition under which backward does not panic: for ReLU a gradient shaped like the cache; for dense `G.rows == W.rows`, `G.cols == cache.cols`, `cache.rows == W.cols`, on a non-empty batch |
| Layers.BackwardAcceptsForwardShape | src/layers/mod.rs:12-14 | straight after a forward pass on a non-empty batch, backward accepts any gradient shaped like that pass's output |
| Layers.Layer.GetWeights | src/layers/mod.rs:10 | Some exactly for a dense layer, and then its current weights |
| Layers.Layer.GetBiases | src/layers/mod.rs:11 | Some exactly for a dense layer, and then its current biases |
| Layers.Layer.Forward | src/layers/mod.rs:12 | the layer's new state and output are `ForwardStep` of its old state and the input |
| Layers.Layer.Backward | src/layers/mod.rs:14 | the layer's new state and input gradient are `BackwardStep` of its old state, the gradient and the learning rate |
| Networks.ForwardThrough | src/networks/network.rs:31-37 | the forward fold over the first `n` layers keeps the number of states and gives a valid output with the input's columns |
| Networks.ForwardPrefix | src/networks/network.rs:33-35 | a forward pass that gets through `n` layers gets through every shorter prefix |
| Networks.ForwardThroughKeeps | src/networks/network.rs:33-35 | the pass through the first `n` layers leaves the later layers' states as they were |
| Networks.ForwardThroughStep | src/networks/network.rs:33-35 | the pass through `n + 1` layers is the pass through `n` followed by layer `n`'s forward step on its output |
| Networks.BackwardThrough | src/networks/network.rs:40-51 | the backward fold from the last layer to the first keeps the number of states |
| Networks.BackwardKeepsKinds | src/networks/network.rs:40-51 | a backward pass keeps every layer's kind and validity |
| Networks.BackwardAfterForward | src/networks/network.rs:135-140 | after a forward pass on a non-empty batch, backward from a target shaped like the prediction gets through every layer |
| Networks.ForwardDependsOnKinds | src/networks/network.rs:133-140 | whether a forward pass succeeds, and its output height, depend only on the layers' kinds, so every epoch can run again |
| Networks.ArgMaxUpTo | src/networks/network.rs:80-87 | the running `(max_pred_val, predicted_class)` after scanning rows `[0, n)` of a column, from `(-1, 0)` |
| Networks.PredictedClass | src/networks/network.rs:80-87 | the predicted class after scanning all `y_pred.rows` rows |
| Networks.ArgMaxUpToMeaning | src/networks/network.rs:80-87 | the running scan holds the maximum so far (or `(-1, 0)` when no entry exceeds -1), and the first row attaining it |
| Networks.PredictedClassIsFirstMax | src/networks/network.rs:80-87 | the predicted class is the lowest row attaining the column maximum when some entry exceeds -1, and 0 otherwise |
| Networks.ScanInBounds | src/networks/network.rs:90-96 | the true-class scan over `y_pred.rows` rows reads `y_true` at `r + c * y_true.rows` only inside the buffer until it stops, so it does not panic |
| Networks.FirstHot | src/networks/network.rs:90-96 | the scan from row `r`: the first row below the prediction's height whose raw read exceeds 0.9, or 0 |
| Networks.TrueClass | src/networks/network.rs:89-96 | the true class of sample `c`: the scan from row 0 |
| Networks.FirstHotMeaning | src/networks/network.rs:90-96 | the scan stops at the first raw read above 0.9, every earlier read lying in the buffer and at most 0.9; or it reads all rows in the buffer, finds none, and answers 0 |
| Networks.ScanInShape | src/networks/network.rs:90-96 | when the target has the prediction's row count, the scan of any of its columns never leaves the buffer |
| Networks.SameShapeScannable | src/networks/network.rs:78-96 | a target shaped like the prediction can be scanned in every column |
| Networks.TrueClassIsFirstHot | src/networks/network.rs:90-96 | for a target of the prediction's shape, the true class is the first row whose entry exceeds 0.9, or 0 when no row does |
| Networks.OneHotTrueClass | src/networks/network.rs:90-96 | a one-hot column with its 1 at row `k` has true class `k` |
| Networks.Correct | src/networks/network.rs:76-101 | for any target whose scan stays in its buffer, the count of matching samples among the first `n` is at most `n` |
| Networks.Accuracy | src/networks/network.rs:103 | for any target whose scan stays in its buffer (not only one of the prediction's shape), the accuracy lies in `[0, 1]` |
| Networks.FractionInUnit | src/networks/network.rs:103 | a count at most `n`, divided by `n > 0`, lies in `[0, 1]` |
| Networks.Recorded | src/networks/network.rs:145 | a metric is recorded at epoch 1 and at every multiple of 10 |
| Networks.Schedule | src/networks/network.rs:133-155 | the recorded epoch fields of a run of `epochs` epochs; meaning given by `ScheduleLength` and `ScheduleExact` |
| Networks.ScheduleLength | src/networks/network.rs:145 | a run of `epochs > 0` records `1 + epochs / 10` metrics, and a run of 0 epochs records none |
| Networks.ScheduleExact | src/networks/network.rs:145-154 | below `2^32` epochs, the recorded epochs are exactly 1 and the multiples of 10 in `1..epochs`, strictly increasing |
| Networks.Epoch | src/networks/network.rs:135-140 | one epoch keeps the number of states, leaves the network trainable again, and its accuracy lies in `[0, 1]` |
| Networks.TrainRun | src/networks/network.rs:133-160 | a run keeps the number of states and leaves a trainable network trainable; a run of 0 epochs needs nothing of the network or the data |
| Networks.HistoryStep | src/networks/network.rs:145-155 | the conditional push of epoch `e`'s metric extends the history of `e - 1` epochs to the schedule of `e` epochs, and keeps every accuracy in `[0, 1]` |
| Networks.HistoryFollowsSchedule | src/networks/network.rs:133-160 | the history of a run records exactly the scheduled epochs (truncated to 32 bits), in order, and every accuracy lies in `[0, 1]` |
| Networks.Network.constructor | src/networks/network.rs:22-24 | a network without layers |
| Networks.Network.AddLayer | src/networks/network.rs:26-28 | the layer is appended at the end and the existing layers keep their order |
| Networks.Network.ForwardLayer | src/networks/network.rs:33-35 | layer `i`'s forward pass on the output of the first `i` layers extends the pass to `i + 1` layers |
| Networks.Network.BackwardLayer | src/networks/network.rs:45-49 | layer `i`'s new state and the returned gradient are its `BackwardStep`; every other layer's state is unchanged |
| Networks.Network.Forward | src/networks/network.rs:31-37 | the new states and the output are the left fold of the layers' forward steps in insertion order, so an empty network returns a copy of the input |
| Networks.Network.Backward | src/networks/network.rs:40-51 | for at least one layer: the last layer receives the target, then layers `last - 1` down to 0 each receive the gradient of the layer above, once each (`BackwardThrough`) |
| Networks.Network.CalculateAccuracy | src/networks/network.rs:73-104 | for `cols > 0` and any target whose true-class scan (over `y_pred.rows` rows, at `r + c * y_true.rows`) stays in its buffer: the number of columns whose predicted and true classes agree divided by `cols`, a value in `[0, 1]` |
| Networks.Network.TrainEpoch | src/networks/network.rs:135-140 | forward on the full input, then the loss and accuracy of the prediction, then backward from the target (`Epoch`) |
| Networks.Network.TrainStep | src/networks/network.rs:133-159 | from the state and history after `e` epochs, leaves the state and history after `e + 1` epochs |
| Networks.Network.Train | src/networks/network.rs:106-175 | exactly `epochs` forward-then-backward rounds, and the returned history is that of `TrainRun`; with 0 epochs any network and data give an empty history |
| EarlyStop.Improves | src/callbacks/early_stopping.rs:35 | `val_loss + min_delta` lies strictly below the best loss, every real lying below +infinity |
| EarlyStop.Step | src/callbacks/early_stopping.rs:35-51 | one call: an improvement records the loss and clears `wait`; otherwise `wait` grows and the call stops, counting it, once `wait >= patience` |
| EarlyStop.Run | src/callbacks/early_stopping.rs:32-52 | a sequence of calls gives one answer per call, and the last call asks to stop exactly when it leaves a non-zero `wait` that has reached the patience |
| EarlyStop.WaitCountsMisses | src/callbacks/early_stopping.rs:35-40 | `wait` is the number of consecutive non-improving calls since the last improving one, or continues the initial count when none improved |
| EarlyStop.StopsAreCounted | src/callbacks/early_stopping.rs:40-47 | `stopped_epoch` grows by exactly the number of calls that returned true |
| EarlyStop.BestNeverIncreases | src/callbacks/early_stopping.rs:35-36 | with `min_delta >= 0` the best loss never increases |
| EarlyStop.BestIsLeast | src/callbacks/early_stopping.rs:35-38 | from +infinity with `min_delta = 0`, the best loss is the least loss seen |
| EarlyStop.BestIsAttained | src/callbacks/early_stopping.rs:35-38 | from +infinity, after at least one call the best loss is finite and is one of the losses seen |
| EarlyStop.EarlyStopping.constructor | src/callbacks/early_stopping.rs:16-26 | best loss +infinity, `wait = 0`, `stopped_epoch = 0`, with the given patience and `min_delta` |
| EarlyStop.EarlyStopping.OnTrainEnd | src/callbacks/early_stopping.rs:30 | changes nothing |
| EarlyStop.EarlyStopping.OnEpochEnd | src/callbacks/early_stopping.rs:32-52 | when `val_loss + min_delta < best`: best := `val_loss`, `wait` := 0, returns false; otherwise `wait` grows by 1 and the call returns true exactly when `wait >= patience`, counting that stop in `stopped_epoch` |
| EarlyStop.EarlyStopping.OnTrainBegin | src/callbacks/early_stopping.rs:54-57 | resets the best loss to +infinity and `wait` to 0, and keeps `stopped_epoch` |
| DataLoad.FirstWrongRow | src/training/data_load.rs:32-41 | None exactly when every record has `input_size` fields; otherwise the first record that does not |
| DataLoad.FirstBadLabel | src/training/data_load.rs:65-82 | None exactly when every label record is one index below `output_size`; otherwise the first record that is not |
| DataLoad.LabelError | src/training/data_load.rs:66-82 | the complaint about a bad label record: its field count when that is not 1, otherwise its index out of range |
| DataLoad.Features | src/training/data_load.rs:30-45 | an `input_size x sample_count` matrix whose entry `(r, c)` is field `r` of record `c` |
| DataLoad.OneHot | src/training/data_load.rs:63-85 | an `output_size x sample_count` matrix whose entry `(r, c)` is 1 when record `c` is the single class `r`, and 0 otherwise |
| DataLoad.Load | src/training/data_load.rs:7-88 | the outcome of `load_data` on parsed records: no data, else the first wrong-width record, else a count mismatch, else the first bad label record, else the two matrices; meaning given by `LoadSucceedsIff` and `LoadErrorMeaning` |
| DataLoad.LoadSucceedsIff | src/training/data_load.rs:24-87 | loading succeeds iff there are samples, every record has `input_size` fields, the label count matches, and every label record is one index below `output_size` |
| DataLoad.LoadErrorMeaning | src/training/data_load.rs:24-82 | each error names what the source reports: no data, the first wrong row with expected and actual widths, the two counts, the first label row with a wrong field count, or the out-of-range index |
| DataLoad.LoadFeatures | src/training/data_load.rs:30-44 | on success the input is `input_size x sample_count`, and entry `(c, i)` is field `c` of record `i` |
| DataLoad.LoadOneHot | src/training/data_load.rs:63-84 | on success the target is `output_size x sample_count`, and column `i` has 1 at the row of label `i` and 0 elsewhere |
| DataLoad.ReadFeatures | src/training/data_load.rs:30-45 | fills the input matrix record by record, or fails with the first record of the wrong width |
| DataLoad.ReadLabels | src/training/data_load.rs:63-85 | fills the one-hot target label by label, or fails with the complaint about the first bad label record |
| DataLoad.LoadData | src/training/data_load.rs:7-88 | the result, as values, is exactly `Load`: the same error, in the same order of checks, or the two matrices |

## Left out

- Floating point.
  - Entries are exact reals: no rounding, NaN or infinity.
  - ReLU's `0.00 * x` gives `-0.0` in IEEE for negative `x`; here it is 0.
  - `Dense.DenseLayer.Backward`, and `Networks.Network.Train` for a run of at least one epoch, require a non-empty batch, where IEEE would divide by zero and produce infinities.
  - `Networks.Network.CalculateAccuracy` requires `cols > 0`, because `0 / 0` is NaN in the source.
- Matrices.Matrix.Get requires `r < rows` and `c < cols`, where the source only needs `r + c * rows` to lie in the buffer. The one reader that can go out of shape, the true-class scan of `calculate_accuracy`, uses the raw read `MatrixValues.Mat.Read` instead.
- Softmax (src/layers/softmax.rs) needs `exp`, which reals do not have. Its backward pass is only a matrix subtraction, already modelled by `Matrices.Matrix.Sub`.
- `calculate_loss` (src/networks/network.rs:54-70) needs `ln` with a clamp. The loss is a function parameter of `Train`, `TrainEpoch` and `Epoch`.
- The optimizers (src/layers/optimizers/) need `sqrt`, `powf` and matrix operations that matrix.rs does not define.
- Randomness.
  - `new_random` and `new_seeded_random` draw from random generators. The dense layer's initial weights and biases are therefore constructor parameters of the right shape.
  - `Matrices.Matrix.GenerateShuffledIndices` takes its random draws as a parameter and proves only that the result is a permutation.
- Integer width.
  - `wait`, `stopped_epoch`, `patience`, the sizes and the epoch counter are unbounded `nat`s, so the model does not capture usize overflow.
  - The `epoch as u32` truncation in the recorded metric is modelled, as `% 2^32`.
- Owned operands. The `Add`, `Sub` and scalar `Mul` impls for owned matrices (src/data_structures/matrix.rs:171-186, 202-215, 229-238) compute the same values as the borrowing impls, so `Add`, `Sub` and `Scale` model both kinds.
- Move assignment. Assigning a newly built matrix to a layer field is `Matrices.Matrix.Assign`, which overwrites the field's matrix in place, rather than a rebinding of the field.
- The `Layer` trait's `backward` takes only the gradient (src/layers/mod.rs:14, src/layers/relu.rs:39), while dense and the network pass a learning rate too.
  - The model uses one interface, `Backward(gradient, learningRate)`.
  - ReLU ignores the learning rate, as its comment at src/layers/relu.rs:40 says.
- Shape mismatches that the source turns into panics are preconditions. This covers the input shape required by `Networks.Network.Forward` and the gradient shapes required by `Networks.Network.Backward`.
- `load_data`.
  - File opening, CSV tokenisation and string parsing (src/training/data_load.rs:16-21, 43, 74) are not modelled. Records arrive already parsed, so parse errors are not modelled either.
  - The file paths and the logging are dropped from the signature.
- Early stopping.
  - The validation loss is a parameter of `OnEpochEnd`, in place of `net.validate` on the stored validation matrices.
  - The `x_valid` and `y_valid` fields are not modelled, nor is the log line.
- The progress bar, logging and `plot_metrics` in src/networks/network.rs are presentation only: no state of the model depends on them.
- The callback plumbing (src/callbacks/mod.rs, debug_callback.rs, plotting_callback.rs) is not modelled: `Network` has no callback list to call it from.
- The grid search, the experiment scripts and the entry points are not modelled.
