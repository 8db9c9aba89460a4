# A verified model of a speech-recognition runtime

The repository transcribes speech on CPUs and GPUs. Much of its CPU code is a fast form of something simple, and says so:
"the same bits", "sample for sample", "any split". This project models that code in Dafny, writes down what each fast form
stands for, and proves that it is so for all inputs.

| file | what it models |
|---|---|
| `Gemm.dfy` | the cache-blocked matrix product over packed panels, with 4-bit group weights |
| `Ternary.dfy`, `Ternarize.dfy` | ternary weights: their packing, their kernels in 16- and 32-bit lanes, their drivers |
| `Int8.dfy`, `Argmax.dfy` | int8 tiles by the sign trick and their driver; the two language-model heads |
| `Q8.dfy`, `Quantize.dfy`, `W4A8.dfy` | activation layouts and quantizer, 4-bit by 8-bit products, their error bound |
| `Attention.dfy` | one-pass softmax attention, prefill and decode |
| `Resample.dfy`, `Vad.dfy` | streaming resampler and voice segmenter against their whole-signal forms |
| `SlotPool.dfy`, `Placement.dfy` | the engine's slot pool as a transition system; placing and releasing its slots |
| `CommandLine.dfy`, `WebSocket.dfy` | printers and parsers: Windows command lines, WebSocket frames |
| `Align.dfy`, `Awq.dfy` | word alignment for error rates; 4-bit group quantization and nibble packing |
| `Arith.dfy`, `Bits.dfy`, `Sums.dfy`, `Lanes.dfy`, `Common.dfy` | arithmetic, bit operations, sums, vector instructions, shared types |

Code that works by updating buffers is modelled by methods and classes that update arrays and fields; each is proved
against a function or predicate on values, and the promises are proved about that. Where code and contract share a
definition, the contract or a lemma also says what it computes in the terms of the source: bytes, bits, positions,
thresholds. Integers are unbounded in Dafny: where
the source relies on a width, saturation or wrap-around is written out (`Lanes.dfy`) and shown not to act, or to act as
stated. Floating-point numbers are modelled by reals. Where threads share work, the result is proved for every order or
interleaving and every sharing: as parameters, or by leaving each choice open (`Gemm.KBlock`). Loops whose iterations
are independent and write disjoint cells run in order where nothing else is said. Which allocations fail, what a socket
delivers, the filter of the resampler, the level of a frame and the exponential function are parameters.

`dafny verify dfyconfig.toml` checks the project.

Where code and comments or obvious expectations differ, the model follows the code:

- The segmenter stores its trigger frame twice (`Vad.SegmentsAreSlices`), and spins for sample rates below 50
  (`Vad.EmptyFrameSpins`, `Vad.FrameHasSample`).
- The FP16 head returns the lowest of equal tokens only if its owner arrives first (`Argmax.LowestTokenIff`).
- A 4-bit group is within half a step only if its range comes within half a step of zero (`Awq.GroupNearIff`).
- A program name that needs quotes and ends in a backslash does not survive the command line, unlike arguments
  (`CommandLine.RoundTrip`).

## Model

| member | source | states |
|---|---|---|
| `Gemm.DequantRow` | src/cpu/cpu_kernels.c:563-578 | a run of groups of one weight row is expanded to the weights its bytes stand for, `code * scale + min` with the code of an even column in the high half, and no other cell of the buffer changes |
| `Gemm.WeightAt` | src/cpu/cpu_kernels.c:563-578 | weight k of row n: the high half of byte `n K/2 + k/2` for even k, the low half for odd, times scale plus minimum of group `n K/group + k/group`; both indices exist |
| `Gemm.PackA` | src/cpu/cpu_kernels.c:1051-1063 | a row panel holds the activations k-major, with zeros in the rows past the last one |
| `Gemm.PackB` | src/cpu/cpu_kernels.c:786-821 | a column panel holds `NR` dequantized weight rows k-major, through a scratch row after it, and nothing outside the two changes |
| `Gemm.Micro` | src/cpu/cpu_kernels.c:762-778 | every cell of the tile takes in `kc` more products of its own row and column; padded rows reach no output |
| `Gemm.ThreadPlace` | src/cpu/cpu_kernels.c:1091-1107 | the share of every thread, panel and scratch row, lies inside the single allocation and past the shared row panels, for every k-block |
| `Gemm.ThreadsApart` | src/cpu/cpu_kernels.c:1106-1107 | the shares of two threads are disjoint |
| `Gemm.KeepReady` | src/cpu/cpu_kernels.c:1106-1137 | packing by one thread leaves every panel that another has in hand as it was |
| `Gemm.KcMaxAsWritten` | src/cpu/cpu_kernels.c:1080-1081 | the rounded and capped k-block is a whole number of quantization groups |
| `Gemm.ChoosePlan` | src/cpu/cpu_kernels.c:1078-1089 | the block sizes chosen satisfy what the blocked loops rely on: whole groups, whole row panels, at least one of each; the k-block is the rounded and capped one of the source |
| `Gemm.PackBlock` | src/cpu/cpu_kernels.c:1121-1123 | all row panels are packed, in whatever order the threads take them |
| `Gemm.KBlock` | src/cpu/cpu_kernels.c:1117-1137 | one k-block moves every output of the row block from the partial sum up to `kb` to the one up to `kb + kc`, for every sharing of the column panels and every interleaving of packing and multiplying by the threads |
| `Gemm.RowBlock` | src/cpu/cpu_kernels.c:1109-1140 | after all k-blocks, a short last one included, the outputs of the row block hold full sums and no other row has changed |
| `Gemm.GemmPacked` | src/cpu/cpu_kernels.c:1072-1143 | adds the whole product to the packed columns and leaves the others at their bias |
| `Gemm.PackedTry` | src/cpu/cpu_kernels.c:1186-1203 | reports how many columns are done, a multiple of the panel width; those are complete, also when the allocation fails and it reports none |
| `Gemm.RowLoop` | src/cpu/cpu_kernels.c:1226-1226 | the row-at-a-time loop completes the ragged columns and leaves the packed ones alone |
| `Gemm.Int4Gemm` | src/cpu/cpu_kernels.c:1273-1323 | for all M, N, K, group sizes, tile shapes, thread counts, sharings of panels, interleavings of threads and either outcome of the allocation: every output is `bias[n] + sum_k A[m,k] W[n,k]`, or the sum alone without a bias, with every `W[n,k]` given by its nibble, scale and minimum; otherwise unsupported and nothing written |
| `Ternary.LaneRunBound` | src/cpu/bitnet_cpu.c:475-482 | a 16-bit lane gets -2048 .. 2032 a block, so sixteen blocks give -32768 .. 32512 |
| `Ternary.BlockByBytes` | src/cpu/bitnet_cpu.c:452-457 | 128 terms taken in the order of the packed bytes add up to the sum in weight order |
| `Ternary.CodeFields` | src/cpu/bitnet_cpu.c:237-248 | a byte holds the codes of four weights 32 apart, the first of them in the top two bits |
| `Ternary.TernDotStep` | src/cpu/bitnet_cpu.c:444-461 | the dot product takes in the activation of weight k times its two bits less one |
| `Ternary.RowSumCorrection` | src/cpu/bitnet_cpu.c:514-515 | the unsigned sum less the row sum of the activations is the signed dot product |
| `Ternary.RowsAvx2` | src/cpu/bitnet_cpu.c:483-515 | with saturating pair sums and wrapping 16- and 32-bit lanes modelled, the 256-bit kernel returns the exact unsigned sum less the row sum |
| `Ternary.RowsAvx512` | src/cpu/bitnet_cpu.c:577-616 | so does the two-blocks-a-step 512-bit kernel, with an odd last block through the 256-bit one |
| `Ternary.RowsScalar` | src/cpu/bitnet_cpu.c:444-461 | the reference kernel returns `sum (c - 1) q` for every row |
| `Ternary.Corrected` | src/cpu/bitnet_cpu.c:514-515 | what the unsigned kernels return is `sum (c - 1) q`, without wrap-around, for K below 2^23 |
| `Ternary.Rows` | src/cpu/bitnet_cpu.c:708-731 | whichever kernel is picked, the result is `sum (c - 1) q` |
| `Ternary.Drive` | src/cpu/bitnet_cpu.c:741-791 | every weight row against every activation row, four at a time with a short last group, into exactly the rows it was given of whichever outputs there are |
| `Ternary.DriveBlocked` | src/cpu/bitnet_cpu.c:798-815 | for every M and N the 64-row blocks together give every dot product, and every float output `sum / scale * w_scale`, plus the bias of its own column if there is one; either output may be absent; bad shapes are rejected and write nothing |
| `Ternarize.OrField` | src/cpu/bitnet_cpu.c:287-287 | or-ing a shifted code into a byte adds it, because its bits are still clear |
| `Ternarize.PackedCodes` | src/cpu/bitnet_cpu.c:222-235 | the code read back for weight k from packed bytes is its value plus one |
| `Ternarize.PackedByteIs` | src/cpu/bitnet_cpu.c:222-235 | a byte is `64 a + 16 b + 4 c + d` of four values 32 apart, each plus one |
| `Ternarize.Pack` | src/cpu/bitnet_cpu.c:222-235 | every byte is the packing of its four weights and every weight can be read back |
| `Ternarize.UnpackRow` | src/cpu/bitnet_cpu.c:237-248 | every weight is its code less one |
| `Ternarize.PackThenUnpack` | src/cpu/bitnet_cpu.c:222-248 | unpacking what was packed is the identity on {-1, 0, 1} |
| `Ternarize.CodeIsValue` | src/cpu/bitnet_cpu.c:278-286 | the test of the dequantized value against 1e-6 never mistakes a nonzero code for zero, because the mean is at least 1e-5 |
| `Ternarize.ValueIs` | src/cpu/bitnet_cpu.c:278-286 | a weight becomes 1 or -1 if and only if its magnitude is more than half the mean |
| `Ternarize.MeanIs` | src/cpu/bitnet_cpu.c:256-263 | the scale is the mean magnitude, but at least 1e-5 |
| `Ternarize.TernarizeBlock` | src/cpu/bitnet_cpu.c:274-288 | or-ing 128 codes into cleared bytes gives the same bytes as packing, and tells whether any is nonzero |
| `Ternarize.TernarizeF32` | src/cpu/bitnet_cpu.c:250-292 | what is read back is 1, -1 or 0 as the weight is above half the mean, below minus half of it, or neither; the bytes agree with `Pack`, and the scale is the clamped mean, or 0 when all values are 0 |
| `Int8.SignTrick` | src/cpu/bitnet_cpu.c:850-878 | magnitude times sign-adjusted weight is the product, of magnitude at most 16256 |
| `Int8.PairLane` | src/cpu/bitnet_cpu.c:850-878 | the saturating pair sum is exact and at most 32512 in magnitude |
| `Lanes.WrapsAndSaturates` | src/cpu/bitnet_cpu.c:857-888 | wrap-around keeps a value modulo the power of two, saturation takes the nearest value in range |
| `Int8.DotLanes` | src/cpu/bitnet_cpu.c:857-888 | the lane kernel with its tail is the dot product, wrapped to 32 bits, for every K |
| `Int8.DotScalar` | src/cpu/bitnet_cpu.c:837-847 | so is the reference |
| `Int8.DotFits` | src/cpu/bitnet_cpu.c:837-888 | up to 132103 columns the 32-bit result is the dot product itself |
| `Int8.Tile` | src/cpu/bitnet_cpu.c:837-888 | two by four results, each the dot product of its own pair, with either kernel |
| `Int8.ItemsAreTiles` | src/cpu/bitnet_cpu.c:1082-1087 | every tile has a work item that maps back to it, in the row-major and in the column-major order |
| `Int8.TilesAreItems` | src/cpu/bitnet_cpu.c:1082-1087 | and every work item a tile: the work index is a bijection |
| `Int8.CellOfItem` | src/cpu/bitnet_cpu.c:1085-1095 | a cell belongs to one work item: the one whose tile contains it |
| `Int8.DoItem` | src/cpu/bitnet_cpu.c:1088-1104 | one item writes the cells of its tile to whichever outputs there are and no others, and its running maximum covers and is attained by them |
| `Int8.Drive` | src/cpu/bitnet_cpu.c:1048-1115 | for every order in which work items finish and every assignment to threads, each output present is its dot product, plain or scaled plus the bias of its own column, and `absmax` bounds every output and is attained |
| `Argmax.BestStep` | src/cpu/bitnet_cpu.c:1193-1193 | comparing by value and then index keeps the lowest best of the rows seen |
| `Argmax.Group` | src/cpu/bitnet_cpu.c:1187-1194 | one group of up to four rows, its logits computed by the tile, goes into the thread's best |
| `Argmax.Merge` | src/cpu/bitnet_cpu.c:1199-1209 | merging in thread order skips threads without a row and keeps the largest value, the lowest index among equals |
| `Argmax.MergedIsFirstMax` | src/cpu/bitnet_cpu.c:1165-1209 | if the threads' bests cover all rows, the merged one is the first maximum |
| `Argmax.FirstMaxIsUnique` | src/cpu/bitnet_cpu.c:1165-1166 | there is one lowest maximal token, so every schedule returns the same |
| `Argmax.HeadArgmax` | src/cpu/bitnet_cpu.c:1153-1213 | for every assignment of groups to threads, the lowest token whose logit, `dot * w_scale / scale`, is largest |
| `Argmax.LocalBest` | src/cpu/cpu_kernels.c:1583-1597 | one thread's best of its own rows, or minus infinity when it has none or no buffer |
| `Argmax.LogitF16Is` | src/cpu/cpu_kernels.c:1593-1594 | the logits compared are the dot products of the rows |
| `Argmax.LmHeadArgmax` | src/cpu/cpu_kernels.c:1570-1609 | for every sharing, order of arrival and failed buffers: the largest logit among the rows seen; ties go to the thread that arrived first, then to the lowest row |
| `Argmax.BestOfRowsSeen` | src/cpu/cpu_kernels.c:1583-1607 | whichever threads lack a buffer, the value is the maximum over the rows of the others and the token attains it; token 0 and minus infinity if there are none |
| `Argmax.HeadAttainsMax` | src/cpu/cpu_kernels.c:1598-1607 | with all buffers allocated the value is the maximum and the token attains it, in every order of arrival |
| `Argmax.LowestTokenIff` | src/cpu/cpu_kernels.c:1598-1604 | the token is the lowest one if and only if the owner of the lowest arrives no later than any owner of a tie |
| `Argmax.AlwaysLowestIff` | src/cpu/cpu_kernels.c:1598-1604 | the token is the lowest in every order of arrival if and only if one thread owns every maximal row |
| `Argmax.OtherReturned` | src/cpu/cpu_kernels.c:1598-1604 | where another thread owns a tie, the order with that thread first is constructed and returns another token |
| `Argmax.ArrivalDecides` | src/cpu/cpu_kernels.c:1598-1604 | two equal rows on two threads: the token is that of whoever arrives first |
| `Q8.PosIsBijective` | include/vibevoice/q8.h:52-60 | in all four layouts every column has its own place and every place its column |
| `Q8.LayoutsFollowTheWords` | include/vibevoice/q8.h:20-50 | each layout puts the columns where its reader expects them: in place, even then odd columns for the CPU, even then odd slots of a packed word for the GEMV, low then high halves of all words for the MMA |
| `Q8.RunSumInAnyLayout` | include/vibevoice/q8.h:5-10 | a sum over a run of 32 does not depend on the layout |
| `Quantize.QuantClose` | src/cpu/cpu_int8.c:164-173 | the clamp never acts, codes stay within 127, and a code stands for its value to within half a step |
| `Quantize.StoredCodes` | src/cpu/cpu_int8.c:157-179 | column k is stored at its place of its run, as the number of steps nearest to it, the even one at a tie; and a run sum is the sum of the 32 bytes stored |
| `Quantize.SlotIsInjective` | src/cpu/cpu_int8.c:166-175 | no two columns of a row are written to the same place |
| `Quantize.QuantRun` | src/cpu/cpu_int8.c:168-177 | a run of 32 columns is stored in layout order and its codes are added up |
| `Quantize.QuantRow` | src/cpu/cpu_int8.c:157-179 | a row is stored in layout order, with the sum of each run where asked for, one step being the largest magnitude over 127 |
| `Quantize.QuantAct` | src/cpu/cpu_int8.c:181-194 | all rows, with or without the sums by run; bad shapes are rejected and write nothing |
| `Quantize.CodesAreSmall` | src/cpu/cpu_int8.c:170-176 | every byte stored is within 127 |
| `Bits.RoundTie` | src/cpu/cpu_int8.c:171-171 | rounding takes the even integer at a tie |
| `W4A8.ChunkInOrder` | src/cpu/cpu_int8.c:220-227 | 16 weight bytes split by nibble meet the activations of the nibble layout column by column |
| `W4A8.EightChunksFit` | src/cpu/cpu_int8.c:262-272 | eight chunks keep a 16-bit lane within 30480 for activations within 127, and within 16 bits even for -128 |
| `W4A8.GroupAvx2` | src/cpu/cpu_int8.c:310-334 | with wrapping lanes modelled, the eight lanes of a group add up to its dot product in column order, whatever the number of chunks left pending |
| `W4A8.GroupScalar` | src/cpu/cpu_int8.c:218-228 | so does the scalar loop |
| `W4A8.ZeroPointFactors` | src/cpu/cpu_int8.c:229-230 | the dot product with raw codes less zero point times the activation sum is the dot product of the shifted codes |
| `W4A8.RowAvx2` | src/cpu/cpu_int8.c:300-350 | a row is the sum over groups of scale times shifted dot product, the correction kept apart as in the source |
| `W4A8.RowScalar` | src/cpu/cpu_int8.c:212-234 | so is the scalar row, without 32-bit overflow |
| `W4A8.RowIsColumnSum` | src/cpu/cpu_int8.c:8-9 | that sum is `sum_k s_g (q_k - z_g) x_k` over the columns in their natural order |
| `W4A8.WeightIs` | src/cpu/cpu_int8.c:216-230 | the weight of column k: its nibble, the high one for an even column, less the zero point of its group, times the scale |
| `W4A8.ActivationIs` | src/cpu/cpu_int8.c:220-227 | its activation is read at the place of k in the nibble layout |
| `W4A8.ColumnStep` | src/cpu/cpu_int8.c:5-9 | the sums over columns take in weight times stored activation, weight times activation, and magnitude of the weight |
| `W4A8.GroupSums` | src/cpu/cpu_int8.c:521-531 | the sums by group rebuilt from the sums by run are the sums of the activations of the group |
| `W4A8.Block` | src/cpu/cpu_int8.c:508-541 | one block of 16 weight rows writes its columns of the output and no others |
| `W4A8.Gemm` | src/cpu/cpu_int8.c:489-543 | for every order of blocks, each output is `sx * sum_k s_g (q_k - z_g) x_k`, plus the bias of its own column if there is one; each refusal has its condition and writes nothing |
| `W4A8.RowError` | src/cpu/cpu_int8.c:5-9 | the product with codes is within `sx / 2 * sum_k abs(w_k)` of the product with the activations |
| `W4A8.Linear` | src/inference/decoder.c:1398-1420 | quantizer and product together: every output of the layer, less the bias of its own column, is within half a step times the weight magnitudes of the product with unquantized activations, a step being the largest magnitude of the row over 127 |
| `Attention.OnlineStep` | src/cpu/cpu_kernels.c:1511-1519 | one more position takes the running weight and output from base m to base n: `l = sum exp(s_j - m)`, `o = sum exp(s_j - m) v_j` |
| `Attention.AnyBase` | src/cpu/cpu_kernels.c:1504-1522 | the softmax may be taken relative to any base, so the running maximum gives the two-pass result |
| `Attention.ShiftInvariant` | src/cpu/cpu_kernels.c:1504-1522 | a constant added to all scores changes nothing |
| `Attention.ConvexCombination` | src/cpu/cpu_kernels.c:1504-1522 | the result is a convex combination of the visible values: its weights depend on the scores alone, are positive and add up to one |
| `Attention.BetweenValues` | src/cpu/cpu_kernels.c:1504-1522 | the result lies between any bounds on the visible values |
| `Attention.ConstantValues` | src/cpu/cpu_kernels.c:1504-1522 | equal values come back unchanged: the weights add up to one |
| `Attention.IgnoresTheRest` | src/cpu/cpu_kernels.c:1498-1508 | positions past the causal limit do not matter |
| `Attention.OneHead` | src/cpu/cpu_kernels.c:1504-1522 | one pass over the visible positions writes the softmax average of the values, and zeros when none is visible |
| `Attention.Prefill` | src/cpu/cpu_kernels.c:1480-1526 | every row and head of the output is its softmax average over the positions it may see, as `RowIsSoftmax` spells out; nothing else is written |
| `Attention.RowIsSoftmax` | src/cpu/cpu_kernels.c:1495-1522 | row r, head h: `sum exp(s_j) v_j / sum exp(s_j)` over exactly the cached positions, in a causal prefill those up to `q_offset + r` with that one included; `s_j` is the scaled dot product with the key head of the group |
| `Attention.NeverLooksAhead` | src/cpu/cpu_kernels.c:1495-1508 | two caches that agree on the positions a row may see give it the same output |
| `Attention.EqualGroups` | src/cpu/cpu_kernels.c:1486-1497 | query heads in equal groups reach exactly the key heads there are; other head counts are covered with buffers that hold what is read |
| `Attention.Decode` | src/cpu/cpu_kernels.c:1528-1534 | so is the single row of decoding |
| `Attention.DecodeIsLastPrefillRow` | src/cpu/cpu_kernels.c:1528-1534 | decoding equals the last row of a causal prefill |
| `Resample.CenterStep` | src/audio/resample.c:47-48 | successive centres are at most `ceil(in_sr / out_sr)` samples apart |
| `Resample.BatchIs` | src/audio/resample.c:47-87 | an equal rate copies; otherwise `(n - 1) in_sr <= len out_sr < n in_sr` for the number n of outputs, and each is the weighted mean of the 33 samples around `floor(i in_sr / out_sr)`, or 0 where the weights do not exceed 1e-8 |
| `Resample.CeilRatioIs` | src/audio/resample.c:47-48 | the bound on the step is the ratio rounded up |
| `Resample.CenterBelowTotal` | src/audio/resample.c:86-87 | an output whose centre lies inside the input is one of the final outputs |
| `Resample.OutputSettled` | src/audio/resample.c:212-217 | more input never changes an output whose last tap has arrived |
| `Resample.ResampleOne` | src/audio/resample.c:44-69 | from a buffer that still holds every tap, the output of the whole signal |
| `Resample.AudioResample` | src/audio/resample.c:71-113 | the whole-signal form, with its error cases and the equal-rate copy |
| `Resample.FirstPending` | src/audio/resample.c:212-217 | the search stops at the first output that waits for a tap, and ends |
| `Resample.Resampler.Emit` | src/audio/resample.c:163-187 | emits the outputs up to the limit and drops only input that no later output reads |
| `Resample.Resampler.Push` | src/audio/resample.c:189-221 | everything handed out so far is a prefix of the batch result, and after each push the buffer holds at most max(33, ceil(in_sr / out_sr) - 1) samples |
| `Resample.Resampler.Finish` | src/audio/resample.c:223-238 | after the end, what was handed out is the whole-signal result of everything pushed |
| `Resample.Resampler.EmittedStartsEveryBatch` | src/audio/resample.c:189-221 | whatever input may follow, what was handed out begins its batch result and is no longer than it |
| `Resample.ResampleInPieces` | src/audio/resample.c:189-238 | for every split into pushes, empty ones included, the concatenated outputs equal the whole-signal resample |
| `Align.NoAlignmentIsCheaper` | tools/wer.py:38-55 | no alignment of the two word lists costs less than the table says |
| `Align.ChosenAttains` | tools/wer.py:38-68 | the alignment the back pointers spell out aligns the two lists at exactly that cost |
| `Align.ChosenMatches` | tools/wer.py:58-68 | the traced pairs are its matching columns |
| `Align.MatchesClimb` | tools/wer.py:58-68 | matching pairs strictly increase in both coordinates and join equal words |
| `Align.ChosenIsFirstChoice` | tools/wer.py:47-54 | ties: whole columns before deletions before insertions, in the last column of every start of the alignment |
| `Align.FillRow` | tools/wer.py:39-54 | a row of the table from the one before, with the back pointer of the cheapest move |
| `Align.FillTable` | tools/wer.py:34-55 | all rows: the final cost and every back pointer |
| `Align.Trace` | tools/wer.py:56-68 | walking the back pointers returns exactly the matching pairs, first pair first |
| `Align.Align` | tools/wer.py:31-69 | the cost is the minimum over all alignments, and the pairs come from the alignment of that cost that prefers whole columns, then deletions |
| `SlotPool.StepKeepsWake` | src/engine/engine.c:211-247 | every step keeps: with sleepers, free slots are covered by threads about to look or to signal |
| `SlotPool.StepKeepsOwner` | src/engine/engine.c:211-247 | every step keeps: a thread that has a slot has it alone, and it is marked busy |
| `SlotPool.StepKeepsNoLeak` | src/engine/engine.c:211-247 | every step keeps: a busy slot belongs to some thread |
| `SlotPool.StepKeepsCount` | src/engine/engine.c:217-224 | every step keeps: the counter is the number of busy flags |
| `SlotPool.RunKeeps` | src/engine/engine.c:211-247 | the invariant holds in every state of every run, with timeouts and chance wakeups anywhere |
| `SlotPool.SlotsAreExclusive` | src/engine/engine.c:211-247 | in every reachable state no slot has two holders, a slot is busy if and only if a thread owns it, and `n_busy` counts the flags |
| `SlotPool.NoLostWakeup` | src/engine/engine.c:225-247 | with the lock free and a thread asleep, no more slots are free than woken threads are about to rescan |
| `SlotPool.WaitsByItsLastCall` | src/engine/engine.c:211-234 | over runs: a thread that waits, or gave up, goes by the deadline of its last call, whatever happened in between |
| `SlotPool.CanGiveUp` | src/engine/engine.c:225-234 | with the lock free and every slot taken, a thread whose wait has a deadline can come to return -1 by its own steps |
| `SlotPool.GivesUpIff` | src/engine/engine.c:211-236 | a waiting thread can come to return -1 by its own steps if and only if its last call set a deadline and every slot is taken |
| `SlotPool.CanSleep` | src/engine/engine.c:225-236 | it can also go back to sleep |
| `SlotPool.CanTake` | src/engine/engine.c:211-224 | with a slot free its own steps take the lowest, mark it and count it |
| `SlotPool.CanWake` | src/engine/engine.c:225-236 | a sleeping thread can wake at any time |
| `SlotPool.CanReturn` | src/engine/engine.c:241-247 | a holder gives its slot back by its own steps: the flag and the count go down and one sleeper, if there is any, wakes |
| `SlotPool.TakeAndReturn` | src/engine/engine.c:211-247 | acquiring and releasing leaves the pool as it was |
| `SlotPool.StepsReach` | src/engine/engine.c:211-247 | what steps lead to from an unused pool is reachable, by a run through the states on the way |
| `SlotPool.ReachedBySteps` | src/engine/engine.c:211-247 | and every run is one of steps |
| `SlotPool.GivesUpOnlyWhenFull` | src/engine/engine.c:229-234 | in any run only a timed waiter returns -1, and only when every slot is taken |
| `SlotPool.AcquireTakesLowest` | src/engine/engine.c:217-224 | the slot acquired was free and every lower one taken |
| `SlotPool.StuckOnlyWhenAllInUse` | src/engine/engine.c:211-247 | if nothing can move by itself and a thread sleeps, every slot is in use by a thread that has yet to return it |
| `Placement.Engine.FillDevice` | src/engine/engine.c:36-59 | makes an owner and clones up to the first failure, and writes nothing else |
| `Placement.FilledKeeps` | src/engine/engine.c:36-59 | filling one device keeps a dense prefix, owners before their clones, devices in order and the replica count |
| `Placement.CapIsIdle` | src/engine/engine.c:139-141 | the cap on a device's share never acts |
| `Placement.StartStep` | src/engine/engine.c:138-139 | the shares follow one another and add up to n |
| `Placement.ShareIff` | src/engine/engine.c:139-140 | a device is skipped if and only if there is no slot for it |
| `Placement.SharesBalance` | src/engine/engine.c:139-139 | shares differ by at most one, and earlier devices have the larger ones |
| `Placement.SpansIs` | src/engine/engine.c:114-135 | all slots share one owner exactly with one device, with layers split, or with fewer slots than devices in automatic mode |
| `Placement.Engine.Shard` | src/engine/engine.c:132-135 | one owner and its clones, for every pattern of failures; no slot if and only if the owner failed |
| `Placement.Engine.Replicate` | src/engine/engine.c:136-149 | for every pattern of failures the placement is well formed; without failures every device holds its share; no slot if and only if every owner failed |
| `Placement.Create` | src/engine/engine.c:74-152 | for every slot count, device count, split mode and pattern of failures: a dense prefix of at most n, each owner before its clones; one owner for all where the model is split over devices, else an owner on every device that has a slot; exactly n when nothing fails; no engine if and only if no device takes the weights |
| `Placement.Engine.Free` | src/engine/engine.c:181-187 | releasing in reverse releases every context once, each when no live clone borrows from it |
| `CommandLine.OneQuoted` | src/core/vv_spawn.c:63-85 | a quoted argument followed by a separator is read back whole, whatever backslash runs and quotes it has |
| `CommandLine.OnePlain` | src/core/vv_spawn.c:63-67 | so is an argument that needs no quotes |
| `CommandLine.ArgsOfTail` | src/core/vv_spawn.c:115-122 | every list of arguments is read back exactly |
| `CommandLine.QuotesIff` | src/core/vv_spawn.c:63-67 | an argument goes bare if and only if it is not empty and has no blank, tab, newline, vertical tab or quote in it |
| `CommandLine.InsideOfName` | src/core/vv_spawn.c:63-85 | for a name without quotes, quoting only doubles trailing backslashes |
| `CommandLine.RoundTrip` | src/core/vv_spawn.c:56-122 | the arguments after the program name round-trip under every reading of doubled quotes; the program name does if and only if it needs no quotes or does not end in a backslash |
| `CommandLine.NameWithBackslash` | src/core/vv_spawn.c:112-122 | a name that comes back wrong: `a b` followed by a backslash |
| `CommandLine.WideBuffer.Put` | src/core/vv_spawn.c:33-50 | appending grows the buffer as needed and keeps its contents |
| `CommandLine.WideBuffer.Fill` | src/core/vv_spawn.c:52-54 | appends the character n times |
| `CommandLine.WideBuffer.PutArgument` | src/core/vv_spawn.c:63-85 | appends the argument bare or in quotes, as those characters decide |
| `CommandLine.CommandFor` | src/core/vv_spawn.c:108-126 | refuses an empty list or name, a quote in the name and an over-long line, and only those; otherwise the line parses back to the arguments |
| `Vad.RunAppend` | src/audio/vad.c:257-272 | the detector run on a concatenation is the run on the parts |
| `Vad.FrameHolds` | src/audio/vad.c:168-230 | a frame keeps what the detector holds of the input, or closes a segment that ends with it |
| `Vad.SegmentsAreSlices` | src/audio/vad.c:157-230 | every emitted segment is a slice of the input with its trigger frame twice; slices are in order, do not overlap, start a full pre-roll before the end of the trigger frame or at the end of the one before, and have at most `max(pre_cap + frame, max_seg - 1) + frame` samples |
| `Vad.FlushIsSlice` | src/audio/vad.c:292-302 | so is the segment that the end of the stream closes |
| `Vad.SliceIsContiguous` | src/audio/vad.c:197-207 | without the second copy of the trigger frame a segment is exactly a contiguous piece of the input |
| `Vad.OpensIff` | src/audio/vad.c:196-213 | with no segment open a frame opens one if and only if the unbroken run of frames above the start level that ends with it has `min_speech` samples |
| `Vad.ClosesIff` | src/audio/vad.c:215-229 | an open segment closes at a frame if and only if it reaches `max_seg` samples or the unbroken run of frames below the stop level that ends with it has `hangover` samples; it comes out whole |
| `Vad.ThresholdsAre` | src/audio/vad.c:63-73 | the start level is at least the configured one and, when adapting, the floor plus margin, and one of the two; the stop level is lower by the configured gap, if that is positive |
| `Vad.FloorFollows` | src/audio/vad.c:168-188 | the floor is the level of the first frame, then falls half way and climbs a twentieth of the way on quiet frames outside segments only, and never lies below -90 |
| `Vad.FlushIff` | src/audio/vad.c:292-302 | the end of a stream closes the open segment, partial frame included, and nothing otherwise |
| `Vad.RestOnlyGathers` | src/audio/vad.c:257-272 | samples of an unfinished frame open and close nothing |
| `Vad.Segmenter.PrePush` | src/audio/vad.c:95-101 | the ring then holds the newest `pre_cap` samples |
| `Vad.Segmenter.PreDrain` | src/audio/vad.c:104-111 | moves the ring into the segment, oldest first |
| `Vad.Segmenter.ProcessFrame` | src/audio/vad.c:168-230 | on the buffers as on the value: level, floor, runs, opening and closing of a segment, which `OpensIff`, `ClosesIff` and `FloorFollows` characterize |
| `Vad.Segmenter.FifoPush` | src/audio/vad.c:233-254 | compaction and growth leave the pending samples as they were, the new ones after them |
| `Vad.Segmenter.DrainOnce` | src/audio/vad.c:258-270 | one turn of the drain loop, on the buffers as on the value |
| `Vad.Segmenter.Drain` | src/audio/vad.c:257-272 | consumes pending samples to the next closed segment exactly as the one-sample detector does, and ends |
| `Vad.Segmenter.Push` | src/audio/vad.c:274-279 | adds samples and drains; at most one segment comes back and nothing is lost |
| `Vad.Segmenter.EndOfStream` | src/audio/vad.c:292-302 | the partial frame joins an open segment, which is emitted; otherwise it is dropped |
| `Vad.Segmenter.Feed` | src/audio/vad.c:274-290 | pushing a piece and draining until nothing closes leaves the detector state and gives the segments of the one-sample detector |
| `Vad.SegmentInPieces` | src/audio/vad.c:274-302 | any split of a stream gives the same segments |
| `Vad.TurnConsumes` | src/audio/vad.c:257-267 | a turn of the drain loop on pending samples consumes if and only if the frame has room |
| `Vad.EmptyFrameSpins` | src/audio/vad.c:257-271 | with a frame length of 0 a new segmenter spins: after any number of turns nothing is consumed |
| `Vad.FrameHasSample` | src/audio/vad.c:116-122 | a frame is a fiftieth of a second, rounded down; it has a sample if and only if the sample rate is at least 50, which creation does not check |
| `Awq.StepsNear` | tools/convert_awq.py:191-194 | clipping costs nothing but at an exact tie while the range comes within half a step of zero |
| `Awq.GroupNearIff` | tools/convert_awq.py:186-194 | a group is represented to within half a step if and only if `lo <= s/2` and `hi >= -s/2` (equal values: within 15.5) |
| `Awq.RangeAroundZero` | tools/convert_awq.py:186-194 | in particular every group whose range contains zero |
| `Awq.FarFromZero` | tools/convert_awq.py:186-194 | a group that is not: 14 and 29 |
| `Awq.ScaleIs` | tools/convert_awq.py:189-190 | a step is a fifteenth of the range of the group, or 1 where all values are equal |
| `Awq.CodeIsNearest` | tools/convert_awq.py:193-194 | for every group, representable or not: no code stands for a value nearer than the one given; a tie goes to the even distance from the zero point |
| `Awq.ZeroIsNearest` | tools/convert_awq.py:191-191 | the zero point is the number from 0 to 15 nearest to `-lo` in steps, the even one at a tie |
| `Awq.OrDigit` | tools/convert_awq.py:201-203 | or-ing a nibble into a clear place puts it there and changes no other |
| `Awq.WordRead` | tools/convert_awq.py:196-203 | a packed word is 32 bits and gives every column back from its permuted nibble |
| `Awq.NibblePlaces` | tools/convert_awq.py:196-203 | the even columns of a word are its low four nibbles in turn, the odd columns its high four |
| `Awq.PackWords` | tools/convert_awq.py:196-203 | for every shape, the nibble read at the permuted place is the code packed |
| `Awq.QuantizeAwq` | tools/convert_awq.py:180-206 | words, zero points and scales hold the step, zero point and codes of every group, and what is read back is within half a step in exactly the groups that allow it; fails exactly on shapes that do not divide |
| `WebSocket.XorAsIntegers` | tools/stream_client.py:96-98 | xor of two long integers is xor byte by byte |
| `WebSocket.BodyIsMasked` | tools/stream_client.py:94-98 | the body is the masking of section 5.3 of RFC 6455 |
| `WebSocket.HeaderReads` | tools/stream_client.py:86-93 | a length in any of the three classes reads back, and is legal if and only if below 2^63 |
| `WebSocket.TwoAndEightBytes` | tools/stream_client.py:89-93 | lengths go out most significant byte first |
| `WebSocket.FromTwoAndEight` | tools/stream_client.py:113-121 | and are read so |
| `WebSocket.SentBytes` | tools/stream_client.py:85-100 | byte by byte: final bit and opcode, mask bit and length, key, and each payload byte xored with byte `i mod 4` of the key |
| `WebSocket.NotShortestIsMalformed` | tools/stream_client.py:102-121 | the decoder for section 5.2 rejects lengths in more bytes than needed and those of 2^63 or more |
| `WebSocket.SentFrameDecodes` | tools/stream_client.py:85-100 | a decoder for section 5.2 reads back the payload and the opcode, with opcode bits past four among the reserved ones |
| `WebSocket.SentAllDecodes` | tools/stream_client.py:85-100 | every sequence of messages reads back frame by frame |
| `WebSocket.NextIsDecode` | tools/stream_client.py:111-126 | on unmasked frames the client reads what section 5.2 says |
| `WebSocket.ServerAllReads` | tools/stream_client.py:111-126 | every sequence of server frames is received, and a frame cut short stays behind |
| `WebSocket.Connection.Send` | tools/stream_client.py:85-100 | appends the frame to what was sent, or nothing when the opcode or length does not fit |
| `WebSocket.Connection.SendAll` | tools/stream_client.py:85-100 | a decoder for section 5.2 reads exactly the messages from everything sent, with nothing left |
| `WebSocket.Connection.Need` | tools/stream_client.py:104-110 | reads until enough is buffered or the peer has closed; the stream is unchanged |
| `WebSocket.Connection.Recv` | tools/stream_client.py:102-126 | the next message of the stream however it was chopped; on close, nothing received is lost |
| `WebSocket.Connection.ReceiveAll` | tools/stream_client.py:102-126 | all messages of the stream, the rest left in the buffer |
| `WebSocket.ReceiveInPieces` | tools/stream_client.py:102-126 | whatever pieces the socket delivers, exactly the frames sent |

## Left out

- Rounding of floating-point numbers: reals stand for them, so order of summation does not matter; scales are those before the cast to FP16.
- The exponential function: a parameter with `exp(x) > 0` and `exp(x + y) == exp(x) exp(y)`.
- The attention scale `1 / sqrt(head_dim)`: a parameter. Fewer query heads than key heads, where the source divides by zero.
- The resampler's filter: a parameter; `i / ratio` is taken as the exact `floor(i * in_sr / out_sr)`, and indices are unbounded.
- Resample.Resampler.constructor: positive rates, which creation insists on.
- NaN and infinite inputs and logits.
- Allocation failures, except the panels of the matrix product, the row buffers of the FP16 head and the contexts of the engine; in particular the row loop of the matrix product, which skips rows without a buffer.
- Gemm.Int4Gemm: excludes `K == 0` where the packed path runs, because the source then divides by zero; and models the INT4 group format, not NF4, FP16 or INT8 weights, whose packers differ only in how a weight is read. Threads interleave between packing a panel and each tile, not within them.
- Gemm.Micro: the portable micro-kernel and packers for any tile shape; not the AVX2 spelling of the 6 by 16 one nor the single-row AVX2 dot.
- Ternary.DriveBlocked: requires `K < 2^23`, past which sums may leave 32 bits, and nonzero activation scales.
- A bias with fewer entries than there are columns, which the source would read past the end of: the float outputs of those columns are not stated.
- Int8.Tile: the pairs of a tile are accumulated one after the other where the source interleaves them; the same for the activation rows of W4A8.
- VNNI and NEON variants, except the 512-bit ternary kernel; core topology, pinning and choice of instruction set.
- Int8.DotLanes: equals the dot product modulo 2^32, which is what the lanes hold; `Int8.DotFits` gives the range where that is the dot product.
- W4A8.Gemm: requires groups whose 32-bit sums cannot overflow: at most 1118464 columns for 4-bit zero points, 65792 for 8-bit ones.
- The W8A8 product: its dot is `Int8.DotLanes` with weights and activations exchanged, and its driver the blocks of `W4A8.Gemm`.
- Argmax.HeadArgmax: logits within the range of the initial value `-FLT_MAX`; the logits are a ghost parameter fixed by the inputs.
- Vad.SegmentInPieces: a stream followed by one end of stream; an end of stream while no segment is open drops a partial frame, so slices after resuming are not claimed.
- Vad.Segmenter.constructor: takes durations in samples; their conversion from milliseconds in floating point is not modelled.
- SlotPool: `completed` and the clock; a timed wait may expire at any moment.
- Placement: front-end services, logging, and what a context contains.
- CommandLine: widening from the code page; strings have no NUL inside.
- WebSocket.Connection.constructor: starts after the handshake, with whatever bytes followed it.
- WebSocket.Connection.Recv: fragmented messages and control frames are returned frame by frame, as the client does.
- Awq.QuantizeAwq: the reinterpretation of 32-bit words as signed, and the reading and writing of tensors.
- KV page pool, stream chunker, text emitter, GGUF reader, GPU kernels and their repacking, microphone ring, command-line parsing, logging and device enumeration.
