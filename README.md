# UniDirectionalLstm — a verified model of the CPU LSTM engine

This project models `UniDirectionalLstm<T>`, the engine that runs one direction
of the ONNX `LSTM` operator (opset 7) on the CPU. It also models the
operator-level shape checks and the way `DeepCpuLstmOp::ComputeImpl` cuts each
tensor into per-direction views. All of this lives in
`lotus/core/providers/cpu/rnn/deep_cpu_lstm.cc`.

The engine is a class over flat buffers. Its constructor:

- rearranges `W` and `R` into one row of `4*hidden` per feature, with the gates
  reordered from i, o, f, c to i, f, o, c;
- fuses `Wb + Rb` per gate;
- takes the peephole blocks of `P`;
- loads the initial states or zeros;
- picks a threading plan.

`Compute` then works in three phases:

1. It multiplies every input row by the rearranged `W` at once (`input_gemm`).
2. It runs the recurrence step by step. Either chunks of batch rows each run
   their own step loop, or all rows share one loop whose recurrent GEMM is
   split by columns. Each step adds `Ht-1 * R`, runs the gates of every row
   still running (`GateComputations`), snapshots the final cell row at each
   row's last step, and zeroes the output slots of finished rows.
3. It copies each row's last output to the final hidden state and, going in
   reverse, reverses the output back.

Elements are `real`, and every parallel-for is a sequential loop over its
disjoint chunks. Activations are uninterpreted `real -> real` functions. GEMM
is an exact sum of products.

The main results are these:

- The engine's buffers evolve, row by row and step by step, as the ONNX LSTM
  equations on the operator's own tensors prescribe (`RunFollowsEquations`,
  `EngineStepIsEquation`). The link from `Compute` to the equations is a chain
  of three contracts:
  - The constructor's ensures give the loaded weights as the block transposes
    of `W` and `R`, and the gate parameters as `EngineParams` of the tensors.
  - `Compute`'s ensures give the run `e` it leaves in the buffers, built from
    exactly those weights and parameters. Nothing after the constructor writes
    them.
  - `EngineRun.OutputFollowsEquations` and `RunFollowsEquations` turn every
    output slot, final hidden row and final cell row of such a run into the
    equations' value.
- The weight rearrangement is a bijection with an explicit inverse.
- The thread plan and the chunking tile each index range exactly.
- The finished-row mask, the final-cell snapshot and the zero fill do what the
  loop's own comment at line 962 ("set to 0 if step >= sequence_length") and
  the copies at lines 952-959 and 1058-1063 set out.

Modules, one per file:

- `IndexArith`, `Slots` and `MatMul`: flat-buffer index arithmetic, row slots
  of step-major tilings, and GEMM.
- `WeightLayout`: the block transpose.
- `SequenceLengths`: default lengths, min and max.
- `ThreadPlan`: SetNumThreads and the chunking.
- `GateMath` and `GateKernels`: the per-unit gate pipeline, and the per-row
  kernels working in place.
- `LstmEquations`: the operator's equations and their agreement with the
  engine's pipeline.
- `EngineRun` and `StepViews`: the per-row run, and the loop invariants over
  the buffers.
- `EngineGemms`: the input GEMM and the two recurrent-GEMM regimes.
- `ReverseSequence`: the step reversal of the reverse direction.
- `ComputeResults`: what `Compute` leaves.
- `LstmEngine`: the engine class.
- `Validation`: ValidateInputs and the direction slicing.

## Model

| member | source | states |
|---|---|---|
| LstmEngine.UniDirectionalLstm.constructor | lotus/core/providers/cpu/rnn/deep_cpu_lstm.cc:552-602 | The engine holds W and R rearranged by the block transpose, and the bias/peephole flags set exactly when B/P are non-empty. The thread plan is NumThreads of the hardware concurrency. The initial states are as InitializeBuffers leaves them, the pre-activations are zero, and the gate parameters equal EngineParams of the operator's tensors. |
| LstmEngine.UniDirectionalLstm.AllocateBuffers | lotus/core/providers/cpu/rnn/deep_cpu_lstm.cc:604-643 | Every buffer is fresh and distinct from the others, with the size the source allocates. The bias buffers are empty without a bias, the reverse buffers empty going forward and the peephole buffers empty without peepholes. output_ifog, hidden0 and the cell state are zero filled. |
| LstmEngine.UniDirectionalLstm.NewZeroed | lotus/core/providers/cpu/rnn/deep_cpu_lstm.cc:609-612 | An allocation with fill: a fresh buffer of the requested size, all zeros. |
| LstmEngine.InitialState | lotus/core/providers/cpu/rnn/deep_cpu_lstm.cc:645-659 | An absent state gives zeros. A given one is copied over the start of the buffer and the rest is kept. |
| LstmEngine.InitialStateGiven | lotus/core/providers/cpu/rnn/deep_cpu_lstm.cc:648-650 | A full-size given state replaces the buffer entirely. |
| LstmEngine.UniDirectionalLstm.InitializeBuffers | lotus/core/providers/cpu/rnn/deep_cpu_lstm.cc:645-659 | Each of batched_hidden0 and the cell state becomes InitialState of the given state and its old contents. |
| LstmEngine.UniDirectionalLstm.LoadAllWeights | lotus/core/providers/cpu/rnn/deep_cpu_lstm.cc:661-691 | W and R become their block transposes. The peepholes are loaded only when P is non-empty and the biases fused only when B is non-empty. |
| LstmEngine.UniDirectionalLstm.CopyWeightWithTranspose | lotus/core/providers/cpu/rnn/deep_cpu_lstm.cc:710-713 | For one feature and gate position, unit c receives source cell `in[gIn*d0*d1 + c*d1 + row]`. Every other cell is unchanged. |
| LstmEngine.UniDirectionalLstm.GateLoaded | lotus/core/providers/cpu/rnn/deep_cpu_lstm.cc:715-720 | Copying gate position k of feature `row` extends the loaded cells by exactly that gate. |
| LstmEngine.UniDirectionalLstm.LoadWeightsWithTranspose | lotus/core/providers/cpu/rnn/deep_cpu_lstm.cc:693-721 | The output is exactly Transposed(input): all 4*d0*d1 cells hold their source cells. |
| LstmEngine.UniDirectionalLstm.CopyFusedBias | lotus/core/providers/cpu/rnn/deep_cpu_lstm.cc:759-765 | `out[j] == B[off+j] + B[off+j+4h]` for every unit j. |
| LstmEngine.UniDirectionalLstm.LoadBias | lotus/core/providers/cpu/rnn/deep_cpu_lstm.cc:756-771 | The fused biases of i, o, f and c come from offsets 0, h, 2h and 3h of B. |
| LstmEngine.UniDirectionalLstm.LoadPeepholeWeights | lotus/core/providers/cpu/rnn/deep_cpu_lstm.cc:723-731 | The peepholes are i = P[0,h), o = P[h,2h) and f = P[2h,3h). |
| LstmEngine.UniDirectionalLstm.ParamsLoaded | lotus/core/providers/cpu/rnn/deep_cpu_lstm.cc:661-691 | Buffers loaded from the operator's tensors give exactly the gate parameters EngineParams builds from them. |
| LstmEngine.UniDirectionalLstm.Params | lotus/core/providers/cpu/rnn/deep_cpu_lstm.cc:1113-1167 | The parameters GateComputations reads are well formed and have the engine's hidden size. |
| LstmEngine.UniDirectionalLstm.Tilings | lotus/core/providers/cpu/rnn/deep_cpu_lstm.cc:604-634 | The allocated buffers are exact step-major tilings of batch rows. |
| LstmEngine.UniDirectionalLstm.SetNumThreads | lotus/core/providers/cpu/rnn/deep_cpu_lstm.cc:1201-1239 | The three stored fields equal NumThreads(hardware concurrency, batch, hidden). |
| ThreadPlan.AvailableThreads | lotus/core/providers/cpu/rnn/deep_cpu_lstm.cc:1203-1206 | The result is max(1, hw - 1), and so at least 1. |
| ThreadPlan.NumThreads | lotus/core/providers/cpu/rnn/deep_cpu_lstm.cc:1201-1239 | Input threads are in [1,24], at most 16 when hidden ≤ 256, and equal min(threads, cap). batch_parallel holds iff batch > 4 or (batch ≥ 2 and hidden ≤ 256), and then the hidden threads are all available threads. Otherwise they are min(threads, 2/5/7/11) by hidden-size band, or all threads above 1024. Hidden threads are never below 1. |
| ThreadPlan.ChunkSize | lotus/core/providers/cpu/rnn/deep_cpu_lstm.cc:856-858 | The chunk is ceil(total/threads): chunk*threads covers total, one less does not, and it is at least 1 when total > 0. |
| ThreadPlan.ChunkLength | lotus/core/providers/cpu/rnn/deep_cpu_lstm.cc:861-865 | The task length is between 1 and chunk, ends at or before total, and equals chunk when the chunk fits. |
| ThreadPlan.ChunksTile | lotus/core/providers/cpu/rnn/deep_cpu_lstm.cc:856-865 | Every index below total lies in the task starting at (i/chunk)*chunk, and in no other task. |
| ThreadPlan.TaskCount | lotus/core/providers/cpu/rnn/deep_cpu_lstm.cc:886-888 | A loop cut into ChunkSize(total, threads) pieces starts at most `threads` tasks: every task index k with k·chunk < total is below `threads`. |
| ThreadPlan.ColumnsTile | lotus/core/providers/cpu/rnn/deep_cpu_lstm.cc:994-999 | The column ranges start at 0 and follow one another without gap or overlap. The last one ends exactly at 4h. |
| ThreadPlan.ColumnOwner | lotus/core/providers/cpu/rnn/deep_cpu_lstm.cc:994-999 | Every column below 4h lies in the range of some thread k < threads. |
| ThreadPlan.ColumnOwnerUnique | lotus/core/providers/cpu/rnn/deep_cpu_lstm.cc:994-999 | No column lies in the ranges of two threads. |
| ThreadPlan.StartsIncrease | lotus/core/providers/cpu/rnn/deep_cpu_lstm.cc:994-999 | A thread's range ends no later than any later thread's range starts. |
| WeightLayout.GateIn | lotus/core/providers/cpu/rnn/deep_cpu_lstm.cc:696-706 | The gate map is engine i,f,o,c ← source i,o,f,c (0→0, 1→2, 2→1, 3→3). |
| WeightLayout.GateMapsInverse | lotus/core/providers/cpu/rnn/deep_cpu_lstm.cc:696-706 | GateIn and GateOut are mutually inverse. |
| WeightLayout.SourceInRange | lotus/core/providers/cpu/rnn/deep_cpu_lstm.cc:710-713 | Every source index lies in the tensor, and distinct (gate, unit, feature) triples read distinct cells. |
| WeightLayout.TargetInRange | lotus/core/providers/cpu/rnn/deep_cpu_lstm.cc:710-713 | Every target index lies in the buffer, and distinct triples write distinct cells. |
| WeightLayout.TargetFields | lotus/core/providers/cpu/rnn/deep_cpu_lstm.cc:710-713 | Every buffer index is the target of exactly one triple, so every output cell is written. |
| WeightLayout.SourceFields | lotus/core/providers/cpu/rnn/deep_cpu_lstm.cc:710-713 | Every tensor index is the source of exactly one triple. |
| WeightLayout.TransposedAt | lotus/core/providers/cpu/rnn/deep_cpu_lstm.cc:710-713 | `out[row*4*d0 + GateOut(gIn)*d0 + c] == in[gIn*d0*d1 + c*d1 + row]`. |
| WeightLayout.TargetOutside | lotus/core/providers/cpu/rnn/deep_cpu_lstm.cc:715-720 | Cells of earlier features or gate positions lie outside the run one copy writes. |
| WeightLayout.TransposedFromCells | lotus/core/providers/cpu/rnn/deep_cpu_lstm.cc:693-721 | A buffer in which every target cell holds its source cell is the transform. |
| WeightLayout.UntransposeTransposed | lotus/core/providers/cpu/rnn/deep_cpu_lstm.cc:693-721 | Round trip: undoing the transform gives back the original tensor. |
| WeightLayout.TransposeUntransposed | lotus/core/providers/cpu/rnn/deep_cpu_lstm.cc:693-721 | The reverse round trip, so the transform is a bijection on 4*d0*d1 cells. |
| SequenceLengths.EffectiveLengths | lotus/core/providers/cpu/rnn/deep_cpu_lstm.cc:802-806 | Missing lengths become seq_length for every row. Given ones are used as they are. |
| SequenceLengths.MaxElement | lotus/core/providers/cpu/rnn/deep_cpu_lstm.cc:840 | The result is an element that no element exceeds. |
| SequenceLengths.MinElement | lotus/core/providers/cpu/rnn/deep_cpu_lstm.cc:845-846 | The result is an element that no element undercuts. |
| SequenceLengths.MinSequenceLength | lotus/core/providers/cpu/rnn/deep_cpu_lstm.cc:845-846 | The result is min(seq_length, min element), which is ≤ every length and ≤ seq_length. |
| SequenceLengths.FinishedIffPastLength | lotus/core/providers/cpu/rnn/deep_cpu_lstm.cc:1088 | The mask `step >= min && step >= len[r]` holds iff `step >= len[r]`. |
| SequenceLengths.DefaultLengthsUniform | lotus/core/providers/cpu/rnn/deep_cpu_lstm.cc:802-806 | With default lengths, min = max = seq_length. |
| SequenceLengths.LengthBounds | lotus/core/providers/cpu/rnn/deep_cpu_lstm.cc:839-847 | In-range lengths give min ≤ every length ≤ max ≤ seq_length. |
| MatMul.Gemm | lotus/core/providers/cpu/rnn/deep_cpu_lstm.cc:870-876 | ComputeGemm with alpha 1: each cell of the m×n block of C becomes A·B (beta 0) or C + A·B (beta 1). Nothing outside the block changes. |
| MatMul.GemmRow | lotus/core/providers/cpu/rnn/deep_cpu_lstm.cc:870-876 | One row of that block gets its new values and nothing else changes. |
| EngineGemms.InputGemm | lotus/core/providers/cpu/rnn/deep_cpu_lstm.cc:861-879 | One task of input_gemm: each flat row in its range holds x·Wᵀ (overwriting), and nothing else changes. |
| EngineGemms.ProjectedGrows | lotus/core/providers/cpu/rnn/deep_cpu_lstm.cc:881-882 | Projecting a chunk after the rows below it extends the projected rows. |
| LstmEngine.UniDirectionalLstm.ProjectChunk | lotus/core/providers/cpu/rnn/deep_cpu_lstm.cc:861-879 | One task keeps the rows below it projected and projects its own rows. |
| LstmEngine.UniDirectionalLstm.InputProjection | lotus/core/providers/cpu/rnn/deep_cpu_lstm.cc:849-882 | After all tasks, every pre-activation slot of steps below max_sequence_length holds its row's input times Wᵀ. |
| EngineGemms.HiddenGemmRows | lotus/core/providers/cpu/rnn/deep_cpu_lstm.cc:920-928 | Batch-parallel regime: each row of the chunk at step s gets Ht-1·Rᵀ added, reading Ht-1 from the row's slot of the previous-state buffer. Nothing else changes. |
| EngineGemms.ColumnThread | lotus/core/providers/cpu/rnn/deep_cpu_lstm.cc:994-1009 | Thread k adds the recurrent product to its columns of all rows. |
| EngineGemms.ColumnsExtended | lotus/core/providers/cpu/rnn/deep_cpu_lstm.cc:994-1012 | Each thread extends the added columns by its own and keeps everything else. |
| EngineGemms.ColumnThreads | lotus/core/providers/cpu/rnn/deep_cpu_lstm.cc:1011-1012 | Together, the column threads add Ht-1·Rᵀ to every row, exactly as one full GEMM would. |
| EngineGemms.HiddenGemmColumns | lotus/core/providers/cpu/rnn/deep_cpu_lstm.cc:985-1012 | Column regime: every row of step s gets Ht-1·Rᵀ added (the same result as the batch regime), and nothing outside the step changes. |
| EngineGemms.RecurrentRow | lotus/core/providers/cpu/rnn/deep_cpu_lstm.cc:912-928 | A block that got the product, read per batch row, is each row WithRecurrence of its Ht-1. |
| EngineRun.TwoGemms | lotus/core/providers/cpu/rnn/deep_cpu_lstm.cc:861-876 | The input GEMM followed by the accumulating recurrent GEMM gives exactly EnginePre, that is x·Wᵀ + h·Rᵀ per column. |
| GateMath.ClipBounds | lotus/core/providers/cpu/rnn/deep_cpu_lstm.cc:1120 | With threshold ≥ 0, Clip lies in [-t, t] and leaves values already inside alone. |
| GateMath.ActivationInputsClipped | lotus/core/providers/cpu/rnn/deep_cpu_lstm.cc:88-90 | With clip ≥ 0, the value each gate hands to its activation (f for i, f and o, g for the candidate) lies in [-clip, clip], whatever the pre-activation, bias and peephole terms were. |
| GateMath.GatesAfterAt | lotus/core/providers/cpu/rnn/deep_cpu_lstm.cc:1098-1167 | After the pipeline, segments 0..3 of the row hold i, f, o and the activated candidate. |
| GateMath.InputForgetCoupled | lotus/core/providers/cpu/rnn/deep_cpu_lstm.cc:1124-1137 | With input_forget, f = 1 - i. The forget segment, forget bias and forget peephole are never read: changing them changes no gate, cell or hidden value. |
| GateMath.CoupledUnit | lotus/core/providers/cpu/rnn/deep_cpu_lstm.cc:1124-1127 | The same for one unit. |
| GateMath.PeepholesUnused | lotus/core/providers/cpu/rnn/deep_cpu_lstm.cc:1113-1117 | Without peepholes the peephole views are never read. |
| GateMath.SameUnit | lotus/core/providers/cpu/rnn/deep_cpu_lstm.cc:1113-1167 | Rows and parameters whose four gates agree give the same cell and hidden values. |
| GateKernels.ElementwiseProduct | lotus/core/providers/cpu/rnn/deep_cpu_lstm.cc:1115-1116 | `out[k] += cur[k] * w[k]` on n values, and nothing else changes. |
| GateKernels.ClipWithBias | lotus/core/providers/cpu/rnn/deep_cpu_lstm.cc:1119-1120 | The bias is added only when there is one, then the value is clipped. Nothing else changes. |
| GateKernels.Activate | lotus/core/providers/cpu/rnn/deep_cpu_lstm.cc:1121 | The activation is applied in place to n values. |
| GateKernels.CoupleForgetGate | lotus/core/providers/cpu/rnn/deep_cpu_lstm.cc:1125-1127 | `f[k] = 1 - i[k]`, and nothing else changes. |
| GateKernels.MergeGatesToMemory | lotus/core/providers/cpu/rnn/deep_cpu_lstm.cc:1148-1155 | The cell row is overwritten in place with f·C + i·g. |
| GateKernels.MergeToHidden | lotus/core/providers/cpu/rnn/deep_cpu_lstm.cc:1170-1184 | `H[k] = o[k] * h(C[k])` is written to the output slot, and nothing else changes. |
| GateKernels.FillZeros | lotus/core/providers/cpu/rnn/deep_cpu_lstm.cc:1089-1091 | std::fill with zeros over n values, and nothing else changes. |
| GateKernels.PeepholeRow | lotus/core/providers/cpu/rnn/deep_cpu_lstm.cc:1114-1117 | Each value gets cell·peephole added when peepholes are on, and is unchanged otherwise. |
| GateKernels.ClipActivateRow | lotus/core/providers/cpu/rnn/deep_cpu_lstm.cc:1119-1121 | Each value becomes f(ClipBias(value)). |
| GateKernels.InputGateRow | lotus/core/providers/cpu/rnn/deep_cpu_lstm.cc:1113-1122 | The i segment holds InputGate of the pre-activations and the previous cell. |
| GateKernels.ForgetGateRow | lotus/core/providers/cpu/rnn/deep_cpu_lstm.cc:1124-1137 | The f segment holds ForgetGate: 1 - i when coupled, the peepholed, biased, clipped and activated value otherwise. |
| GateKernels.PlainForgetGateRow | lotus/core/providers/cpu/rnn/deep_cpu_lstm.cc:1128-1136 | The uncoupled forget gate. |
| GateKernels.CandidateGateRow | lotus/core/providers/cpu/rnn/deep_cpu_lstm.cc:1141-1144 | The c segment holds g of the clipped, biased candidate. It has no peephole. |
| GateKernels.LeadingGates | lotus/core/providers/cpu/rnn/deep_cpu_lstm.cc:1113-1144 | i, f and c replace their segments. The o segment and the rest of the buffer are untouched. |
| GateKernels.CellRow | lotus/core/providers/cpu/rnn/deep_cpu_lstm.cc:1147-1155 | The previous-cell row is overwritten in place by the new cell values. |
| GateKernels.OutputGateRow | lotus/core/providers/cpu/rnn/deep_cpu_lstm.cc:1158-1167 | The o segment holds OutputGate, whose peephole reads the NEW cell value. |
| GateKernels.HiddenRow | lotus/core/providers/cpu/rnn/deep_cpu_lstm.cc:1169-1184 | The output slot gets the new hidden values o·h(C). |
| GateKernels.GateRow | lotus/core/providers/cpu/rnn/deep_cpu_lstm.cc:1098-1184 | For one running row, the four segments become GatesAfter, the cell row becomes CellAfter and the output slot becomes HiddenAfter. Nothing else changes. |
| GateKernels.GatesInPlace | lotus/core/providers/cpu/rnn/deep_cpu_lstm.cc:1098-1167 | The buffer after the gates is the old buffer with GatesAfter spliced in at the row. |
| LstmEngine.UniDirectionalLstm.GateComputationsRow | lotus/core/providers/cpu/rnn/deep_cpu_lstm.cc:1087-1184 | A finished row only gets its output slot zeroed (with an output sequence), so its cell row is left unchanged. A running row runs GateRow, writing H to the step's output slot, or to final_hidden_state without an output sequence. |
| LstmEngine.UniDirectionalLstm.GateComputations | lotus/core/providers/cpu/rnn/deep_cpu_lstm.cc:1073-1186 | All rows of the chunk are processed as in GateComputationsRow. |
| LstmEngine.UniDirectionalLstm.CopyFinalCells | lotus/core/providers/cpu/rnn/deep_cpu_lstm.cc:952-959 | Final cell row r becomes the cell row exactly when step+1 == len[r], and is unchanged otherwise. Nothing outside the chunk's rows changes. |
| LstmEngine.UniDirectionalLstm.ZeroFinishedOutputs | lotus/core/providers/cpu/rnn/deep_cpu_lstm.cc:961-969 | The output slot of row r at step s becomes zeros exactly when the row has finished, and is unchanged otherwise. Nothing outside the chunk's rows changes. |
| LstmEngine.UniDirectionalLstm.Step | lotus/core/providers/cpu/rnn/deep_cpu_lstm.cc:912-971 | One step is the GEMM, the gates, the final-cell copy and the zero fill, each stage stated on the buffers between stages. |
| LstmEngine.UniDirectionalLstm.StepRows | lotus/core/providers/cpu/rnn/deep_cpu_lstm.cc:912-971 | Reading Ht-1 from h0 at step 0, then from the previous output slots (or final_hidden_state), moves every row of the chunk from step s to s+1. |
| LstmEngine.UniDirectionalLstm.RunSteps | lotus/core/providers/cpu/rnn/deep_cpu_lstm.cc:912-972 | The step loop over max_sequence_length steps brings the chunk's rows to their final states. |
| LstmEngine.UniDirectionalLstm.BatchTask | lotus/core/providers/cpu/rnn/deep_cpu_lstm.cc:902-973 | One batch-parallel task covers rows row..next-1 with row < next ≤ batch, and runs their step loop. |
| LstmEngine.UniDirectionalLstm.BatchTasks | lotus/core/providers/cpu/rnn/deep_cpu_lstm.cc:975-976 | The tasks run one after the other and cover all rows. |
| LstmEngine.UniDirectionalLstm.StepLoop | lotus/core/providers/cpu/rnn/deep_cpu_lstm.cc:900-1054 | Both regimes bring every row to its state after max_sequence_length steps. |
| LstmEngine.UniDirectionalLstm.Recurrence | lotus/core/providers/cpu/rnn/deep_cpu_lstm.cc:849-1054 | The run is this engine's on these inputs and lengths. Final cells (and final hidden rows without an output sequence) are the rows' states after their last steps. Output slots below max_sequence_length hold the outputs, later slots are untouched, and indices between slots never change. |
| LstmEngine.UniDirectionalLstm.LoopEntry | lotus/core/providers/cpu/rnn/deep_cpu_lstm.cc:886-898 | After the input projection every row is at its initial state. |
| LstmEngine.UniDirectionalLstm.Prepare | lotus/core/providers/cpu/rnn/deep_cpu_lstm.cc:839-882 | The run starts from the loaded weights and states, with max_sequence_length ≤ seq_length and every length ≤ max. |
| LstmEngine.UniDirectionalLstm.ReadInputs | lotus/core/providers/cpu/rnn/deep_cpu_lstm.cc:831-833 | Going forward, the loop reads the inputs as they are. Going in reverse, it reads their per-row reversal into inputs_reverse_. |
| LstmEngine.UniDirectionalLstm.CopyLastOutputs | lotus/core/providers/cpu/rnn/deep_cpu_lstm.cc:1058-1063 | Final hidden row r is the output slot of step len[r]-1. |
| LstmEngine.UniDirectionalLstm.ZeroTail | lotus/core/providers/cpu/rnn/deep_cpu_lstm.cc:961-969 | The zero-fill loop carried on over the steps from max_sequence_length to seq_length-1 zeroes those slots only. |
| LstmEngine.UniDirectionalLstm.FinishOutputs | lotus/core/providers/cpu/rnn/deep_cpu_lstm.cc:1056-1068 | Final hidden rows are the last hidden states. The output holds OutputsOf the run, reversed back going in reverse, and indices between slots are kept. |
| LstmEngine.UniDirectionalLstm.FinishOutputsAsWritten | lotus/core/providers/cpu/rnn/deep_cpu_lstm.cc:1056-1068 | The same, with slots from max_sequence_length on as the step loops left them. |
| LstmEngine.UniDirectionalLstm.RunDirection | lotus/core/providers/cpu/rnn/deep_cpu_lstm.cc:812-1068 | Stride 2·batch·h for forward with two directions, batch·h otherwise. The reverse direction writes outputs_reverse_ and reverses it back. Final and output values are those of the run. |
| LstmEngine.UniDirectionalLstm.RunDirectionAsWritten | lotus/core/providers/cpu/rnn/deep_cpu_lstm.cc:812-1068 | The same as written: slots past the longest row keep stale values. |
| LstmEngine.UniDirectionalLstm.Compute | lotus/core/providers/cpu/rnn/deep_cpu_lstm.cc:791-1069 | The run is built from the engine's weights, parameters and initial states, over the inputs in direction order and the effective lengths. Every output slot holds OutputAt at its direction step: the hidden state while the row lasts, zeros after. Final cell and hidden rows are the states after each row's last step (unchanged for length 0 without an output sequence). Indices of the other direction are untouched. |
| LstmEngine.UniDirectionalLstm.ComputeAsWritten | lotus/core/providers/cpu/rnn/deep_cpu_lstm.cc:791-1069 | As written: the same, except that output slots of steps ≥ max_sequence_length keep what the output (forward) or outputs_reverse_ (reverse) held before. |
| ComputeResults.DirectionStep | lotus/core/providers/cpu/rnn/deep_cpu_lstm.cc:831-836 | Going in reverse, the step stays inside the row's length iff it started inside. Steps past the length are unmoved. |
| ComputeResults.OutputStepLength | lotus/core/providers/cpu/rnn/deep_cpu_lstm.cc:815-836 | Going forward the loop's step is one step of Y, num_directions·batch·h. Going in reverse it is batch·h, the step of the dense outputs_reverse_ buffer. |
| ComputeResults.DirectionSlots | lotus/core/providers/cpu/rnn/deep_cpu_lstm.cc:818-826 | With the direction's view starting at its direction slot, the forward loop's index of (t, r, k) at OutputStepLength is Y's (t, 0, r, k). ReverseSequence's index at stride num_directions·batch·h is Y's (t, 1, r, k) with two directions and (t, 0, r, k) with one. |
| ComputeResults.LastHidden | lotus/core/providers/cpu/rnn/deep_cpu_lstm.cc:1058-1063 | Copied last outputs are the rows' hidden states after their last steps. This needs len[r] ≥ 1. |
| ComputeResults.TailZeroed | lotus/core/providers/cpu/rnn/deep_cpu_lstm.cc:961-969 | Zeroing from max_sequence_length on completes OutputsOf. |
| ComputeResults.OutputsReversed | lotus/core/providers/cpu/rnn/deep_cpu_lstm.cc:1065-1067 | Reversing a complete reverse-direction sequence gives each slot its reversed step's output. |
| ComputeResults.BelowAsWritten | lotus/core/providers/cpu/rnn/deep_cpu_lstm.cc:1056-1068 | Without the tail fill, the forward output is OutputsAsWritten. |
| ComputeResults.ReversedAsWritten | lotus/core/providers/cpu/rnn/deep_cpu_lstm.cc:1065-1067 | Without the tail fill, the reverse output is the reversal of what the loops left. |
| ComputeResults.InputsReversedFrom | lotus/core/providers/cpu/rnn/deep_cpu_lstm.cc:831-833 | Reversing the inputs into the loop's buffer makes the loop read each row's steps reversed. |
| ComputeResults.WrittenSlotIsOutput | lotus/core/providers/cpu/rnn/deep_cpu_lstm.cc:961-969 | An as-written slot is the intended output iff its step is below max_sequence_length or it already held zeros. |
| ComputeResults.AsWrittenOnZeros | lotus/core/providers/cpu/rnn/deep_cpu_lstm.cc:1056-1068 | The as-written output is correct when the slots past the longest row held zeros before the call. |
| ComputeResults.StaleTailSlot | lotus/core/providers/cpu/rnn/deep_cpu_lstm.cc:961-969 | Counterexample: seq_length 2, one row of length 1, hidden 1. The as-written slot at step 1 is the old buffer value, the intended one is 0, and they differ whenever the old value is non-zero. |
| ReverseSequence.ReversedStepInvolution | lotus/core/providers/cpu/rnn/deep_cpu_lstm.cc:831-832 | The per-row step reversal stays in range and undoes itself. |
| ReverseSequence.ReverseSequence | lotus/core/providers/cpu/rnn/deep_cpu_lstm.cc:1065-1067 | Destination slot (u, r) receives source slot (ReversedStep(len[r], u), r). Indices outside the row slots are kept. |
| ReverseSequence.ReverseTwice | lotus/core/providers/cpu/rnn/deep_cpu_lstm.cc:831-832 | Reversing twice with the same lengths restores every slot. |
| LstmEquations.TransposedRearranged | lotus/core/providers/cpu/rnn/deep_cpu_lstm.cc:693-721 | Column gOut·h + k of the transpose is the row of unit k of source block GateIn(gOut). |
| LstmEquations.ColumnIsSourceRow | lotus/core/providers/cpu/rnn/deep_cpu_lstm.cc:710-713 | The same for one column. |
| LstmEquations.EngineInput | lotus/core/providers/cpu/rnn/deep_cpu_lstm.cc:1098-1103 | Engine segment gOut of unit k is the affine term of source gate GateIn(gOut). |
| LstmEquations.EngineInputs | lotus/core/providers/cpu/rnn/deep_cpu_lstm.cc:1098-1103 | The four segments pi, pf, po and pc are the i, f, o and c affine terms. |
| LstmEquations.EngineBiases | lotus/core/providers/cpu/rnn/deep_cpu_lstm.cc:756-771 | Fused biases and peephole views supply exactly the equations' Wb+Rb and P(.)C terms, or zero when absent. |
| LstmEquations.UnitFromPre | lotus/core/providers/cpu/rnn/deep_cpu_lstm.cc:1098-1184 | GateComputations on a row equals the equations applied to its segments in the operator's block order. |
| LstmEquations.CellFromPre | lotus/core/providers/cpu/rnn/deep_cpu_lstm.cc:1113-1155 | The gates before the cell update, and the new cell, agree with the equations. |
| LstmEquations.OutputFromPre | lotus/core/providers/cpu/rnn/deep_cpu_lstm.cc:1158-1184 | The output gate and the hidden value agree with the equations. |
| LstmEquations.EngineUnitMatches | lotus/core/providers/cpu/rnn/deep_cpu_lstm.cc:1098-1184 | Unit k of the engine's pipeline on rearranged weights takes exactly the equations' values. |
| LstmEquations.EngineStepMatches | lotus/core/providers/cpu/rnn/deep_cpu_lstm.cc:912-950 | One engine step (two GEMMs, then the gates) is one step of the equations. |
| EngineRun.EngineStepIsEquation | lotus/core/providers/cpu/rnn/deep_cpu_lstm.cc:912-950 | With weights rearranged by the loader and parameters from the operator's tensors, EngineStep = EquationStep. |
| EngineRun.EngineRowMatches | lotus/core/providers/cpu/rnn/deep_cpu_lstm.cc:912-972 | The engine's row states after t steps are the equations' RowState. |
| EngineRun.RunFollowsEquations | lotus/core/providers/cpu/rnn/deep_cpu_lstm.cc:791-1069 | For a run of an engine loaded from the operator's tensors, StateAt(r, t) is the equations' state of row r after t steps. |
| EngineRun.OutputFollowsEquations | lotus/core/providers/cpu/rnn/deep_cpu_lstm.cc:945-969 | For such a run, output slot (r, t) is the equations' Ht after step t while the row runs and zeros after. The final cell row is the equations' Ct after the row's last step. |
| EngineRun.PreviousHidden | lotus/core/providers/cpu/rnn/deep_cpu_lstm.cc:939-971 | Ht-1 of a running row is found in h0 at step 0, then in the previous output slot or the final hidden row. |
| EngineRun.StepAdvances | lotus/core/providers/cpu/rnn/deep_cpu_lstm.cc:912-971 | GEMM, gates or zero fill, and the final-cell copy move one row from step s to s+1, and nothing else of the row changes. |
| EngineRun.RowAtStart | lotus/core/providers/cpu/rnn/deep_cpu_lstm.cc:886-898 | Before the first step every row is at its initial state. |
| StepViews.StepReached | lotus/core/providers/cpu/rnn/deep_cpu_lstm.cc:912-971 | Lifts StepAdvances to all rows of a chunk on the flat buffers. |
| StepViews.LoopDone | lotus/core/providers/cpu/rnn/deep_cpu_lstm.cc:1054 | After all steps the flat buffers hold the loop results. |
| Validation.ValidateInputs | lotus/core/providers/cpu/rnn/deep_cpu_lstm.cc:512-543 | Ok iff the shared checks pass, initial_c (if present) has shape [nd, batch, hidden] and P (if present) has shape [nd, 3·hidden]. The first failing check decides the error. |
| Validation.ViewsInBounds | lotus/core/providers/cpu/rnn/deep_cpu_lstm.cc:379-463 | With validated shapes every per-direction subspan lies inside its tensor. |
| Validation.OutputViewWithin | lotus/core/providers/cpu/rnn/deep_cpu_lstm.cc:414-418 | The output views end inside Y for both directions. |
| Validation.ViewsDisjoint | lotus/core/providers/cpu/rnn/deep_cpu_lstm.cc:438-464 | The two directions' views of every per-direction tensor are disjoint. |
| Validation.InterleavedSlots | lotus/core/providers/cpu/rnn/deep_cpu_lstm.cc:458-459 | The forward view with stride 2·batch·h and the reverse view starting batch·h in write Y's direction slots 0 and 1. |

## Left out

- Threads. The thread pool, `ExecuteLambdaInParallel` and `set_mkl_num_threads_local` are left out. Each parallel loop is a sequential loop over the same disjoint chunks, which the chunk lemmas show tile the range. The model does not capture interleavings.
- Hardware concurrency. `std::thread::hardware_concurrency()` is a constructor parameter.
- Floating point. Elements are `real`, so rounding, NaN and Inf are not modelled. The activation bodies (`ActivationFuncByName`, `LstmMergeGatesFuncByName`) are uninterpreted functions with their alpha and beta bound. `clip_add_bias` is read as "add bias, then clip"; its body is not part of this model.
- GEMM. `ComputeGemm` is modelled as an exact sum of products, with the block footprint it writes.
- Logging. `DumpMatrix`, `VLOGS` and logging have no effect on state.
- Scratch buffers. `hidden0_`, `internal_memory_prev_`, `internal_memory_cur_`, `batched_internal_memory_cur_` and `batched_internal_memory_clipped_` are not modelled. The clipped buffer is only scratch for the merging h function and is never read back.
- Peepholes. `LSTM_NO_PEEPHOLE_COPY` is defined, so the source keeps the three peephole blocks as views into P. The model copies them into three buffers. Neither is ever written, so the gates read the same values.
- The `LOTUSRT_BROKEN_VERSION` branches and the schema registration text.
- Helpers outside this model. `ReverseSequence` and `ValidateCommonRnnInputs` (rnn_helpers) are not part of this model:
  - `ReverseSequence` is modelled after its documented meaning: per row, steps below the row's length are reversed and later steps are kept in place.
  - The shared input checks arrive in `ValidateInputs` as an already-computed status.
- LstmEngine.UniDirectionalLstm.Compute requires every sequence length to be at least 1 when there is an output sequence. The source reads the slot of step `len - 1 = -1` for a zero length (line 1060). It relies on the rnn_helpers validation, which is not part of this model, to reject such input.
- LstmEngine.UniDirectionalLstm.Compute also requires `batch_size > 0`, because `std::max_element` of an empty length list is undefined.
- LstmEngine.UniDirectionalLstm.constructor folds in AllocateBuffers and leaves `Allocate` and the allocator out.
- DeepCpuLstmOp::ComputeImpl's calls into the engines are modelled only through the view arithmetic (Validation.Views). Its data-type dispatch (lines 309-326) is left out.

## Findings

| source | as written | input that shows it | evidently intended | confidence | as-written member | corrected member |
|---|---|---|---|---|---|---|
| lotus/core/providers/cpu/rnn/deep_cpu_lstm.cc:961-969 | The zero fill of padded output steps runs inside the step loop, which stops at max_sequence_length. Output slots of steps max_sequence_length .. seq_length-1 are never written. They keep the caller's old Y contents going forward, and whatever `outputs_reverse_` held going in reverse. | seq_length 2, batch 1, sequence_lens [1], hidden 1, with Y (or `outputs_reverse_`) holding a non-zero value at step 1 before the call | Every output slot past a row's length is zero, as the zero fill at lines 961-969 and its comment at line 962 ("set to 0 if step >= sequence_length") intend. | not executed | LstmEngine.UniDirectionalLstm.ComputeAsWritten, ComputeResults.StaleTailSlot | LstmEngine.UniDirectionalLstm.Compute, ComputeResults.TailZeroed |
