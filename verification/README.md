# Wave kernels and their tools: a verified model

This project models, in Dafny, the parts of the repository where an index, an order or a counter decides whether a
result is right, and proves that they do what the repository relies on. `dafny verify dfyconfig.toml` checks everything.

**The MXFP4 GEMM kernel and its host side.** The generated kernel overlaps DMA, LDS reads, barriers and MMAs in a
two-stage, double-buffered pipeline.

- `SubtileMachine` is the target: LDS cells that are empty, in flight under a token, or settled by a barrier; a load of
  anything but a settled cell under that very barrier observes `Garbage`. Values are free terms, so equal accumulators
  are equal under every meaning of the scaled MMA.
- `SubtileStage`, `SubtileEmitters`, `SubtileOverlap`, `SubtilePipeline` and `SubtileKernel` are the stage contents, the
  stateful emitters, the callbacks behind the MMAs, and the two kernels. The pipeline returns the accumulators of the
  plain loop, issues every request of every step once and in step order, and reads every fragment and scale of a step
  once, under one barrier, each observing the data of its own step; no request into a stage is issued before every read of
  its previous use. The machine counts the MMAs before each of them, so the overlap itself is proved: one operation
  behind each MMA of the first k-tile for as long as there are any, through the whole run.
- `SubtileConfig`, `SubtileLayout`, `SubtileDataStage`, `SubtileScales`, `SubtileScaleHost` and `SubtileDataflow` take the
  same operands down to bytes: the slot assignment, the xor swizzle, the data DMA and both scale paths carried out on
  LDS, and the fact that lane by lane the MMA the pipeline issues finds there, through its own operands and selectors,
  sixteen packed bytes of one row and the scale of exactly those.
- `OutputLayout` is the runner's output decoder and index map with the kernel's stores: the tile-packed and the row-major
  output agree register by register. `AiterLayout` is the runner's input shuffles and what the kernel reads of them, and
  `SubtileOutput` joins the kernel's stores to the runner's plan. `CheckedArith`, `Blocking` and `StreamK` are the
  overflow checks the calibrator and the runner each make and must agree on.

**The gfx1250 GEMM.** `TdmGemm` follows every accumulator register to its element of C, and every operand register to
its elements of A or B, through the staging copy in LDS; the element of C is in the row of A and the column of B.

**The tools.** `AttImport` is the trace importer (wait windows, loop expansion, row bookkeeping), `SchedClass` the
bounded resolution of scheduling classes, `PatchStack` the managed LLVM patches, `Corpus` the index-expression corpus
and its validator.

**The wavec front end.** `ArenaAllocator` and `Diagnostics` are the bump allocator and the list of diagnostics that lives
in it, with running out of memory at every allocation.

`Prelude` holds what several modules share, `MixedRadix` the few facts about products, quotients and remainders all
layouts rest on.

Places where the code does less than its own text says, each with its exact condition:

- `_validate_config` accepts an `m` or `n` that is not a multiple of 16, such as 264 (`SubtileConfig.SomeUncovered`). The
  workgroup blocks then leave the last rows uncovered; they cover all rows if and only if 16 divides the extent
  (`SubtileConfig.BlocksFit`). The runner refuses every such launch (`SubtileDataflow.HostLayoutIsKernels`,
  `SubtileOutput.PlanIsKernels`).
- `_checked_size_product` stops at the first partial product that does not fit, so a zero factor can come too late
  (`CheckedArith.ZeroFactorOrderMatters`). On nonnegative factors it is exact if and only if none is zero or the factors
  before the first zero have a product that fits (`CheckedArith.SizeProductExactIff`); the calibrator's own factor lists
  always meet that (`StreamK.WorkspaceChecksExact`).
- `makeTensileLiteScaleBytes` counts workgroups in an int that its own checked products do not bound
  (`SubtileScaleHost.OutputCheckNeeded`). No int term overflows if and only if the last workgroup number fits
  (`SubtileScaleHost.TermsFitIff`), which the element-count check of `validateArgs` ensures
  (`SubtileScaleHost.HostTermsFit`).
- The comment in `arena_alloc` says a zero or non-power-of-two alignment falls back to byte alignment. Only zero does: a
  request is placed byte by byte if and only if the alignment is 0 or 1, and alignment 3 takes the cursor from 2 to 4
  (`ArenaAllocator.ByteAlignedIff`). Blocks stay disjoint and in range for every alignment.
- `diag_has_errors` looks at a wrapping counter; it is exact if and only if the number of errors is not a positive
  multiple of 2^64 (`Diagnostics.HasErrorsExactIff`).

## Model

| member | source | states |
|---|---|---|
| SubtileStage.StageCovered | examples/wave/tensilelite_mxfp4_subtile.py:504-656 | every LDS data slot and every scale byte of a stage is written by some request of that stage, on both scale paths |
| SubtileStage.WrittenOnce | examples/wave/tensilelite_mxfp4_subtile.py:504-656 | no two requests of a stage write the same cell |
| SubtileStage.ScaleDmaCount | examples/wave/tensilelite_mxfp4_subtile.py:659-752 | a partition takes one 16-byte DMA for every four groups and one 4-byte DMA for each group left |
| SubtileStage.IssueAllContents | examples/wave/tensilelite_mxfp4_subtile.py:513-525 | after issuing the requests of one step exactly the covered cells are in flight for that step; all others keep their contents |
| SubtileStage.Restaged | examples/wave/tensilelite_mxfp4_subtile.py:1379-1396 | issuing a whole stage and joining all its tokens in one barrier publishes every cell of the stage and disturbs no settled cell of the other one |
| SubtileStage.DataObserved | examples/wave/tensilelite_mxfp4_subtile.py:848-854 | a fragment load under the barrier of a published stage observes that step's fragment, never garbage |
| SubtileStage.ScaleObserved | examples/wave/tensilelite_mxfp4_subtile.py:769-825 | the same for a four-byte scale load |
| SubtileMachine.ObserveExact | examples/wave/tensilelite_mxfp4_subtile.py:848-1396 | a load observes a step if and only if every cell of it is settled with that step under the load's own barrier, and garbage otherwise |
| SubtileMachine.PublishedIffJoined | examples/wave/tensilelite_mxfp4_subtile.py:513-1396 | behind a barrier, a load of what a request covers observes the request's step if the barrier joins its token, and garbage if not |
| SubtileStage.MmaTileAt | examples/wave/tensilelite_mxfp4_subtile.py:961-996 | accumulator i * wave_n_tiles + j gets the MMA of A tile i and B tile j, with the scale group and selector of each |
| SubtileStage.KTileAt | examples/wave/tensilelite_mxfp4_subtile.py:926-958 | with operands of one step, that MMA is the one of the step's own fragments and scales |
| SubtileEmitters.DmaEmitter.constructor | examples/wave/tensilelite_mxfp4_subtile.py:1000-1007 | nothing is issued yet; the LDS contents and writes at this moment are what issuing starts from |
| SubtileEmitters.DmaEmitter.EmitOne | examples/wave/tensilelite_mxfp4_subtile.py:1009-1023 | issues the next request, if any, and appends the machine's next unused token; LDS is always the start with the issued prefix applied in order |
| SubtileEmitters.DmaEmitter.EmitRemaining | examples/wave/tensilelite_mxfp4_subtile.py:1025-1027 | terminates with every request issued exactly once and in order, wherever it started |
| SubtileEmitters.LoadFrag | examples/wave/tensilelite_mxfp4_subtile.py:848-854 | one fragment of the stage, at its own place in the reads of its k-tile, issued after the MMAs so far |
| SubtileEmitters.StageReadEmitter.EmitOne | examples/wave/tensilelite_mxfp4_subtile.py:1081-1105 | one more read of the stage in its fixed order (A, B, then all scales), or nothing when all are done |
| SubtileEmitters.StageReadEmitter.Finish | examples/wave/tensilelite_mxfp4_subtile.py:1111-1119 | however many reads were emitted before, all are then emitted once and in order, and the registers are the step's |
| SubtileEmitters.ReadScaleGroups | examples/wave/tensilelite_mxfp4_subtile.py:769-825 | reads every scale group of A and then of B once, and gets that step's scales |
| SubtileEmitters.ReadFrags | examples/wave/tensilelite_mxfp4_subtile.py:857-877 | reads every fragment of a k-tile once, in order, and gets that step's fragments |
| SubtileOverlap.Overlap.ReadNextLocal | examples/wave/tensilelite_mxfp4_subtile.py:1134-1210 | one more fragment of the second k-tile, A before B, each once, whenever one is missing |
| SubtileOverlap.Overlap.ReadNextStage | examples/wave/tensilelite_mxfp4_subtile.py:1212-1220 | the barrier over all tokens of the next stage comes first and once; each call then advances that stage's reads by one until all are emitted |
| SubtileOverlap.Overlap.AfterMfma | examples/wave/tensilelite_mxfp4_subtile.py:1222-1228 | with one callback behind each MMA of the first k-tile, exactly min(callbacks, total) operations are out: each call raises the count of reads, requests and next-stage calls by one until the mode asks for no more, local reads before requests before the barrier and the reads of the next stage |
| SubtileOverlap.Overlap.FinishLocal | examples/wave/tensilelite_mxfp4_subtile.py:1241-1242 | all fragments of the second k-tile are then the current step's |
| SubtileOverlap.Overlap.FinishNext | examples/wave/tensilelite_mxfp4_subtile.py:1173-1262 | however few or many callbacks ran: the next stage is published, read in full and in order, its requests issued once, and the other stage untouched |
| SubtileOverlap.Overlap.FinishReady | examples/wave/tensilelite_mxfp4_subtile.py:1265-1332 | the same without the reads of the next stage |
| SubtileOverlap.EmitMmaKTile | examples/wave/tensilelite_mxfp4_subtile.py:961-996 | every accumulator is updated exactly once by its own MMA, and behind them min(tiles, total) overlapped operations have been issued |
| SubtilePipeline.StageReady | examples/wave/tensilelite_mxfp4_subtile.py:1379-1396 | issues the stage's requests and publishes it by a single barrier |
| SubtilePipeline.EmitMmaStep | examples/wave/tensilelite_mxfp4_subtile.py:926-958 | updating accumulators in place, k-tile by k-tile, gives the reference result of the step |
| SubtilePipeline.Step | examples/wave/tensilelite_mxfp4_subtile.py:1343-1361 | one whole step: its requests in order, every fragment and scale of it read once under one barrier and observing that step, and its MMAs |
| SubtilePipeline.SimpleKernel | examples/wave/tensilelite_mxfp4_subtile.py:1590-1645 | the canonical kernel contracts steps 0 to S-1 in order, each step with its own requests and its own reads under its own barrier |
| SubtilePipeline.ReadStageK0 | examples/wave/tensilelite_mxfp4_subtile.py:880-899 | reads the first k-tile and all scales of a stage once |
| SubtilePipeline.EmitStageFinal | examples/wave/tensilelite_mxfp4_subtile.py:1122-1170 | finishes a step, reads its second k-tile once behind the MMAs of the first, and writes nothing |
| SubtilePipeline.EmitStageWithNext | examples/wave/tensilelite_mxfp4_subtile.py:1173-1262 | finishes a step while its stage is refilled with step + 2 and read, each operation behind the MMA it is scheduled for; the other stage survives |
| SubtilePipeline.EmitStageWithNextReady | examples/wave/tensilelite_mxfp4_subtile.py:1265-1332 | finishes a step and publishes step + 2 in its stage, again on the schedule of one operation behind each MMA; the other stage survives |
| SubtileKernel.CarryRoundTrips | examples/wave/tensilelite_mxfp4_subtile.py:902-923 | unflattening a flattened stage gives it back if and only if a step has two k-tiles |
| SubtileKernel.IterationLoads | examples/wave/tensilelite_mxfp4_subtile.py:1399-1484 | one loop trip completes the reads of steps iv-2 and iv-1 and starts those of iv, each once and under one barrier |
| SubtileKernel.LoopBody | examples/wave/tensilelite_mxfp4_subtile.py:1399-1484 | the invariant moves from iv to iv + 2: accumulators hold steps below iv-2, current is iv-2, lookahead is iv-1; the trip issues four k-tiles of MMAs and its reads and requests at their places between them |
| SubtileKernel.MainLoop | examples/wave/tensilelite_mxfp4_subtile.py:1399-1484 | through the flattened carry the loop reaches the last two steps in exactly the trips the calibrator predicts |
| SubtileKernel.Pipeline | examples/wave/tensilelite_mxfp4_subtile.py:1487-1534 | for one or any even number of steps: reference accumulators, all requests once in step order, all reads of every step once under one barrier, no read observes anything but its own step, no request into a stage is issued before every read of its earlier use, and every read and request is issued after exactly the MMAs the overlap asks for |
| SubtileKernel.ReadsAreOwn | examples/wave/tensilelite_mxfp4_subtile.py:1487-1534 | when each step is read once under its barrier and nothing else is, every read observed its own step's fragment or scales |
| SubtileKernel.NoEarlyRefill | examples/wave/tensilelite_mxfp4_subtile.py:1487-1534 | with the requests in step order and each step read before any request beyond its successor step, no request for a later use of a stage was issued before any read of an earlier use |
| SubtileKernel.Epilogue | examples/wave/tensilelite_mxfp4_subtile.py:1502-1534 | the last two steps complete everything and write nothing |
| SubtileKernel.PipelineRefinesSimpleLoop | examples/wave/tensilelite_mxfp4_subtile.py:1343-1534 | the pipelined kernel and the plain loop return equal accumulators on fresh machines |
| SubtileKernel.SameReads | examples/wave/tensilelite_mxfp4_subtile.py:828-899 | the plain loop and the pipeline read the same fragments and scales of a step, each once, in another order |
| SubtileKernel.ContractIsChain | examples/wave/tensilelite_mxfp4_subtile.py:926-996 | every accumulator (i, j) is its own chain of MMAs: steps in order, k-tiles in order, same tile pair throughout |
| SubtileConfig.AcceptedK | examples/wave/tensilelite_mxfp4_subtile.py:251-301 | an accepted configuration has K equal to a whole number of steps of wave_k_tiles 128-element tiles |
| SubtileConfig.BlocksFit | examples/wave/tensilelite_mxfp4_subtile.py:251-301 | the workgroup blocks lie in the matrix, and cover it if and only if its extent is a multiple of 16 |
| SubtileConfig.SomeUncovered | examples/wave/tensilelite_mxfp4_subtile.py:251-301 | an accepted configuration of 264 rows whose blocks cover 256 |
| SubtileConfig.AcceptedIff | examples/wave/tensilelite_mxfp4_subtile.py:251-301 | a configuration is accepted if and only if its sizes are positive, the tile counts even, K a whole number of steps (one or an even number on the tensilelite path), the workgroup blocks divide the 16-row tiles, and the slots divide among the waves |
| SubtileConfig.AcceptedGeometry | examples/wave/tensilelite_mxfp4_subtile.py:251-301 | every accepted configuration meets all assumptions of the pipeline, for each wave |
| SubtileConfig.TripCountAgrees | tools/wave-matmul-calibrate/wave-matmul-calibrate.py:739-747 | for an accepted configuration the calibrator's division is exact, gives the kernel's step count, and the kernel argument is one less |
| SubtileLayout.AcceptedPanels | examples/wave/tensilelite_mxfp4_subtile.py:251-301 | both operands of an accepted configuration are valid panels of the real matrices |
| SubtileLayout.XorUndoes | examples/wave/tensilelite_mxfp4_subtile.py:362-363 | the swizzle is its own inverse |
| SubtileLayout.ReadsSpread | examples/wave/tensilelite_mxfp4_subtile.py:362-495 | eight neighbouring rows of one k-group are read from sixteen-byte columns that are all different modulo the 64 LDS banks: what the swizzle is for |
| SubtileLayout.SlotOwner | examples/wave/tensilelite_mxfp4_subtile.py:418-458 | each LDS data slot belongs to exactly one request of one wave |
| SubtileLayout.DataSrcIs | examples/wave/tensilelite_mxfp4_subtile.py:431-457 | a DMA lane reads its own row and swizzled k-group of tile (block base + s mod block_tiles, step * wave_k_tiles + s div block_tiles) |
| SubtileLayout.DataSrcInBuffer | examples/wave/tensilelite_mxfp4_subtile.py:334-457 | every declared source range is true with its access width, for all workgroups, lanes, requests and steps |
| SubtileLayout.SlotInStage | examples/wave/tensilelite_mxfp4_subtile.py:340-467 | every LDS data offset stays in its own stage of its own allocation |
| SubtileLayout.FragmentBytes | examples/wave/tensilelite_mxfp4_subtile.py:396-495 | the bytes a lane reads were written by one DMA lane from exactly that row and k-group: the swizzle on write is undone on read |
| SubtileLayout.WriterIsUnique | examples/wave/tensilelite_mxfp4_subtile.py:396-495 | no other lane of any DMA of the stage writes those bytes |
| SubtileDataStage.DmaLanes | examples/wave/tensilelite_mxfp4_subtile.py:513-525 | after one request, sixteen bytes of each lane lie at the destination plus 16 times the lane, and nothing else has changed |
| SubtileDataStage.StageData | examples/wave/tensilelite_mxfp4_subtile.py:504-510 | carrying out every request of every wave fills each slot of the stage with what its own request fetched for its own wave, and touches no byte outside the stage |
| SubtileDataStage.FragmentStaged | examples/wave/tensilelite_mxfp4_subtile.py:396-495 | in a staged LDS the sixteen bytes at a lane's read address are those of the packed matrix at its own row and k-group of the slot's tile |
| SubtileLayout.FragmentFetched | examples/wave/tensilelite_mxfp4_subtile.py:371-495 | fragment (i, k) holds in lane (row, k-group) sixteen bytes of row-tile i and raw K tile step * wave_k_tiles + k |
| SubtileScales.CanonicalInRange | examples/wave/tensilelite_mxfp4_subtile.py:528-640 | every declared range of a canonical scale load is true |
| SubtileScales.SelectedScale | examples/wave/tensilelite_mxfp4_subtile.py:926-958 | group and selector of tile i, k-tile k name the scale of that row and 32-element block of that raw K tile |
| SubtileScales.ScaleCoversFragment | examples/wave/tensilelite_mxfp4_subtile.py:926-958 | that block is the one the fragment's sixteen packed bytes come from |
| SubtileScales.PartitionBound | examples/wave/tensilelite_mxfp4_subtile.py:340-350 | every LDS scale offset stays in its own stage of its own allocation |
| SubtileScales.ScaleReadIs | examples/wave/tensilelite_mxfp4_subtile.py:769-825 | the four bytes of the dword a lane reads are those of its selectors, inside the step's own stage |
| SubtileScales.StagedDword | examples/wave/tensilelite_mxfp4_subtile.py:769-825 | in a staged partition each byte of that dword is the canonical byte of its digits |
| SubtileScales.StageCanonical | examples/wave/tensilelite_mxfp4_subtile.py:545-640 | the nested byte loops put the canonical byte at every group, lane and selector of the wave's partition, and touch nothing else |
| SubtileScales.HostDecodes | tools/wave-matmul-calibrate/wave-matmul-calibrate-runner.cpp:1333-1339 | each position of the pre-swizzled buffer belongs to exactly one (CTA, step, wave, group, lane, selector), and inside the buffer |
| SubtileScaleHost.HostCovers | tools/wave-matmul-calibrate/wave-matmul-calibrate-runner.cpp:1333-1339 | every position of the buffer belongs to one |
| SubtileScaleHost.HostLayoutExact | tools/wave-matmul-calibrate/wave-matmul-calibrate-runner.cpp:1297-1323 | the layout is made if and only if the tiles are even, the blocks divide the extents and the threads and bytes of a workgroup fit an int; its sizes are then the ones the layout defines |
| SubtileScaleHost.MakeHostScales | tools/wave-matmul-calibrate/wave-matmul-calibrate-runner.cpp:1341-1409 | the host builder writes every position of its output exactly once, front to back, and every byte is the canonical one of its place |
| SubtileScaleHost.MakeScaleBytes | tools/wave-matmul-calibrate/wave-matmul-calibrate-runner.cpp:1297-1409 | dies exactly where the layout does, and otherwise builds the buffer of that layout from the canonical array |
| SubtileScaleHost.HostTermsFit | tools/wave-matmul-calibrate/wave-matmul-calibrate-runner.cpp:1297-1409 | with a layout that was made and an output whose element count fits an int, no int term of a destination or source overflows (workgroup number, axis, K and group terms), nor does the buffer size or a source index |
| SubtileScaleHost.TermsFitIff | tools/wave-matmul-calibrate/wave-matmul-calibrate-runner.cpp:1297-1409 | with a layout that was made, no int term of any destination or source overflows if and only if the number of the last workgroup fits an int |
| SubtileScaleHost.OutputCheckNeeded | tools/wave-matmul-calibrate/wave-matmul-calibrate-runner.cpp:579-605 | the element-count check is needed: with a layout that is made, the last workgroup number can exceed an int |
| SubtileScaleHost.SourceBound | examples/wave/tensilelite_mxfp4_subtile.py:659-752 | every declared range of a pre-swizzled source is true |
| SubtileScaleHost.StageTensileLite | examples/wave/tensilelite_mxfp4_subtile.py:659-752 | after host pre-swizzle and chunked DMA the partition holds exactly the bytes canonical staging would have stored, and nothing else changes |
| SubtileDataflow.AcceptedLinked | examples/wave/tensilelite_mxfp4_subtile.py:251-301 | for each operand of an accepted configuration the pipeline, the data layout and the scale layout agree on every count |
| SubtileDataflow.HostLayoutIsKernels | tools/wave-matmul-calibrate/wave-matmul-calibrate-runner.cpp:1297-1323 | for an accepted configuration the host makes the kernel's own layout, and refuses exactly when an extent is no multiple of 16 or the threads or bytes of a workgroup exceed an int |
| SubtileDataflow.MmaOperand | examples/wave/tensilelite_mxfp4_subtile.py:396-958 | lane by lane, the MMA of tile i and k-tile k gets sixteen bytes of one row and block, and its group and selector name the canonical scale of that same row and block |
| SubtileDataflow.MmaDataBytes | examples/wave/tensilelite_mxfp4_subtile.py:857-958 | of the MMA the pipeline issues for tiles (i, j): once the data DMA of a stage is carried out, the sixteen bytes of LDS a lane reads for its own operand are the packed bytes of its row and block, in the step's own stage |
| SubtileDataflow.MmaScaleByte | examples/wave/tensilelite_mxfp4_subtile.py:769-958 | of that MMA, for any wave_k_tiles: once a stage is staged, by either path, the byte that the MMA's own selector picks from the dword its own scale operand stands for is the canonical scale of its row and block, in the step's own stage |
| OutputLayout.MadePlanValid | tools/wave-matmul-calibrate/wave-matmul-calibrate-runner.cpp:772-807 | a plan that is made tiles the output exactly, by waves, workgroups and blocks, and has the blocking, lane layout and 256 / lanes values a lane of its arguments |
| OutputLayout.MakePlanExact | tools/wave-matmul-calibrate/wave-matmul-calibrate-runner.cpp:772-807 | a plan is made if and only if the lanes are 32 or 64, the blocks divide the output and its elements fit an int; no other check can fail |
| OutputLayout.IndexDecodes | tools/wave-matmul-calibrate/wave-matmul-calibrate-runner.cpp:809-836 | the decoder takes the packed index of an element back to its row and column, for WMMA and both MFMA wave sizes |
| OutputLayout.IndexCovers | tools/wave-matmul-calibrate/wave-matmul-calibrate-runner.cpp:816-836 | every packed index is the index of an element |
| OutputLayout.OutputBijection | tools/wave-matmul-calibrate/wave-matmul-calibrate-runner.cpp:809-836 | the decoder is a bijection from the packed indices onto the rows and columns of the output |
| OutputLayout.IndexMap | tools/wave-matmul-calibrate/wave-matmul-calibrate-runner.cpp:848-876 | what each exit means for any plan: an index out of bounds, two indices of one place, or a place without an index; otherwise entry m * N + n is the packed index that decodes to row m and column n |
| OutputLayout.NoExit | tools/wave-matmul-calibrate/wave-matmul-calibrate-runner.cpp:848-876 | for a plan that was made none of the three exits is possible |
| OutputLayout.TilePackedIndexMap | tools/wave-matmul-calibrate/wave-matmul-calibrate-runner.cpp:772-876 | dies if and only if plan making does or the element count is not M * N, and otherwise entry m * N + n is the packed index whose coordinate is row m and column n of the matrix asked for |
| OutputLayout.StoreDecodes | examples/wave/tensilelite_mxfp4_subtile.py:1552-1587 | on WMMA and both MFMA wave sizes the kernel's tile-packed store offset decodes to the row and column of the workgroup, wave, tile, lane and register that produced it |
| OutputLayout.DenseIs | python/mlir/dialects/wave_matmul.py:6474-6562 | the same kernel's row-major store offset is its row times N plus its column, written out in workgroup, wave, tile, lane and register |
| OutputLayout.LayoutsAgree | python/mlir/dialects/wave_matmul.py:1312-1347 | the two output layouts agree: the index map takes the row-major offset of every register of the launch to its tile-packed offset |
| OutputLayout.DecoderInjective | tools/wave-matmul-calibrate/wave-matmul-calibrate-runner.cpp:848-876 | no two packed indices of a plan that was made share a coordinate |
| OutputLayout.DecoderOnto | tools/wave-matmul-calibrate/wave-matmul-calibrate-runner.cpp:848-876 | every row-major index of such a plan is the place of some packed index |
| SubtileOutput.PlanIsKernels | tools/wave-matmul-calibrate/wave-matmul-calibrate-runner.cpp:772-807 | for an accepted configuration the runner's plan has the kernel's own block counts, and is made if and only if both extents are multiples of 16 and the elements fit an int |
| SubtileOutput.StoresReadBack | examples/wave/tensilelite_mxfp4_subtile.py:1552-1587 | what the kernel stores for tile (i, j) is read back in the rows of the A tile and the columns of the B tile its MMAs were fed from |
| AiterLayout.BForth | tools/wave-matmul-calibrate/wave-matmul-calibrate-runner.cpp:1222-1246 | the B shuffle stays in range and its explicit inverse undoes it |
| AiterLayout.BBack | tools/wave-matmul-calibrate/wave-matmul-calibrate-runner.cpp:1222-1246 | undoing first and shuffling gives the destination back: the shuffle is a permutation |
| AiterLayout.ShuffleB | tools/wave-matmul-calibrate/wave-matmul-calibrate-runner.cpp:1222-1246 | dies exactly on bad alignment, and otherwise every destination holds the byte its inverse names |
| AiterLayout.ScaleForth | tools/wave-matmul-calibrate/wave-matmul-calibrate-runner.cpp:1248-1281 | the scale shuffle is injective and puts a scale in the block of its 32 rows and 8 groups |
| AiterLayout.ShuffleScales | tools/wave-matmul-calibrate/wave-matmul-calibrate-runner.cpp:1248-1281 | every canonical scale lands at its own place and 0x7f stays in exactly the other cells; dies if and only if K is no whole number of 32-element groups or the padded rows times the padded groups exceed 32 bits |
| AiterLayout.PaddedSizesExact | tools/wave-matmul-calibrate/wave-matmul-calibrate-runner.cpp:1248-1281 | padding gives the least multiples of 256 rows and 8 groups, and succeeds if and only if 32 divides K and their product fits 32 bits |
| AiterLayout.ActiveBlocksExact | tools/wave-matmul-calibrate/wave-matmul-calibrate-runner.cpp:1477-1484 | whenever the padded sizes fit the count is made, and a 256-byte block holds a canonical scale if and only if its index is below it |
| AiterLayout.BFragmentIs | python/mlir/dialects/wave_matmul.py:2516-2561 | the offset from which a lane of the kernel loads B is where the shuffle puts its own row and chunk of the raw K tile |
| AiterLayout.KernelReadsB | python/mlir/dialects/wave_matmul.py:2516-2561 | so of a shuffled B every lane reads the packed bytes of its own row and K bytes |
| AiterLayout.ScaleReadIs | python/mlir/dialects/wave_matmul.py:4763-4945 | the byte that reaches a lane under its selector is where the shuffle puts the scale of its own row and block |
| AiterLayout.KernelReadsScale | python/mlir/dialects/wave_matmul.py:4763-4945 | so of shuffled scales every lane gets the canonical scale of its own row and block |
| CheckedArith.CheckedProduct | tools/wave-matmul-calibrate/wave-matmul-calibrate-runner.cpp:352-363 | dies exactly when the true product does not fit 64 bits, else returns it |
| CheckedArith.CheckedIntProductExact | tools/wave-matmul-calibrate/wave-matmul-calibrate-runner.cpp:365-371 | for any two ints: yields the true product, exactly when a factor is zero or both are positive and it fits |
| CheckedArith.CheckedAlignUp | tools/wave-matmul-calibrate/wave-matmul-calibrate-runner.cpp:377-385 | the least aligned value, dying exactly when none fits an int |
| CheckedArith.CheckedSizeProduct | tools/wave-matmul-calibrate/wave-matmul-calibrate.py:1354-1360 | returns the product exactly when no factor is negative and every partial product fits |
| CheckedArith.PositiveFactorsExact | tools/wave-matmul-calibrate/wave-matmul-calibrate.py:1354-1360 | on positive factors it fails exactly when the whole product does not fit |
| CheckedArith.FitsUpToFirstZero | tools/wave-matmul-calibrate/wave-matmul-calibrate.py:1354-1360 | for any factors the check passes if and only if none is negative and the product of those before the first zero fits |
| CheckedArith.SizeProductExactIff | tools/wave-matmul-calibrate/wave-matmul-calibrate.py:1354-1360 | for nonnegative factors the check is exact if and only if there is no zero or the factors before the first one have a product that fits |
| CheckedArith.ZeroFactorOrderMatters | tools/wave-matmul-calibrate/wave-matmul-calibrate.py:1354-1360 | the condition can fail: the same factors, with product zero, are refused in one order and accepted in another |
| Blocking.BlockingExact | tools/wave-matmul-calibrate/wave-matmul-calibrate-runner.cpp:1114-1133 | the runner blocks a launch if and only if its blocks divide the extents and the threads of a workgroup fit an int; no other of its overflow checks can fail |
| StreamK.WorkspaceChecksExact | tools/wave-matmul-calibrate/wave-matmul-calibrate.py:1363-1371 | the factor lists of the calibrator always meet the condition, so its two checks are exact for any nonnegative workers and int dimensions |
| StreamK.BufferRangeExact | tools/wave-matmul-calibrate/wave-matmul-calibrate-runner.cpp:418-422 | a buffer passes exactly when its f16 bytes fit 32-bit offsets |
| StreamK.ValidatorsAgree | tools/wave-matmul-calibrate/wave-matmul-calibrate-runner.cpp:393-461 | the runner accepts a work size if and only if the calibrator does, with the same scratch and counter sizes |
| StreamK.AcceptedRuns | tools/wave-matmul-calibrate/wave-matmul-calibrate.py:1374-1455 | every configuration the calibrator accepts passes the runner's Stream-K, blocking and output-count checks |
| TdmGemm.OutputInside | examples/wave/gfx1250_tdm_matmul.py:394-453 | every accumulator register of the launch is stored inside C |
| TdmGemm.OutputInjective | examples/wave/gfx1250_tdm_matmul.py:394-453 | no two registers of the launch are stored to one element |
| TdmGemm.OutputCovered | examples/wave/gfx1250_tdm_matmul.py:394-554 | every element of C is stored by some register |
| TdmGemm.LaunchBijection | examples/wave/gfx1250_tdm_matmul.py:102-453 | on every accepted shape each element of C comes from exactly one (workgroup, wave, subtile, lane, register) |
| TdmGemm.OutputDwordInRegion | examples/wave/gfx1250_tdm_matmul.py:499-513 | a wave stages its output inside its own region of the C allocation |
| TdmGemm.OutputDwordInjective | examples/wave/gfx1250_tdm_matmul.py:409-451 | within a workgroup no two registers share a staging dword |
| TdmGemm.OneWaveAgrees | examples/wave/gfx1250_tdm_matmul.py:638-690 | the one-wave kernel's own index and offset formulas are those of the general kernel |
| TdmGemm.SizesExact | examples/wave/gfx1250_tdm_matmul.py:73-95 | byte sizes divide into dwords without remainder |
| TdmGemm.InputIs | examples/wave/gfx1250_tdm_matmul.py:210-244 | a lane reads half a row of its subtile, by row and column of the staged tile |
| TdmGemm.GlobalInputIs | examples/wave/gfx1250_tdm_matmul.py:247-298 | the element of A or B behind every operand register: its own row and its own K columns of the iteration |
| TdmGemm.GlobalInputInside | examples/wave/gfx1250_tdm_matmul.py:247-298 | every operand read lies inside its matrix |
| TdmGemm.InputInjective | examples/wave/gfx1250_tdm_matmul.py:210-244 | no two operand parts of a wave read the same staged element |
| TdmGemm.InputCovered | examples/wave/gfx1250_tdm_matmul.py:210-244 | every staged element is read: the lane chunks partition the fragments |
| TdmGemm.InputInRegion | examples/wave/gfx1250_tdm_matmul.py:115-244 | the per-wave input regions are disjoint and inside the allocation |
| TdmGemm.OutputMatchesInputs | examples/wave/gfx1250_tdm_matmul.py:247-453 | the element of C a register is stored to is in the row of A and the column of B whose chunks its lanes read, at one and the same K column of both |
| AttImport.ParseObjdump | tools/wave-att-import/wave-att-import.py:185-194 | on increasing addresses every instruction is kept and its index is its position |
| AttImport.InferredLoop | tools/wave-att-import/wave-att-import.py:249-260 | a loop is inferred exactly when there is a back edge with an exit branch before it, and its range is well formed |
| AttImport.PhaseOf | tools/wave-att-import/wave-att-import.py:249-271 | an instruction is prologue, loop or epilogue as it lies before, in or after the inferred loop, and of unknown phase exactly when there is none |
| AttImport.BuildWaitWindows | tools/wave-att-import/wave-att-import.py:274-302 | one window per wait in program order, with what its counter's producers so far leave pending and what it drains |
| AttImport.WindowsDetermined | tools/wave-att-import/wave-att-import.py:274-302 | that description leaves no choice |
| AttImport.Conservation | tools/wave-att-import/wave-att-import.py:274-302 | per counter, drained tuples followed by what is left are exactly the producers in program order, and at most `limit` of them remain after a wait |
| AttImport.DrainsAtFirstDemand | tools/wave-att-import/wave-att-import.py:274-302 | a producer drains in a window if and only if it is the first wait on its counter with at least `limit` later producers |
| AttImport.TraceShape | tools/wave-att-import/wave-att-import.py:309-325 | prologue, the loop max(0, trip) times, epilogue, each without non-emitting instructions |
| AttImport.TripAt | tools/wave-att-import/wave-att-import.py:309-325 | element u of round r of the loop stands at the prologue's length plus r loop lengths plus u |
| AttImport.TraceCounts | tools/wave-att-import/wave-att-import.py:263-325 | each instruction occurs once, or as often as the trip count for the loop, by its position in the listing; non-emitting ones never |
| AttImport.TraceFromListing | tools/wave-att-import/wave-att-import.py:309-325 | the trace holds instructions of the listing only, and no non-emitting one |
| AttImport.ImportSummary.AddWaveRow | tools/wave-att-import/wave-att-import.py:389-402 | one more resolved row, by code or by position, one more hit of its PC, and the row's duration, stall and time added to that PC's sums and to no other's |
| AttImport.ImportSummary.ParseWaveFile | tools/wave-att-import/wave-att-import.py:405-435 | resolved plus unresolved is all rows, resolved is by code plus by position, and hits and summed duration, stall and time per PC are those of the rows resolved to it |
| AttImport.PositionResolves | tools/wave-att-import/wave-att-import.py:374-435 | with a trace of matching length a row stays unresolved exactly when it is short or its line maps outside the listing |
| AttImport.RowOutcome | tools/wave-att-import/wave-att-import.py:374-435 | a row is resolved by code to the PC its line maps to, and by position to the PC of the trace element at its own index, exactly when it has no mapped line, the trace matches in length and the PC is listed |
| SchedClass.TooManySteps | tools/wave-target-info/wave-target-info.cpp:160-188 | more steps than classes revisit a class, and then resolution never stops |
| SchedClass.ResolveSchedClass | tools/wave-target-info/wave-target-info.cpp:160-188 | cyclic exactly when resolution never stops; missing exactly for class 0; resolved exactly when it stops at a nonzero class that is no variant; unresolvable exactly when it stops at a nonzero variant; and the class returned is where it stops |
| SchedClass.CyclicIffRevisits | tools/wave-target-info/wave-target-info.cpp:160-188 | never stopping is meeting a class twice, and a chain that stops does so within the table's size |
| ArenaAllocator.RoundUpPow2 | wavec/src/arena.c:18-25 | fails exactly when the addition would wrap |
| ArenaAllocator.RoundUpBounds | wavec/src/arena.c:18-25 | for any alignment the cursor never goes back and moves less than the alignment |
| ArenaAllocator.RoundUpIsLeast | wavec/src/arena.c:18-25 | for a power of two the mask gives the least multiple not below |
| ArenaAllocator.LeastAddress | wavec/src/arena.c:73-92 | over a page-aligned base and for a power of two up to a page, base plus the rounded cursor is the least multiple of the alignment not below the cursor's own address |
| ArenaAllocator.RoundUpClears | wavec/src/arena.c:18-25 | for any alignment the rounded cursor shares no bit with the mask |
| ArenaAllocator.AlignedIffPowerOfTwo | wavec/src/arena.c:18-25 | the rounded cursor is aligned for every cursor if and only if the alignment is a power of two |
| ArenaAllocator.ByteAlignedIff | wavec/src/arena.c:73-80 | a request is placed byte by byte, whatever the cursor, if and only if the alignment is 0 or 1: alignment 3 takes the cursor from 2 to 4 |
| ArenaAllocator.Arena.constructor | wavec/src/arena.c:27-64 | the page-aligned usable region lies in the block the host returned, or the arena is dead |
| ArenaAllocator.Alloc | wavec/src/arena.c:66-92 | null exactly when the arena is dead or the aligned request does not fit; otherwise a block after all live ones, which stay disjoint and in range. For the alignment the caller asks for, when it is a power of two up to a page, the address is the least multiple of it not below the old cursor |
| ArenaAllocator.RoundUpOverflow | wavec/src/arena.c:78-88 | when the guarded addition would wrap the request does not fit, whatever the alignment |
| ArenaAllocator.BlockAligned | wavec/src/arena.c:51-92 | a block is aligned if and only if the base is, which holds for every power of two up to a page |
| ArenaAllocator.BlocksDisjoint | wavec/src/arena.c:78-92 | live blocks never overlap |
| ArenaAllocator.Arena.Reset | wavec/src/arena.c:94-98 | all blocks are gone, capacity stays |
| ArenaAllocator.Arena.Destroy | wavec/src/arena.c:100-108 | a dead arena, again on a second call |
| Diagnostics.DiagList.constructor | wavec/src/diag.c:11-19 | an empty valid list over the arena |
| Diagnostics.Strdup | wavec/src/diag.c:24-37 | a copy with its terminator, or null exactly when it does not fit |
| Diagnostics.DiagList.Emit | wavec/src/diag.c:39-73 | the record is appended exactly when both allocations fit; otherwise the list is as before, and the cursor has moved exactly when only the message failed |
| Diagnostics.DiagList.Link | wavec/src/diag.c:66-71 | the chain gets the record at its end and stays a chain |
| Diagnostics.HasErrorsIffEmitted | wavec/src/diag.c:75-79 | errors are reported if and only if the number emitted, stored or dropped, is not a multiple of 2^64 |
| Diagnostics.HasErrorsExactIff | wavec/src/diag.c:75-79 | the report is right if and only if the number of errors emitted is not a positive multiple of 2^64 |
| Diagnostics.Acyclic | wavec/src/diag.c:39-73 | no record occurs twice and the count cannot wrap |
| Diagnostics.WalkMeetsAll | wavec/src/diag.c:39-73 | following the links from the head meets every record once, in emission order, and stops |
| Diagnostics.AllocationKeepsList | wavec/src/arena.c:66-92 | other allocations from the same arena keep the list sound |
| PatchStack.PendingPatches | build_tools/build_llvm.py:190-227 | the two loops on the private index compute the stripped tree, the prefix check and the verdict |
| PatchStack.ApplyPatches | build_tools/build_llvm.py:230-233 | succeeds exactly when the pending patches are found, and gives all patches on the stripped base |
| PatchStack.PendingApplies | build_tools/build_llvm.py:190-227 | applied patches are a prefix; the pending ones go on the untouched source and give all patches on the stripped base |
| PatchStack.SecondRunIdle | build_tools/build_llvm.py:230-233 | a second run finds nothing pending |
| PatchStack.PendingIffCleanPrefix | build_tools/build_llvm.py:190-227 | for distinct patches, n are recognised as applied if and only if the source is a base with the first n, the rest go on, and none of the rest comes off |
| Corpus.Aggregate | tools/wave-index-expr-corpus.py:412-429 | equal occurrences are merged with their number, whatever their ordinals |
| Corpus.CountSources | tools/wave-index-expr-corpus.py:430-442 | the distinct sources and their number in each group |
| Corpus.MergeRecords | tools/wave-index-expr-corpus.py:397-456 | succeeds exactly on the expected number of sources, with one entry per id in id order, signed by its first record |
| Corpus.ValidateEntry | tools/wave-index-expr-corpus.py:516-539 | accepts exactly a matching id and nonempty positive occurrences, and returns their sum and sources |
| Corpus.ValidateExpressions | tools/wave-index-expr-corpus.py:542-553 | accepts exactly valid entries with strictly increasing ids |
| Corpus.Validate | tools/wave-index-expr-corpus.py:556-597 | accepts exactly a consistent corpus |
| Corpus.OccurrencesConserved | tools/wave-index-expr-corpus.py:397-456 | the summed occurrence counts are the number of records |
| Corpus.SourcesKept | tools/wave-index-expr-corpus.py:397-456 | the sources of the entries are those of the records |
| Corpus.MergedIsValid | tools/wave-index-expr-corpus.py:397-585 | the checks accept a merged corpus if and only if it has records and every required group; the digest need not be injective |
| Corpus.CollectedIsValid | tools/wave-index-expr-corpus.py:397-513 | what collecting writes is always valid but for a required group that is missing, since it merges for at least one source |
| Corpus.TamperingRefused | tools/wave-index-expr-corpus.py:516-597 | a valid corpus is refused with any other header or totals, with an entry put in place of another with a wrong id, no or nonpositive occurrences or another total, with an entry dropped, and with two exchanged |
| Corpus.GroupsRequired | tools/wave-index-expr-corpus.py:576-585 | every required group of a valid corpus has a source |

## Left out

- Races between waves: the pipeline model runs one workgroup's operations in emission order with all waves in lockstep,
  so a wave that refills a stage while a slower wave still reads it is outside the model.
- Reordering by the backend: the dependence tokens given to DMAs as `after` are not modelled, only the tokens a barrier
  joins and the barrier a load waits on.
- Hardware semantics taken as given: lane l of an LDS DMA of b bytes writes at the destination plus b times l, an index
  expression is exact integer arithmetic, `read_first` returns the first lane's workitem, a TDM copy moves a row-major
  tile at a row stride.
- The lane layout inside an MMA and all floating-point values: an MMA is a term of its operands, and elements are abstract.
- The canonical path's store order within a scale group and its 64-bit address arithmetic.
- Kernel attributes, occupancy (`target_waves`) and LDS capacity limits of the device.
- TdmGemm.LaunchBijection: the shape equations of the target's MMA (square tiles, two half-waves per tile, a lane chunk of
  half a row) come from the target's capability query, which is not part of this model; they are a precondition.
- AttImport.BuildWaitWindows: the regular expressions that find wait counters and branch targets in an instruction's text
  are not modelled; an instruction carries what they find.
- AttImport.ParseObjdump: reading and matching the disassembly's lines is not modelled; a line is an instruction with its PC,
  and the sort by PC is the listing's own order when addresses increase.
- AttImport.ImportSummary.ParseWaveFile: the order of files and JSON decoding are not modelled, and rounding of the
  summed times is not (sums are real numbers).
- Latency models, report text and CSV output of the importer.
- Corpus.MergeRecords: the order of an entry's occurrences is insertion order; the source sorts them, which no check observes.
- Corpus.Validate: type errors in a hand-edited file are not modelled; a corpus is well typed, with the pipeline
  fingerprint compared as the pipeline text.
- PatchStack.PendingPatches: a tree is the contents of the paths the patches touch, and applying to the private index and
  to the working tree are the same function; paths, renames and git failures other than a patch not applying are not modelled.
- SchedClass.ResolveSchedClass: the 32-bit resolution counter cannot wrap for a table of fewer than 2^32 - 1 classes, so
  it is a natural number here.
- StreamK.AcceptedRuns: for 64-lane waves and the gfx950 f16 profile, as the calibrator's Stream-K path fixes them; the
  runner's checks of iterations, warm-up, seed and data types are not modelled.
- OutputLayout.StoreDecodes: which accumulator element of a tile a lane's register holds is the target's fragment layout,
  taken from the row-major stores of `wave_matmul.py`; the coalesced and column-major stores are not modelled.
- AiterLayout.KernelReadsScale: the staging of AITER scales through LDS is not modelled; its DMA is taken to deliver
  whole 256-byte blocks in order, lane l reading dword l of its block.
- ArenaAllocator.Alloc: the host's `malloc` is a parameter that returns null or a block inside the address space; the
  contents of memory are not modelled.
- Diagnostics.DiagList.Emit: a message is a string without a terminator inside it and shorter than the size type's
  maximum; a null list pointer is not modelled.
- HIP launches, device memory, timing, subprocesses, argument parsing and file formats throughout.
- wavec lexer, parser, sema and lowering, the MLIR passes and the symbolic engine.
- Random input generators, entropy checks and reference results.
