# Verification of EngramDB's reference and serving algorithms

EngramDB serves n-gram embedding tables whose row ids are hashed from the token sequence. The programs kept
beside it in the repository define those ids, the per-request state they depend on, and the layers around
them. This project models five of their mechanisms and proves that the fast forms compute what the simple
ones define.

* **Gated delta rule** (`LinearAlgebra`, `GatedDelta`, `ChunkedDelta`, `DeltaRuleLoops`). The chunked form (padding, UT
  transform, triangular solve or in-place inversion, scan over chunks) equals the token loop over the reals,
  for every length, chunk size, starting state and cut into calls. The exponential is any function with
  `e(0) = 1` and `e(x + y) = e(x) * e(y)`; nothing else about it is used.
* **Row addressing** (`NumberTheory`, `PrimeSearch`, `MillerRabin`, `HashArithmetic`, `MultiplierDraws`,
  `EngramHash`, `NgramWindow`, `Ragged`, `PackedBatch`). The prime searches terminate and return the primes they name, the
  Miller-Rabin test never rejects a prime, 64-bit hashing never overflows, ids of different columns never
  meet, and the full-history, windowed, cached, and packed-batch forms give the same ids.
* **Per-request history** (`EngramHistory`, `EngramRuns`, `PleHistory`, `PleRuns`). Both history tables as
  state machines: over every run of extend, decode, verify, partial acceptance, padding, snapshots and slot
  reuse, live rows stay right and every emitted id is that of its position in the request's own sequence.
* **Breakable graph capture** (`OutputTrees`, `GraphPrograms`, `BreakableGraph`, `StubFlow`, `StubExample`,
  `StreamHook`, `VllmBreakable`). Capture followed by any number of replays leaves what eager runs leave, provided
  break outputs keep the captured structure. For outputs that do not, which captured tensors each one still reaches
  is characterised exactly, and so are where what a stub produced can show and which lists of stream waits let a
  segment end.
* **Around the table** (`ShardedTable`, `CausalConv`, `ShortConvPool`, `BitwiseCheck`). Sharded loading and
  lookup agree with one flat table, streamed convolutions with the one-shot form, also through a pool of
  states, and the two forms of the checksum with each other.

`dafny verify dfyconfig.toml` checks everything.

Three properties do not hold as one might state them; each has its exact condition and inputs that fail:

* A break's output does not always reach the captured tensors. Replay copies into the captured object itself and
  rebinds a record's fields that are not tensors on both sides. So an output reaches a captured tensor exactly
  when it has the captured shape along that tensor's path, which ends in a tuple or directly in a record, and no
  earlier output that reached the record put anything but a tensor there (`OutputTrees.OutputReachesLeaf`). A
  tensor in a tuple in a record is never reached (`OutputTrees.NestedTupleStaysStale`), and a field once answered
  by a plain value stays stale for good (`OutputTrees.OncePlainStaysStale`).
* Streams forked during a capture are not always joined when a segment ends. That they are is equivalent to: the
  last work of every side stream is followed, through waits, by the capturing stream or by a stream whose last
  wait with it was a fork (`StreamHook.EndIsClean`). A fork of a fork is missed (`StreamHook.ForkOfForkIsMissed`).
* What a stub produces at capture can reach a replay: a later break that is not stubbed runs its body during the
  capture, and that body may write what it read into a buffer no load overwrites (`StubExample.StubValueShows`). How
  far it can get is a set of addresses computed from the trace, the breaks that are stubbed and the loads. Whatever
  the kernels and stubs compute, it never shows in a tensor if and only if that set misses the tensor's addresses,
  at the end of capture (`StubFlow.CaptureFlowExact`) and after any rounds (`StubFlow.ReplayFlowExact`). It shows in
  no result of a pass that gathers rows by a stubbed break and whose attention runs at capture and writes its cache
  (`StubExample.ServedStubNeverShows`).

One more rests on published computation and is reduced to it exactly: the odd-stepping prime search returns the
true prime if and only if the test accepts no composite up to it (`MillerRabin.SearchExact`).

Where documentation and code differ: the docstring of the V4.1 history speaks of commits in decode and after
acceptance; the code also commits at the end of every extend, and the model follows the code.

## Model

| member | source | states |
|---|---|---|
| GatedDelta.RunAppend | refs/qwen4_exp_modeling.py:454-465 | cutting the token loop anywhere and handing the state over gives the outputs and final state of one pass |
| ChunkedDelta.Readout | refs/qwen4_exp_modeling.py:392-399 | what any reader sees of the state after a chunk is the decayed start plus each token's correction, decayed to the end |
| ChunkedDelta.DeltaEquation | refs/qwen4_exp_modeling.py:353-360 | the recurrence's corrections satisfy the chunk's triangular equations, row by row |
| ChunkedDelta.DeltasSolve | refs/qwen4_exp_modeling.py:358-370 | so they solve the unit lower-triangular system the chunked form sets up |
| ChunkedDelta.VNewIsDeltas | refs/qwen4_exp_modeling.py:392-395 | the UT transform: `v_new` is exactly the sequence of corrections the token loop writes |
| ChunkedDelta.ChunkOutputCorrect | refs/qwen4_exp_modeling.py:396-397 | the chunk's output at a token is its query read against the recurrent state after that token |
| ChunkedDelta.ChunkColumnCorrect | refs/qwen4_exp_modeling.py:398-399 | the state carried out of a chunk is the recurrent state after all its tokens |
| LinearAlgebra.SolutionUnique | refs/qwen4_exp_modeling.py:368-370 | a unit lower-triangular system has at most one solution |
| LinearAlgebra.SolveCorrect | refs/qwen4_exp_modeling.py:368-370 | the direct solver's answer is that solution |
| LinearAlgebra.SolvedRead | refs/qwen4_exp_modeling.py:392-395 | reading a matrix solution along a state solves the system whose right-hand side is read along it |
| DeltaRuleLoops.SubstituteRow | refs/qwen4_exp_modeling.py:371-376 | one pass of the in-place substitution finishes its row and leaves every other entry alone |
| DeltaRuleLoops.InvertUnitLower | refs/qwen4_exp_modeling.py:371-378 | the loop over rows, then the identity added back, ends with the solved identity |
| DeltaRuleLoops.TwoSidedInverse | refs/qwen4_exp_modeling.py:371-378 | that matrix is the inverse of the system on both sides |
| DeltaRuleLoops.InverseSolves | refs/qwen4_exp_modeling.py:367-378 | multiplying by it gives what the triangular solver gives |
| DeltaRuleLoops.SolveUt | refs/qwen4_exp_modeling.py:367-378 | both branches give the same `new_values` and `k_cumdecay` |
| DeltaRuleLoops.RecurrentRule | refs/qwen4_exp_modeling.py:411-471 | the token loop's outputs and, if wanted, final state, from the state handed in or from all zeros |
| DeltaRuleLoops.FirstOutput | refs/qwen4_exp_modeling.py:443-465 | with no earlier state the first token reads beta times its own value, weighted by query against key |
| DeltaRuleLoops.PaddingKeepsState | refs/qwen4_exp_modeling.py:324-330 | zero keys, zero beta and zero log-decay leave the state as it is |
| DeltaRuleLoops.ChunkCorrect | refs/qwen4_exp_modeling.py:387-399 | one scan iteration computes the recurrence over its chunk, outputs and state |
| DeltaRuleLoops.ScanChunk | refs/qwen4_exp_modeling.py:392-399 | the same as a method over one chunk, in either branch |
| DeltaRuleLoops.ChunkRule | refs/qwen4_exp_modeling.py:274-408 | for every length, chunk size of at least 1, branch, and starting state or none, the padded chunked form returns exactly the token loop's outputs and final state |
| DeltaRuleLoops.Forward | refs/qwen4_exp_modeling.py:598-628 | one call through either path gives the recurrence from the cached state, from zeros where nothing is cached, and caches the state after it |
| DeltaRuleLoops.RunCalls | refs/qwen4_exp_modeling.py:598-628 | any cut of a sequence into calls, each with any path, chunk size and branch, gives the outputs and leaves the cached state of one token loop, from zeros on an empty cache |
| NumberTheory.FermatLittle | research/vllm_ngram_embedding_main.py:551-575 | Fermat's little theorem, from the binomial theorem |
| NumberTheory.RootsOfOne | research/vllm_ngram_embedding_main.py:567-575 | modulo a prime the only square roots of 1 are 1 and -1 |
| NumberTheory.PrimeAbove | refs/v41_engram.py:9-14 | above every number there is a prime, so the searches end |
| PrimeSearch.NthPrimeCounts | refs/qwen4_exp_modeling.py:1083-1089 | the k-th prime after start is a prime with exactly k primes in (start, it] |
| PrimeSearch.CountDeterminesPrime | refs/qwen4_exp_modeling.py:1083-1089 | and is the only number with that property |
| PrimeSearch.IsPrimeTrial | refs/qwen4_exp_modeling.py:1072-1080 | trial division decides primality of every integer |
| PrimeSearch.FindNthPrimeAfter | refs/qwen4_exp_modeling.py:1083-1089 | the search returns the count-th prime after start, 0 included |
| PrimeSearch.FindNextPrime | refs/v41_engram.py:9-14 | the smallest prime above start that has not been handed out |
| PrimeSearch.NextUnseen | refs/v41_engram.py:102-126 | restarting below everything drawn so far still yields the next prime in order |
| PrimeSearch.DrawGroup | refs/v41_engram.py:111-117 | one n-gram size appends the next consecutive primes |
| PrimeSearch.BuildLayout | refs/v41_engram.py:102-126 | flattened, the layout is exactly the first primes from the vocabulary size on |
| PrimeSearch.LayoutPrimesDistinct | research/sgl_engram_dsv41.py:140-160 | no bucket size repeats, in any layer, and all are primes above the start |
| MillerRabin.SquaredIsPower | research/vllm_ngram_embedding_main.py:567-573 | squaring i times gives the power with the exponent doubled i times |
| MillerRabin.OnesComeFromMinusOne | research/vllm_ngram_embedding_main.py:567-575 | modulo a prime a squaring chain that ends in 1 was 1 all along or passed through -1 |
| MillerRabin.PrimesAccepted | research/vllm_ngram_embedding_main.py:551-575 | every prime passes the small factors and every witness round |
| MillerRabin.TryBase | research/vllm_ngram_embedding_main.py:562-575 | one witness round, early exits included, passes an odd value exactly when the base is a multiple of it or it is a strong probable prime to the base |
| MillerRabin.IsPrime64 | research/vllm_ngram_embedding_main.py:551-575 | the loops accept exactly the listed primes and the numbers none of them divides that are strong probable primes to every base; every prime is accepted, and below 1681 nothing else |
| MillerRabin.AcceptsIsProbablyPrime | research/vllm_ngram_embedding_main.py:551-575 | acceptance means this for every odd part and power of two of value - 1, with plain powers in place of squarings |
| MillerRabin.SmallAcceptedIsPrime | research/vllm_ngram_embedding_main.py:554-556 | below the square of the next prime an accepted number is prime |
| MillerRabin.NextAccepted | research/vllm_ngram_embedding_main.py:578-591 | stepping by two skips no accepted candidate |
| MillerRabin.NthPrimeAfter | research/vllm_ngram_embedding_main.py:578-591 | the search ends at the count-th accepted candidate after start, which below 1681 is the true prime |
| MillerRabin.SearchExact | research/vllm_ngram_embedding_main.py:578-591 | it never overshoots the true prime, and equals it if and only if no composite up to it is accepted |
| MillerRabin.AcceptedAtLeastPrimes | research/vllm_ngram_embedding_main.py:578-591 | accepted numbers are at least as many as primes, equally many exactly when only primes are accepted |
| HashArithmetic.XorBit | refs/qwen4_exp_modeling.py:1171-1176 | exclusive or acts bit by bit |
| HashArithmetic.BuildLayerMultipliers | refs/qwen4_exp_modeling.py:1060-1069 | multiplier i is twice the splitmix draw of its own position, reduced to the bound, plus one: odd and within the bound |
| MultiplierDraws.SplitMixInjective | refs/qwen4_exp_modeling.py:1053-1057 | the mixer never sends two 64-bit states to one |
| MultiplierDraws.DrawsDiffer | refs/qwen4_exp_modeling.py:1060-1069 | different positions draw different states and different 64-bit numbers |
| MultiplierDraws.HalfBoundIsLargest | refs/qwen4_exp_modeling.py:1060-1063 | the bound is the largest for which twice itself times the vocabulary size does not overflow, or 1 |
| HashArithmetic.DrawIsMultiplier | refs/v41_engram.py:64-83 | any draw below the V4.1 bound gives such a multiplier too |
| HashArithmetic.ProductFits | refs/qwen4_exp_modeling.py:1060-1069 | token times multiplier stays in [0, 2^63) for every token of the vocabulary |
| HashArithmetic.Int64HashIsExact | refs/qwen4_exp_modeling.py:1171-1186 | so hashing in wrapping 64-bit arithmetic is hashing in unbounded integers |
| HashArithmetic.IdsInRanges | refs/v41_engram.py:179-184 | the id of every (n-gram, head) column lies in that column's range of the table |
| HashArithmetic.OwnerUnique | refs/v41_engram.py:148-149 | no row belongs to two columns |
| HashArithmetic.RangesCover | refs/v41_engram.py:148-149 | and every row below the total belongs to one |
| HashArithmetic.PaddedCovers | research/vllm_ngram_embedding_main.py:693 | the allocated table is the least multiple of the divisor that holds the total |
| HashArithmetic.MakeVocabLayout | research/vllm_ngram_embedding_main.py:613-630 | sizes, offsets and total of a layer's heads |
| HashArithmetic.LayoutsAgree | research/sgl_qwen4_exp_main.py:552-564 | the per-layer layout draws the bucket sizes of the nested one |
| HashArithmetic.HashRolling | refs/v41_engram.py:176-184 | the rolling loop computes the row ids: for each n-gram size and head the window's hash modulo the bucket size, behind all earlier buckets |
| HashArithmetic.RowIdsAreHashes | refs/qwen4_exp_modeling.py:1171-1186 | row ids are these hashes, in unbounded integers, for windows of vocabulary tokens |
| HashArithmetic.HeadOfColumn | refs/v41_engram.py:148-149 | and every column is one head of one n-gram size |
| HashArithmetic.HashByNgram | research/sgl_qwen4_exp_main.py:651-674 | the loop that mixes each n-gram from the start computes the same ids |
| EngramHash.NgramHashState.Forward | refs/v41_engram.py:160-184 | whatever pieces a sequence arrives in, every position gets the ids of the whole sequence, and the cache row holds the sequence |
| EngramHash.LookBackAcross | research/sgl_engram_dsv41.py:404-415 | look-backs over history and run together are those of the joined sequence |
| EngramHash.RefWindowMeaning | refs/v41_engram.py:166-177 | a window entry is the compressed token so far back, or the padding id where the sequence starts or an image lies on the way |
| EngramHash.ReferenceIdsMeaning | refs/v41_engram.py:160-184 | each layer's ids are the hashes of that window under its own multipliers and primes |
| EngramHash.WindowsAgree | research/sgl_engram_dsv41.py:418-435 | where look-backs agree as far as the sequence reaches, the ids are the reference's: older contents are blocked and never read |
| EngramHash.LayerHashesExactly | refs/v41_engram.py:64-83 | reference and serving windows hold compressed tokens only, so no hash of any layer and n-gram size overflows 64 bits, whatever tokens come in |
| EngramHash.RunIdsCorrect | research/sgl_engram_dsv41.py:377-442 | a run on top of an agreeing history gets the reference ids of the full sequence |
| EngramHash.NextRowAgrees | research/sgl_engram_dsv41.py:456-465 | shifting any accepted prefix of a run into the row keeps it agreeing with the sequence |
| EngramHistory.PredecessorsAreLookBacks | research/sgl_engram_dsv41.py:393-415 | the predecessor table built per mode is the look-backs of the run on top of its history row |
| EngramHistory.EveryTokenOwned | research/sgl_engram_dsv41.py:284-318 | every token that is not graph padding belongs to a request's run |
| EngramHistory.TargetIs | research/sgl_engram_dsv41.py:320-374 | the commit goes to the slot of decode rows and nonempty extend rows whose last token has a real cache entry, and to the spare row for all others |
| EngramHistory.EngramHasher.TorchHashIds | research/sgl_engram_dsv41.py:377-442 | ids and kept predecessors of every real token are those of its run on its history |
| EngramHistory.EngramHasher.Forward | research/sgl_engram_dsv41.py:271-375 | a batch serves every token; the slot of each such row gets the last n-1 masked tokens of its history and run, and every other slot, those of verify blocks included, keeps its row |
| EngramHistory.EngramHasher.CommitAfterVerify | research/sgl_engram_dsv41.py:444-465 | each verified row takes exactly its accepted prefix, other rows stay |
| EngramHistory.CommittedRowIsEndRow | research/sgl_engram_dsv41.py:362-374 | the reversed predecessors of a run's last token are the row the run leaves |
| EngramRuns.StepKeepsInv | research/sgl_engram_dsv41.py:271-465 | serve, accept (any length from 0 to the block) and release keep every live row agreeing with its request's tokens, where serving makes each committing row stand for its base and run and forgets no other slot |
| EngramRuns.ServeEmitsReference | research/sgl_engram_dsv41.py:377-442 | every id of a request that is not padding is what the reference emits for that position of the full sequence |
| EngramRuns.RunsAreSafe | research/sgl_engram_dsv41.py:233-465 | both hold over every run from a fresh table, whatever its rows hold |
| EngramRuns.ServeBatch | research/sgl_engram_dsv41.py:271-375 | one forward of the hasher object is such a step: the invariant survives and the ids are the reference's |
| EngramRuns.AcceptBlocks | research/sgl_engram_dsv41.py:444-465 | one commit of the hasher object is an accept step |
| EngramRuns.StaleRowsInvisible | research/sgl_engram_dsv41.py:233-245 | two tables that differ in what dead slots hold emit the same ids |
| NgramWindow.ShiftIsLookBack | refs/qwen4_exp_modeling.py:1127-1141 | shifting by the running maximum of eos positions is looking back to the nearest eos |
| NgramWindow.WindowMeaning | refs/qwen4_exp_modeling.py:1143-1170 | each window entry is a look-back, cut off at the first eos behind the token |
| NgramWindow.PaddedLookBack | refs/qwen4_exp_modeling.py:1148-1170 | in the padded history a look-back is the sequence's token, or eos before its start or past an eos |
| NgramWindow.WindowLocal | research/sgl_qwen4_exp_main.py:676-694 | two positions preceded by the same n-1 tokens have the same window |
| NgramWindow.WindowAlone | research/sgl_qwen4_exp_main.py:714-732 | hashing the n-wide window alone gives what the whole history gives |
| NgramWindow.SequenceHashesExactly | refs/qwen4_exp_modeling.py:1060-1069 | at every position of a token stream every n-gram's 64-bit hash is the unbounded one |
| NgramWindow.SequenceIdsMeaning | refs/qwen4_exp_modeling.py:1171-1188 | the ids of a position are the hashes of those look-backs modulo each head's bucket |
| NgramWindow.PieceIds | refs/qwen4_exp_modeling.py:1143-1170 | a piece on top of the (n-1)-token context alone gives the ids of the whole sequence |
| NgramWindow.ContextAppend | refs/qwen4_exp_modeling.py:1150-1165 | the context moves along with the sequence |
| NgramWindow.Forward | refs/qwen4_exp_modeling.py:1143-1188 | one call gives the whole sequence's ids for its piece, and leaves the cache knowing the longer sequence |
| Ragged.SearchFindsOwner | research/vllm_ngram_embedding_main.py:798-799 | the right-sided search finds the request whose run holds a position, past empty requests |
| PackedBatch.Pack | research/vllm_ngram_embedding_main.py:792-803 | scattering puts every token at its request's row and column, eos elsewhere |
| PackedBatch.ComputeNgramIds | research/vllm_ngram_embedding_main.py:765-837 | every token gets the id its own context and run give alone, empty requests and padding included |
| PackedBatch.PackedIsPerRequest | research/vllm_ngram_embedding_main.py:789-837 | with true contexts that is the id of its position in its own sequence |
| PleHistory.ContextPool.Prepare | research/sgl_qwen4_exp_main.py:134-295 | malformed verify batches are refused; otherwise rows, columns and padded contexts are as specified, and a row uses its request's slot exactly when it takes part |
| PleHistory.StateIndexIs | research/sgl_qwen4_exp_main.py:239-262 | a decode row takes part when its cache entry is not 0, a verify row when it has tokens and one entry is not 0, an extend row when it has tokens; others use slot 0 |
| PleHistory.TargetIsKept | research/sgl_qwen4_exp_main.py:347-378 | a marked row is snapshotted to its own slot after all its tokens in decode, else after the aligned length, cut to between 0 and the run's; others nowhere |
| PleHistory.ContextPool.NgramIds | research/sgl_qwen4_exp_main.py:714-732 | the fast decode path and the window gather both give the ids of the row's history and run |
| PleHistory.WindowIsRun | research/sgl_qwen4_exp_main.py:720-726 | a token's window hashes to what history and run hash to at that token |
| PleHistory.NextContexts | research/sgl_qwen4_exp_main.py:317-335 | the decode slice and the general gather take the same columns |
| PleHistory.ContextPool.Commit | research/sgl_qwen4_exp_main.py:298-344 | written slots and snapshot slots hold the right columns, every other real slot what it held |
| PleRuns.ColumnsAreContext | research/sgl_qwen4_exp_main.py:325-335 | columns of a row's context are the eos-padded history after that many tokens |
| PleRuns.VerifyKeepsPending | research/sgl_qwen4_exp_main.py:304-315 | each recorded verify step is the history after accepting that much of the draft |
| PleRuns.RowKeeps | research/sgl_qwen4_exp_main.py:325-378 | after a commit a row's slot holds the history after its run, and its snapshot slot the history at the aligned boundary |
| PleRuns.StepKeepsInv | research/sgl_qwen4_exp_main.py:134-344 | serving, adopting a verify step, copying, admitting and releasing keep each live slot equal to the last n-1 tokens of its eos-padded history |
| PleRuns.StepEmitsOwnIds | research/sgl_qwen4_exp_main.py:714-732 | every id is that of its position in its request's whole sequence |
| PleRuns.RunsAreSafe | research/sgl_qwen4_exp_main.py:134-378 | both hold over every run from a fresh pool, whatever its rows, reused slots or padding rows hold |
| PleRuns.ServeBatch | research/sgl_qwen4_exp_main.py:134-344 | prepare, hash and commit on the pool object are such a step |
| OutputTrees.LeafAfterCopy | research/sgl_bcg_dsv41.py:179-216 | one copy: a captured tensor takes the output's exactly when the output has the captured shape along its path, and keeps what it held otherwise |
| OutputTrees.LeafWhileUnbound | research/sgl_bcg_dsv41.py:198-214 | over any list of outputs, a tensor stays in the captured object exactly while none rebinds a record on its path |
| OutputTrees.OutputReachesLeaf | research/sgl_bcg_dsv41.py:179-216 | the next output reaches a captured tensor, whatever memory holds by then, if and only if it copies along the path and no earlier one rebound a record on it |
| OutputTrees.OutsideRecordsNeverRebound | research/sgl_bcg_dsv41.py:190-196 | for a tensor outside records only the output at hand matters |
| OutputTrees.BelowFieldNeverCopied | research/sgl_bcg_dsv41.py:198-214 | below a record's direct fields nothing is ever copied: a tensor there keeps what it held in every memory |
| OutputTrees.OncePlainStaysStale | research/sgl_bcg_dsv41.py:198-214 | a field once answered by a plain value stays stale, however well later outputs match |
| OutputTrees.MatchingIsCopied | research/sgl_bcg_dsv41.py:179-216 | an output that keeps the whole structure is read back whole from the captured object, plain values and keys included |
| OutputTrees.MatchingKeepsTree | research/sgl_bcg_dsv41.py:198-214 | and leaves the captured object as it was |
| OutputTrees.CopyIsLocal | research/sgl_bcg_dsv41.py:179-216 | the copy writes the captured addresses only, and depends on no other memory |
| OutputTrees.NestedTupleStaysStale | research/sgl_bcg_dsv41.py:198-205 | a tensor in a tuple in a record is not reached, though the structure is the same |
| GraphPrograms.OpSim | research/sgl_bcg_dsv41.py:260-266 | one replayed kernel or break leaves at captured addresses what the eager run has under the names still wanted |
| GraphPrograms.ReplayIsEager | research/sgl_bcg_dsv41.py:284-293 | the same for a whole program, under any allocation that never reuses an address still wanted |
| GraphPrograms.ReplaysAreEager | research/sgl_bcg_dsv41.py:284-293 | any number of replays on any inputs is as many eager runs, state in static buffers included |
| GraphPrograms.SettledRoundsAgree | research/sgl_bcg_dsv41.py:239-246 | two memories that agree on some static buffers give the same results in every round, once these and the first load settle what the pass needs |
| BreakableGraph.BreakableCUDAGraph.Replay | research/sgl_bcg_dsv41.py:284-293 | replay runs segments and breaks in recorded order, and leaves each captured object as its copy does |
| BreakableGraph.BreakableCUDAGraphCapture.EagerOnGraph | research/sgl_bcg_dsv41.py:224-268 | a break closes its segment, runs once (or its stub), is recorded at its place, and opens the next segment |
| BreakableGraph.BreakableCUDAGraphCapture.Exit | research/sgl_bcg_dsv41.py:351-408 | a finished capture has exactly one more segment than breaks and holds the whole trace |
| BreakableGraph.CaptureProgram | research/sgl_bcg_dsv41.py:304-408 | the recording of a program is its trace, whatever the stubs produced, and memory is changed by the break bodies or stubs alone |
| BreakableGraph.CaptureThenReplay | research/sgl_bcg_dsv41.py:219-293 | capture, then any number of replays on new inputs, ends as the same eager runs from what the static buffers held when that capture ended |
| BreakableGraph.CaptureLeaves | research/sgl_bcg_dsv41.py:239-246 | a capture leaves every static buffer alone that no body it runs writes: break outputs and stubs never land on one |
| StubFlow.CaptureAgrees | research/sgl_bcg_dsv41.py:224-268 | two captures of one trace, from any memories and with any breaks stubbed in either, differ at most at the addresses the flow gets to |
| StubFlow.RoundsAgree | research/sgl_bcg_dsv41.py:284-293 | and so do any rounds of loads and replays after them |
| StubFlow.CaptureFlowExact | research/sgl_bcg_dsv41.py:239-246 | whatever kernels and stubs compute, what stubs produce makes no difference to a tensor at the end of capture if and only if the flow misses its addresses |
| StubFlow.ReplayFlowExact | research/sgl_bcg_dsv41.py:239-246 | contents of stubs are never consumed: whatever kernels, loads and stubs compute, a tensor is the same after all rounds if and only if the flow through capture and rounds misses its addresses |
| StubFlow.StubsLeaveNoMark | research/sgl_bcg_dsv41.py:239-246 | two captures from different memories with different stubs replay to the same results, if static buffers the flow misses and the first load settle what the pass needs |
| StubFlow.StubValuesNeverMatter | research/sgl_bcg_dsv41.py:239-246 | from one memory, whatever the stubs and the loads and whatever the bodies that run write, all results are the same where the flow misses the static buffers: nothing needs reloading |
| StubFlow.UnwrittenIsMissed | research/sgl_bcg_dsv41.py:239-246 | the flow misses every static buffer both memories agree on that no body run at capture writes |
| StubFlow.UnwrittenLeaveNoMark | research/sgl_bcg_dsv41.py:239-246 | so such buffers and the first load settling what the pass needs are enough |
| StubExample.StubValueShows | research/sgl_bcg_dsv41.py:239-246 | where a body run at capture adds a stubbed output to a buffer, the flow gets there, and results agree exactly when the stubs do |
| StubExample.ServedStubNeverShows | integrations/sglang-main/0001-ple-offload-file-staged.patch:232-248 | beside the stubbed gather, a break that runs at capture and writes its cache from later tensors lets nothing of the stub through, for any kernels, stubs, memory and loads |
| StreamHook.TrackedIsLastForked | research/sgl_bcg_dsv41.py:110-134 | over every list of calls, the hook tracks exactly the streams whose last wait with the capturing stream was a fork |
| StreamHook.LeftUnjoined | research/sgl_bcg_dsv41.py:388-397 | a stream is left unjoined exactly when its last work is followed neither by the capturing stream nor by a tracked one |
| StreamHook.Tracker.JoinForked | research/sgl_bcg_dsv41.py:388-397 | before a segment ends every tracked stream still capturing is waited for; whether that joins everything is decided by the calls made |
| StreamHook.EndIsClean | research/sgl_bcg_dsv41.py:388-397 | over every list of calls, nothing is left unjoined if and only if each side stream's last work is followed by the capturing stream or by one last forked from it |
| StreamHook.DisciplinedEndsClean | research/sgl_bcg_dsv41.py:110-134 | which holds when side streams fork from the capturing stream and work only until their join |
| StreamHook.ForkOfForkIsMissed | research/sgl_bcg_dsv41.py:126-134 | and fails for a stream forked from a side stream |
| StreamHook.Hook.Install | research/sgl_bcg_dsv41.py:137-143 | the first capture saves the original wait and puts the hook in force |
| StreamHook.Hook.Uninstall | research/sgl_bcg_dsv41.py:146-153 | the last capture to leave restores it |
| VllmBreakable.BreakableCUDAGraphCapture.Enter | research/vllm_breakable_cudagraph.py:162-167 | a second capture on one thread is refused |
| VllmBreakable.BreakableCUDAGraphCapture.AddEager | research/vllm_breakable_cudagraph.py:197-210 | the operation runs once, is recorded as one eager segment, calls inside it included |
| VllmBreakable.BreakableCUDAGraphCapture.RunModel | research/vllm_breakable_cudagraph.py:101-117 | everything is recorded in program order, with one break per outer call, or none when the whole pass is captured; outside a capture all of it runs |
| VllmBreakable.BreakableCUDAGraphCapture.Exit | research/vllm_breakable_cudagraph.py:169-195 | graphs are exactly one more than eager breaks |
| VllmBreakable.BreakableCUDAGraphCapture.Replay | research/vllm_breakable_cudagraph.py:214-216 | replay leaves the memory of running every recorded kernel in order |
| VllmBreakable.BreakableCUDAGraphWrapper.Invoke | research/vllm_breakable_cudagraph.py:317-431 | dispatch by mode, capture once per descriptor, replay later; stored captures alternate, are complete, and replay every kernel at the addresses captured, while eager calls run over tensors of their own |
| VllmBreakable.InvokeRounds | research/vllm_breakable_cudagraph.py:317-431 | once captured, any number of calls on new inputs, replayed or eager in any order, leaves every wanted tensor of the last call, where that call put it, as as many eager runs of the named program do |
| ShardedTable.RangesPartition | research/sgl_engram_dsv41.py:703-705 | the floor-split ranges give each row exactly one rank, for every size and rank count |
| ShardedTable.RangeStartIsFloor | research/sgl_engram_dsv41.py:703-705 | each starts at the floor of its share of the rows |
| ShardedTable.ComputeOverlap | research/vllm_ple_common_main.py:23-45 | bad bounds are refused, and the overlap names exactly the rows in both ranges |
| ShardedTable.CopyShard | research/vllm_ple_common_main.py:48-79 | the overlapping rows, and no others, are replaced by the shard's |
| ShardedTable.ShardOf | research/vllm_ngram_embedding_main.py:907-918 | every row is in exactly one checkpoint shard, trailing empty shards included |
| ShardedTable.ShardSizeIsLeast | research/vllm_ngram_embedding_main.py:907-918 | the shard size is the least that covers the table |
| ShardedTable.LoadEntries | research/vllm_ngram_embedding_main.py:896-930 | entries are loaded in the order given, and refused when the index is unknown, the width differs, or the rows are not as many as the table has in that shard |
| ShardedTable.OverlaidRow | research/sgl_qwen4_exp_main.py:1889-1904 | a shard writes exactly the rank's rows that fall in it |
| ShardedTable.AllShardsFill | research/sgl_qwen4_exp_main.py:1961-1967 | all shards, in any order and with repeats, fill a rank with exactly its slice |
| ShardedTable.ShardedLookupIsFlat | research/sgl_engram_dsv41.py:797-836 | the sum over ranks of masked lookups is the flat-table lookup, zero for an index outside the table |
| ShardedTable.ReducedEntry | research/sgl_engram_dsv41.py:797-836 | entry by entry it is the weight times the scale of its block |
| ShardedTable.ByteSumIsFlat | research/vllm_ngram_embedding_main.py:481-490 | summing raw bytes as wrapping 8-bit integers gives the owner's bytes |
| CausalConv.WindowIsCausal | refs/qwen4_exp_modeling.py:230-240 | a convolution window over state and new columns is the causal window over the whole history |
| CausalConv.CausalIsSum | refs/qwen4_exp_modeling.py:223-263 | which is the bias plus each weight times the column its dilation reaches back to, nothing before the start |
| CausalConv.ColumnsAreState | research/sgl_qwen4_exp_main.py:1090-1103 | state columns gathered at any offset are the state after that many new columns |
| CausalConv.CausalConv1dUpdate | refs/qwen4_exp_modeling.py:223-240 | the state rolls forward in place and the outputs are the causal convolution over the whole history, for any state of at least K-1 columns |
| CausalConv.CausalConv1dFn | refs/qwen4_exp_modeling.py:243-263 | padding both sides and cutting is the zero-padded causal convolution |
| CausalConv.HeldThenNew | refs/qwen4_exp_modeling.py:560-574 | the one-shot form over held and new columns agrees with the whole history on the new ones |
| CausalConv.ConvForward | refs/qwen4_exp_modeling.py:548-574 | either path of the layer gives the causal outputs and leaves the cache holding the longer history |
| CausalConv.RunPieces | refs/qwen4_exp_modeling.py:548-574 | any cut into nonempty pieces gives the one-shot outputs |
| CausalConv.ShortConv | refs/qwen4_exp_modeling.py:1224-1241 | the dilated layer's pad and slice give the causal dilated convolution over the whole history |
| CausalConv.ShortConvPieces | refs/qwen4_exp_modeling.py:1224-1241 | any cut into nonempty pieces gives the dilated layer's one-shot outputs |
| CausalConv.ShortConvRow | research/sgl_qwen4_exp_main.py:1044-1107 | one row, anything past its length: outputs, next state, verify steps and the state at the boundary are those of its true history |
| ShortConvPool.ScatterColumns | research/sgl_qwen4_exp_main.py:1044-1048 | scattering flat columns fills each row with the positions it spans, valid or not, and zeros after them |
| ShortConvPool.GatherOutputs | research/sgl_qwen4_exp_main.py:1107 | each request's part of the flat outputs is its row's, so the causal outputs over its history |
| ShortConvPool.StatePool.ShortConv | research/sgl_qwen4_exp_main.py:996-1107 | a flat batch over the pool: outputs are those of each request's history, written and snapshot slots stand for the longer histories, other slots for what they did; verify batches only record steps, empty ones change nothing |
| ShortConvPool.BatchKnown | research/sgl_qwen4_exp_main.py:1044-1107 | a batch makes each request's slot stand for its grown history and its snapshot slot for the boundary's, a verify batch leaves each draft waiting, and unnamed slots stand for what they did |
| ShortConvPool.ServeAll | research/sgl_qwen4_exp_main.py:996-1107 | over every run of batches, adopted verify steps, copies, admissions and releases from a fresh pool, each batch's outputs are those of its requests' own column histories |
| BitwiseCheck.StepIsBijective | crates/engramdb-core/src/fnv.rs:8-11 | each step is a bijection of 64-bit states, whatever the byte |
| BitwiseCheck.HashIsInjective | crates/engramdb-core/src/fnv.rs:6-13 | a common ending never brings two different states together |
| BitwiseCheck.OneByteIsNoticed | crates/engramdb-core/src/fnv.rs:6-13 | strings of one length that differ in exactly one byte never share a hash |
| BitwiseCheck.Fnv64 | crates/engramdb-core/src/fnv.rs:6-13 | the wrapping loop computes the checksum |
| BitwiseCheck.KnownChecksums | crates/engramdb-core/src/fnv.rs:20-21 | which is the published value for the empty string and for one byte |
| BitwiseCheck.AndMask | scripts/bitwise_check.py:26 | masking the low bits of an unbounded integer is reduction modulo a power of two |
| BitwiseCheck.Fnv1a | scripts/bitwise_check.py:22-27 | so the masked loop over unbounded integers computes the same checksum |
| BitwiseCheck.FlatSlice | scripts/bitwise_check.py:43-48 | an offset in a shard file is that many bytes past the shards before it |
| BitwiseCheck.ReadRows | scripts/bitwise_check.py:38-48 | shard and offset of every sampled row read its bytes of the flat table, in order |

## Left out

- DeltaRuleLoops.ChunkRule: over the reals, so rounding and data types are not modelled; batch and head dimensions are independent and one head is modelled; l2norm and the query scale are preprocessing shared by both forms.
- MillerRabin.IsPrime64: does not state that no composite from 1681 to 2^64 is accepted, which rests on published computation; `MillerRabin.SearchExact` says exactly what follows from it.
- PleRuns.StepKeepsInv: how the pool copies an accepted verify step into a slot, copies a snapshot and clears a slot is not shown; adopting step k, copying a row and an eos row are assumed.
- ShortConvPool.ServeAll: the pool's own code is not part of this model; adopting a recorded verify step, copying a row and a zero row are assumed for adoptions, copies and admissions; channels are independent and one is modelled.
- EngramRuns.RunsAreSafe: a batch names each live slot once, and positions and supplied predecessor rows are taken to be true, as the scheduler promises.
- PleRuns.RunsAreSafe: a batch names each live slot and each snapshot slot once.
- OutputTrees.OutputReachesLeaf: contents are one number per tensor, so shape mismatches and broadcasting are not modelled, nor a record answered where a tensor was captured (attributes set on the tensor object).
- GraphPrograms.ReplayIsEager: no two wanted names share storage, so views of one tensor are not modelled; a break's body writes in place and returns one output, which keeps its structure; arguments are recorded by address, so a later break that holds a rebound record by reference is not modelled.
- StubFlow.ReplayFlowExact: the pass is judged by the addresses it reads and writes, for all kernels at once; a kernel that reads a stubbed tensor and ignores it still counts as letting it through.
- BreakableGraph.CaptureProgram: a break inside a break fails an assertion in this capture and is not modelled; the other capture's absorption of nested breaks is.
- VllmBreakable.BreakableCUDAGraphWrapper.Invoke: exceptions during capture and the debug-mode address check are not modelled; a decorated operation works on tensors of the pass, so what its body allocates for itself is not modelled; results are those in the last call's own tensors, and what an earlier eager call left in other memory is not followed.
- ShardedTable.ShardedLookupIsFlat: scaled weights are exact reals; the gathering over data-parallel ranks is taken as pure concatenation and is not modelled.
- CausalConv.RunPieces: channels are independent and one is modelled; pieces are nonempty, since cutting to the last 0 columns keeps all of them; `update_conv_state` is taken to return held and new columns and keep the last ones.
- CUDA and Triton kernels, streams as hardware and collectives: not shown; the non-CUDA paths are modelled, and the all-reduce is a sum.
- HashArithmetic.DrawIsMultiplier: numpy's generator is not modelled; its draws are any values below the bound.
- `sympy.isprime`, `math.isqrt`, three-argument `pow`, `torch.searchsorted` and the triangular solver stand for their definitions.
- Tokenizer normalisation in `build_compressed_token_map`: the compressed token map is any map into its range.
- The QSA indexer, attention, RoPE, mixture of experts and vision layers: library numerics, no algorithm of the table.
- The Rust storage engine, disk and mmap code, host-table sharing, server arguments and weight-name remapping: system calls and configuration.
