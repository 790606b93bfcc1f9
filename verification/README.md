# Brynja secret-output path: models and proofs

Brynja keeps SHA-3, cSHAKE and KMAC output in memory that it owns, stages and wipes. Two kinds of
code stand behind that promise, and both are modelled here.

* **The secret-output path itself.** A sponge engine that permutes lazily and counts its output in
  a 128-bit little-endian counter (`Counter`, `KeyStream`, `SpongeEngine`); the accelerated producer
  that reads it in chunks of 168 bytes through a staging buffer (`SecretProducer`); the portable
  reader with its byte and final-bit modes, its guard and its consuming call (`ReaderTraces`,
  `ReaderSafety`, `ReaderErrors`, `PortableReader`); the KMAC verifier that folds the tag block by block
  (`Verifier`); and the KMAC packer that frames messages and keys bit by bit (`ByteBits`,
  `IntegerEncoding`, `BitPacking`).
* **The checkers that inspect compiled code.** The reachability search used as a dominance test
  (`ControlGraph`); the worklist over (block, progress, attempted) that reviews an early cleanup
  (`EarlyCleanup`, `CleanupRuns`); the path-forking cleanup walk (`StagingWalk`, `StagingRuns`,
  `StagingSafety`, `StagingExact`, `StagingPhis`); the SSA interpreter with poison
  (`OutputConstructor`, `OutputMachine`, `OutputExact`, `ConstructorContract`); the cell memory with
  its per-region index (`CellMemory`); and the reviewed population-count and alignment program
  (`Popcount`).

Each checker is a method whose result is tied to a declarative predicate or function of its input,
in both directions. For three of them that is then tied to the runs of an independent semantics,
again in both directions: registers, regions and state destructors under the early cleanup
(`CleanupRuns.ApprovedExactly`), simultaneous phis, payloads and unwinding calls under the staging
walk (`StagingExact.AcceptsExactly`), and a machine with wrapping words, simultaneous phis and no
checks of single use, entry or flags under the constructor (`OutputExact.AcceptsExactly`). So a
checker neither lets through what its rules forbid nor refuses what they allow, and code of the
reviewed shape is shown to be accepted. Each producer is a class or method over arrays and fields,
proved against a byte stream, a bit string or an exact event trace, for every length, rate, cursor,
counter and every pattern of faults at its boundaries. The streams are proved against the squeezing
phase of section 4 of FIPS 202, masked bytes and verdicts bit by bit, the encodings and frames
against section 2.3 of NIST SP 800-185 by reading them back, and the traces against monitors that
know the rules but not the code.

Boundaries are parameters: the permutation is an arbitrary function on 200 bytes; an oracle decides
at every call of a boundary whether it answers, fails or unwinds; a fault plan does the same for
each chunk of the portable reader, and an absorber for each absorb call of the packer.

`dafny verify dfyconfig.toml` checks the project.

## Where the code promises less than it seems to

* The staging walk limits stores to four addresses but not their width, and clearing events are
  never taken back. `StagingSafety.WideStoreDirtiesStaging`: a 64-bit store at 859 after the clearing
  of the staging bytes from 864 on is accepted and leaves bytes dirty. `StagingSafety.DirtyExactly`:
  of an accepted walk some run does so if and only if some path of the walk makes such a store after
  its last request for the staging buffer that came back, which the walk itself could check; a store
  that a later completed request follows does no harm. No other cleared byte is ever at risk.
* The staging walk reads the phis of a block one after the other, where LLVM reads them all at block
  entry. From the function's entry SSA form makes that the same, but the producer's walks begin on
  edges out of calls inside the chunk loop. `StagingPhis.MisreadPhiIsAccepted`: a walk that begins
  inside a loop and comes back to its header is accepted although some run from there returns
  without the required clearing. `StagingPhis.PhisExactly`: some run's registers differ from what the
  walk reckons with if and only if some path of the walk selects a phi operand whose value at block
  entry is not the one that it reads, which the walk itself could check. SSA form excludes that
  wherever no path of the walk enters a block of some way in from the function's entry
  (`StagingPhis.SsaFormSuffices`), as in a walk that leaves the loop
  (`StagingPhis.CallInLoopIsCovered`).
* The constructor's interpreter reads phis one after the other, too. There SSA form, which LLVM's own
  verifier demands, is always enough (`OutputMachine.SsaFormCompletes`);
  `OutputMachine.CompletesExactly` has the exact condition and `OutputMachine.LatePhiIsAccepted` a
  body outside SSA form.
* `StagingWalk.GoodHasTerminal`: the walk's last check, that some exit was counted, cannot fail.
* `CellMemory.CopyKeepsFields`: a descriptor copy that stores only fields leaves what stands in the
  gaps, and drops every cell that a field overlaps, also one that straddles the window's edge
  (`CellMemory.StraddlingCellIsDropped`); the lemma says exactly which cells stay.
* `PortableReader.Reader.SqueezeFinal`: the final-bit squeeze commits the counter for the complete
  bytes before it starts the partial byte, so a failing last byte leaves the counter advanced until
  the guard wipes the owner.

Three remarks on the staging walk. It speaks of requests: a run's request that unwinds is modelled
as made but not carried out, so bytes are claimed clean only when a request for them came back. An
unwind into a block that panics inside a cleanup is a step of a run, which ends there. And the
walk's placeholder for an unknown value counts as true in Python, so a branch on it is followed to
one side; LLVM's types rule such a branch out (`StagingSafety.TypedBranchesOnNumbers`), and
`StagingSafety.StuckExactly` says that no run gets stuck exactly when there is none.

## Model

| member | source | states |
|---|---|---|
| ControlGraph.Search | assurance/register-cleanup/check_kmac_candidate_shape.py:34-43 | The worklist ends on every finite graph; it accepts exactly if no forbidden label is reachable without the removed edge (and without passing a stop), and then its visited set is exactly the reachable set |
| ControlGraph.EdgeDominance | assurance/register-cleanup/check_kmac_candidate_shape.py:34-43 | The search without an edge is clean if and only if every path from the start to a forbidden or undefined label crosses that edge |
| ControlGraph.DecidesEdge | assurance/register-cleanup/check_kmac_candidate_shape.py:109 | One search without the edge accepts if and only if every such path crosses it |
| ControlGraph.StopDominance | assurance/register-cleanup/check_kmac_compare_loop.py:72-79 | The search with stop labels is clean if and only if every path to a forbidden or undefined label meets a stop |
| ControlGraph.DecidesStops | assurance/register-cleanup/check_kmac_compare_loop.py:72-79 | One search with the stops accepts if and only if every such path meets one |
| ControlGraph.VisitedIsReached | assurance/register-cleanup/check_kmac_candidate_shape.py:42-43 | An exhausted worklist has visited what is reachable and nothing else |
| EarlyCleanup.Inspect | assurance/register-cleanup/check_kmac_early_cleanup.py:51-137 | The review accepts if and only if the declarative approval holds of all runs; it then counts the reached blocks and four cleanup requests |
| EarlyCleanup.VisitBlock | assurance/register-cleanup/check_kmac_early_cleanup.py:65-134 | Scanning a block line by line yields the visit's outcome and collects its request and destructor sites |
| EarlyCleanup.Expand | assurance/register-cleanup/check_kmac_early_cleanup.py:133-134 | Pushing a state's successors keeps the search invariant: nested open runs, finished states ranked below all they can reach |
| EarlyCleanup.Prune | assurance/register-cleanup/check_kmac_early_cleanup.py:58-59 | Skipping a visited state keeps the invariant, since a visited state not on the open run is finished |
| EarlyCleanup.Close | assurance/register-cleanup/check_kmac_early_cleanup.py:54-60 | Open states whose successors are all done become finished, each ranked above its successors |
| EarlyCleanup.RankFalls | assurance/register-cleanup/check_kmac_early_cleanup.py:52-60 | Along any run of finished states the rank falls at every step |
| EarlyCleanup.NeverReturns | assurance/register-cleanup/check_kmac_early_cleanup.py:56-60 | No run from a finished state comes back to its block, although revisits are pruned by state and cycles are compared by label |
| EarlyCleanup.Exhausted | assurance/register-cleanup/check_kmac_early_cleanup.py:54-60 | When the worklist is empty, the visited states are the reachable ones and no run repeats a block |
| EarlyCleanup.CollectedIsAttained | assurance/register-cleanup/check_kmac_early_cleanup.py:135-136 | The collected exits, request sites and destructor sites are exactly those that runs attain |
| CleanupRuns.ApprovedRunsAreSafe | assurance/register-cleanup/check_kmac_early_cleanup.py:61-134 | Every concrete run of an approved function has at most as many steps as blocks, repeats none, hands over with nothing attempted, returns only after the three metadata regions were cleared once each in order, and resumes or aborts only after an attempt; each state destructor on it is the original one, invoked, and in front of all cleanup, and it passes no line that nobody reviewed and no panic but a double one |
| CleanupRuns.ApprovedExactly | assurance/register-cleanup/check_kmac_early_cleanup.py:51-137 | A function whose requests load their pointer in their own block and end it when invoked is approved if and only if all its runs are safe and come back to no block, one hands over, one returns, one resumes, and four requests and one state destructor are reached |
| CleanupRuns.OrderlyScans | assurance/register-cleanup/check_kmac_early_cleanup.py:65-122 | A block whose execution logs nothing out of order and whose panics cannot return passes the scan |
| CleanupRuns.RejectingIsApproved | assurance/register-cleanup/check_kmac_early_cleanup.py:51-137 | A function of the reviewed shape, with handoff, early return, state destructor and unwinding guard, is approved |
| CleanupRuns.ApprovedBlocksAreAcyclic | assurance/register-cleanup/check_kmac_early_cleanup.py:56-60 | Approval rules out every cycle of blocks in front of the handoff |
| CleanupRuns.RegionsPartitionMetadata | assurance/register-cleanup/check_kmac_early_cleanup.py:79-86 | The three regions cover each of the 66 metadata bytes exactly once, as the whole-guard clearing does |
| CleanupRuns.ExecuteMatches | assurance/register-cleanup/check_kmac_early_cleanup.py:68-95 | Executing a block on registers logs what the scan's progress and attempt flag claim, on the normal and the unwind side |
| CleanupRuns.RunIsTracked | assurance/register-cleanup/check_kmac_early_cleanup.py:123-134 | Every concrete run is followed step by step by a run of abstract states |
| StagingWalk.Walk | assurance/register-cleanup/check_accelerated_staging.py:64-172 | The forking walk terminates; it returns if and only if every path from the start passes its checks, with the number of path ends |
| StagingWalk.VisitBlock | assurance/register-cleanup/check_accelerated_staging.py:72-170 | Interpreting one block in place gives its outcome |
| StagingWalk.GoodHasTerminal | assurance/register-cleanup/check_accelerated_staging.py:171 | A walk that fails nowhere has counted an end, so the nonvacuity check cannot fail |
| StagingWalk.ForksWeighLess | assurance/register-cleanup/check_accelerated_staging.py:141-151 | Replacing a path by its forks lowers the weight of the pending list and keeps the number of ends still to count |
| StagingSafety.AcceptedRunsAreSafe | assurance/register-cleanup/check_accelerated_staging.py:64-172 | Every run of an accepted graph whose phis read alike along the walk, whatever its payloads and however its invokes end, is bounded and repeats no block; it ends in a double panic, or exits as demanded (an error stays an error, an unwind resumes) with every required request made and everything that came back still clean but for three staging bytes; it is stuck only where the walk branches on something else than a number |
| StagingExact.AcceptsExactly | assurance/register-cleanup/check_accelerated_staging.py:64-172 | The walk accepts if and only if every run from where it begins, with only the registers it is given, keeps to the reviewed lines, operands and places, comes back to no block, and exits with everything requested, an error still an error and an unwind resumed |
| StagingExact.LinesExactly | assurance/register-cleanup/check_accelerated_staging.py:72-170 | From any line of a block on, the walk passes exactly if the run beside it keeps to that |
| StagingExact.OriginalExactly | assurance/register-cleanup/check_accelerated_staging.py:117-139 | A call is reviewed exactly if what it asks for is one of the original regions, and a guard's operation is incomplete and its definition validated |
| StagingExact.ErrorWalkIsGood | assurance/register-cleanup/check_accelerated_staging.py:233 | An error walk of the reviewed shape, which stores the error, drops the initialization, runs the guard and returns, is accepted with all its unwinds |
| StagingExact.UnwindWalkIsGood | assurance/register-cleanup/check_accelerated_staging.py:234 | The unwind walk behind the same call is accepted |
| StagingSafety.DirtyExactly | assurance/register-cleanup/check_accelerated_staging.py:95-99 | Some run exits with a staging byte dirty although a request for the buffer came back if and only if some path of the walk, before any branch on something else than a number, makes a 64-bit store at 859 after the last such request |
| StagingSafety.StuckExactly | assurance/register-cleanup/check_accelerated_staging.py:153-159 | Some run gets stuck if and only if some path of the walk branches on a value that is not a number |
| StagingSafety.TypedBranchesOnNumbers | assurance/register-cleanup/check_accelerated_staging.py:47-55 | Blocks and registers that are typed as in LLVM branch on nothing but numbers |
| StagingSafety.CleanUnlessUnwound | assurance/register-cleanup/check_accelerated_staging.py:117-139 | In a run in which no clearing invoke unwinds, every required clearing came back at an exit and its bytes are clean, the three staging bytes too if the walk leaves them alone |
| StagingSafety.PathIsRun | assurance/register-cleanup/check_accelerated_staging.py:66-71 | Every path of a walk that fails nowhere is a run, up to a block whose phis read differently or that branches on something else than a number: where the walk fails a test, some run comes, and registers that the walk does not set hold what they held |
| StagingSafety.RunBeside | assurance/register-cleanup/check_accelerated_staging.py:66-71 | Every run of an accepted graph whose phis read alike has a path of the walk beside it, with the run's blocks as its history, unless it has gone into a double panic |
| StagingPhis.PhisExactly | assurance/register-cleanup/check_accelerated_staging.py:73-81 | Reading phis line by line misleads the walk about some run if and only if some path of the walk selects a phi operand whose value at block entry differs from the one it reads |
| StagingPhis.LinesAgree | assurance/register-cleanup/check_accelerated_staging.py:73-81 | Up to the first such phi, the registers of a run are those that the walk reckons with |
| StagingPhis.SsaFormSuffices | assurance/register-cleanup/check_accelerated_staging.py:233-234 | In SSA form no path selects such an operand, for a walk from the entry or from any edge, also inside a loop, if no path of it enters a block of some way that leads there |
| StagingPhis.SsaHolds | assurance/register-cleanup/check_accelerated_staging.py:70-81 | Since no path comes back to a block, a block that it enters is not on its own way in, so by dominance none of its phis selects what the block sets |
| StagingPhis.MisreadPhiIsAccepted | assurance/register-cleanup/check_accelerated_staging.py:73-81 | A concrete accepted walk in SSA form from inside a loop, of which some run returns without the required clearing |
| StagingPhis.CallInLoopIsCovered | assurance/register-cleanup/check_accelerated_staging.py:233-234 | A walk behind a failed call inside a loop whose header has a phi that reads another one over the back edge meets the premises of the safety theorem |
| StagingRuns.LinesFaithful | assurance/register-cleanup/check_accelerated_staging.py:73-170 | Line by line, a block of a run does what the walk of it foresees, and gets stuck exactly where the walk branches on something else than a number |
| StagingRuns.StoreRequested | assurance/register-cleanup/check_accelerated_staging.py:95-99 | An admitted store dirties no cleared byte but for the overlap under a 64-bit store at 859, which it does dirty |
| StagingRuns.CompletedRequested | assurance/register-cleanup/check_accelerated_staging.py:117-139 | Requests that come back leave their bytes clean and nothing dirtier |
| StagingRuns.PanicEnds | assurance/register-cleanup/check_accelerated_staging.py:145-148 | A block that panics inside a cleanup is neither left nor exited |
| StagingSafety.WideStoreDirtiesStaging | assurance/register-cleanup/check_accelerated_staging.py:95-99 | A concrete accepted walk with a run that leaves cleared staging bytes dirty |
| StagingSafety.UntypedBranchIsFollowed | assurance/register-cleanup/check_accelerated_staging.py:153-159 | A concrete accepted walk, outside LLVM's typing, that branches on an unknown value |
| StagingPhis.BackEdgePhisAreCovered | assurance/register-cleanup/check_accelerated_staging.py:73-81 | A loop whose second phi reads the first one across the back edge meets those premises from its entry |
| OutputConstructor.Execute | assurance/register-cleanup/check_fips202_output_constructor.py:58-159 | The interpreter's loop computes the run in which every poisoning operation yields poison |
| OutputConstructor.PoisonIsUnobserved | assurance/register-cleanup/check_fips202_output_constructor.py:94-103 | If it accepts, replacing each poison result by any concrete values leaves the same stores and the same visited blocks |
| OutputConstructor.StoresAreDescriptor | assurance/register-cleanup/check_fips202_output_constructor.py:132-143 | The stores are pairwise disjoint, lie inside the 32 bytes of the result, and hold values that fit their field |
| OutputConstructor.UnpoisonedIsExact | assurance/register-cleanup/check_fips202_output_constructor.py:90-103 | A flagged operation that is not poison equals the exact unsigned (nuw) or signed (nsw) mathematical value |
| OutputConstructor.ComputeAgrees | assurance/register-cleanup/check_fips202_output_constructor.py:71-131 | No accepted computation reads a poison operand |
| OutputMachine.CompletesExactly | assurance/register-cleanup/check_fips202_output_constructor.py:58-159 | If the interpreter accepts, the machine runs to a return, whatever broken promises leave behind, if and only if every phi on the way reads what was there at block entry; every such run has the interpreter's stores and blocks |
| OutputMachine.SsaFormCompletes | assurance/register-cleanup/check_fips202_output_constructor.py:58-159 | In SSA form an accepted body runs on the machine to a return with the interpreter's stores and blocks |
| OutputExact.AcceptsExactly | assurance/register-cleanup/check_fips202_output_constructor.py:58-159 | The interpreter accepts, with its phis reading at block entry, if and only if the machine runs to a return with every line in the reviewed rules and every block entered once |
| OutputExact.LineExactly | assurance/register-cleanup/check_fips202_output_constructor.py:78-158 | A line is in the rules exactly if the interpreter takes it and it reads no register that its own block has set |
| ConstructorContract.ConstructorMeetsContract | assurance/register-cleanup/check_fips202_output_constructor.py:168-174 | For every length below 2^63 and every valid-bit count, a body of the reviewed shape leaves null and the error where the shape or the bit count is refused, and otherwise the address, the length, the bit length and the valid bits, each in its place |
| OutputMachine.BlockRuns | assurance/register-cleanup/check_fips202_output_constructor.py:81-158 | An accepted block runs on the machine to where the interpreter leaves it, or is stuck at the first phi that reads what its own block set |
| OutputMachine.EvalIsCompute | assurance/register-cleanup/check_fips202_output_constructor.py:84-131 | What the interpreter computes under its operand checks, the unchecked wrapping machine computes too |
| OutputMachine.PoisonsWhereBroken | assurance/register-cleanup/check_fips202_output_constructor.py:90-103 | The range tests for nuw and nsw say poison exactly where the wrapped result is not the exact unsigned or signed one |
| OutputMachine.LatePhiIsAccepted | assurance/register-cleanup/check_fips202_output_constructor.py:122-125 | A concrete accepted body, outside SSA form, on which the machine never returns |
| CellMemory.IndexedMemory.Store | assurance/register-cleanup/check_debug_volatile_clear.py:58-70 | The indexed store succeeds exactly inside a known region that is neither payload nor constant, equals the store that scans every cell, keeps the index exact, and keeps the cells disjoint and their widths positive |
| CellMemory.ReadableExactly | assurance/register-cleanup/debug_write_model.py:80-86 | An access is admitted exactly if each of its bytes lies in the region and the region is no payload |
| CellMemory.OverlapExactly | assurance/register-cleanup/check_debug_volatile_clear.py:58-70 | A store deletes a cell exactly if they share a byte |
| CellMemory.StoreReadsBack | assurance/register-cleanup/debug_write_model.py:86-104 | After a store the cell reads back, every disjoint cell is unchanged and every overlapping one is gone |
| CellMemory.IndexedMemory.StoreFields | assurance/register-cleanup/check_debug_portable_producer_guard.py:85-87 | Storing disjoint fields one after the other, in any order, overlays all of them at once |
| CellMemory.IndexedMemory.Copy | assurance/register-cleanup/check_debug_portable_producer_guard.py:130-140 | A descriptor move succeeds exactly if both windows are admitted and the source window cuts no field, and leaves the overlay of the moved fields |
| CellMemory.IndexedMemory.CopyBlank | assurance/register-cleanup/check_debug_counter_decode.py:96-104 | The eight-byte carrier move blanks the window, then stores the fields of the source |
| CellMemory.OverlayOne | assurance/register-cleanup/check_debug_portable_producer_guard.py:85-87 | Overlaying one more field is one more store |
| CellMemory.CopyKeepsFields | assurance/register-cleanup/check_debug_portable_producer_guard.py:130-140 | Every whole source field reads back at its relative offset, nothing outside the window changes but cells that a field cuts, and exactly which stale cells stay |
| CellMemory.BlankMoveArrives | assurance/register-cleanup/check_debug_counter_decode.py:88-93 | After a packed carrier is stored, the destination window holds exactly the source's fields if and only if the source window held a field at all, also within one region and with overlap; the cells stay disjoint |
| CellMemory.BlankCopyIsExact | assurance/register-cleanup/check_debug_counter_decode.py:96-104 | Between two regions, as the copy demands, the source window stays as it was, too |
| CellMemory.ChainCarries | assurance/register-cleanup/check_debug_counter_decode.py:78-93 | After any chain of packed loads and stores, between any windows of any regions, the last window holds the first one's fields, as long as there are any |
| CellMemory.StraddlingCellIsDropped | assurance/register-cleanup/check_debug_portable_producer_guard.py:130-140 | A concrete cell across the edge of the destination window that a descriptor move drops |
| Counter.ReadCount | crates/brynja-hash-sha3/src/hardened/accelerated/engine.rs:273-279 | Or-ing shifted bytes gives the little-endian number, at most 2^128-1 |
| Counter.OrAdds | crates/brynja-hash-sha3/src/hardened/accelerated/engine.rs:276 | Or-ing in a number behind the bits that are set adds it |
| Counter.WriteCount | crates/brynja-hash-sha3/src/hardened/accelerated/engine.rs:280-284 | The written bytes decode to the value |
| Counter.DecodeIsInjective | assurance/register-cleanup/check_debug_counter_decode.py:64-70 | Different counter bytes are different counters |
| KeyStream.StreamIsSqueeze | assurance/register-cleanup/check_debug_accelerated_read.py:90-117 | From a fresh cursor the lazy-permutation stream is the output of the squeezing phase of section 4 of FIPS 202 |
| KeyStream.ReadsCompose | assurance/register-cleanup/check_debug_composed_read.py:42-56 | A read of n bytes and then of m is one read of n+m: the same bytes, state and cursor |
| KeyStream.Progress | assurance/register-cleanup/check_debug_accelerated_read.py:90-116 | The final cursor is in 1..rate and with the permutations made accounts for every byte read |
| KeyStream.ProgressIsUnique | assurance/register-cleanup/check_debug_accelerated_read.py:90-116 | No other cursor and permutation count does |
| KeyStream.FitsSplits | assurance/register-cleanup/check_debug_accelerated_read.py:101-109 | A length can be read exactly if its two parts can be read one after the other |
| SpongeEngine.Engine.Preflight | assurance/register-cleanup/check_debug_accelerated_preflight.py:129-139 | State before session before counter: a failed or absorbing engine answers terminal, then a failing session answers for itself whatever the counter is, then the counter decides |
| SpongeEngine.Engine.ReadLoop | assurance/register-cleanup/check_debug_accelerated_read.py:90-116 | The loop terminates, its copies stay inside the rate and the 200 lanes, tile the destination, and deliver the stream with the exact number of permutations and final cursor |
| SpongeEngine.Engine.Read | crates/brynja-hash-sha3/src/hardened/accelerated/engine.rs:208-246 | On success exactly the stream bytes, cursor, permutations and counter; on every failure or unwind the engine is terminal and wiped; without faults the outcome is the named one and rejection precedes the first byte |
| SpongeEngine.Engine.Cancel | crates/brynja-hash-sha3/src/hardened/accelerated/engine.rs:90-94 | Terminal, cursor zero, all engine memory zero |
| SpongeEngine.ExtendStream | assurance/register-cleanup/check_debug_accelerated_read.py:92-116 | Copying the lanes from the cursor on extends the delivered bytes by the stream's next ones |
| SecretProducer.Storage.FillChunk | assurance/register-cleanup/check_debug_accelerated_operation.py:265-303 | One chunk extends the output by the requested bytes, moves cursor and counter along, and leaves the staging clear; without faults only an unreadable length can stop it, never the counter |
| SecretProducer.Storage.Fill | crates/brynja-hash-sha3/src/hardened/accelerated/in_place/xof/core.rs:152-188 | After the preflight of the whole length the chunk loop delivers what one read of that length would, with the last byte masked |
| SecretProducer.Storage.Produce | assurance/register-cleanup/check_debug_accelerated_operation.py:250-316 | On success the output is the requested stream, bit by bit up to the valid bits of its last byte and zero above them, and only the output holds data; on any error or unwind engine, staging and domain are wiped and terminal and the output is zero; without faults the outcome is the first that applies of a bad shape (9), a terminal engine (7), a full counter (8) and an unreadable length (7) |
| SecretProducer.Storage.ProduceFinal | assurance/register-cleanup/check_debug_composed_read.py:57-74 | The consuming call wipes the storage on every exit and delivers the same bits |
| SecretProducer.RequestedBits | crates/brynja-hash-sha3/src/hardened/accelerated/in_place/xof/core.rs:168-178 | The requested bytes are those whose bits are the stream's up to the valid bits of the last byte and zero above them, and no others |
| SecretProducer.NextChunkBytes | assurance/register-cleanup/check_debug_composed_read.py:42-56 | A chunk read at the threaded cursor, masked if it is the last, is the next piece of the monolithic request |
| SecretProducer.NextChunkFits | assurance/register-cleanup/check_debug_composed_read.py:42-56 | Every chunk can be read if the whole request can, and a chunk that cannot condemns the request |
| Verifier.Verify | crates/brynja-mac-kmac/src/verify.rs:12-59 | The verdict is to accept exactly if the bits of the candidate are those of the stream up to its valid bits, and the rest are zero; no error accepts; the reader is wiped on every exit; the blocks read are the tiling |
| Verifier.CompareBlocks | crates/brynja-mac-kmac/src/verify.rs:26-38 | Blocks of 64 bytes compare exactly the candidate's whole bytes with the stream, each once and in order |
| Verifier.CompareFinal | crates/brynja-mac-kmac/src/verify.rs:39-57 | The final byte is compared with the masked next stream byte, and this consumes the reader |
| Verifier.BlocksTile | assurance/register-cleanup/check_debug_kmac_whole.py:81-85 | The read lengths are 64 but for the last, none empty, and sum to the number of whole bytes |
| Verifier.Compare | crates/brynja-mac-kmac/src/verify.rs:35-37 | A block adds no difference exactly if it equals the candidate's bytes, and is cleared afterwards |
| Verifier.Accumulate | crates/brynja-mac-kmac/src/output.rs:131-133 | A difference is zero after a step exactly if it was zero and the bytes are equal |
| PortableReader.Reader.WriteChunk | assurance/register-cleanup/check_debug_squeeze_operation.py:83-110 | A chunk leaves exactly the specified events, progress and outcome for every fault at fill, slice, first byte, write and copy |
| PortableReader.Reader.Squeeze | crates/brynja-hash-sha3/src/hardened/sponge.rs:177-207 | Admission, chunks and the success-only counter commit leave exactly the specified trace |
| PortableReader.Reader.SqueezeFinal | crates/brynja-hash-sha3/src/hardened/sponge.rs:227-255 | Exactly the specified trace; the counter advances by the complete bytes exactly if they were all delivered, whatever becomes of the tail |
| PortableReader.Reader.Secret | crates/brynja-hash-sha3/src/hardened/in_place/xof.rs:71-101 | The guarded call leaves exactly the specified trace, reader state and outcome |
| PortableReader.Reader.Consume | assurance/register-cleanup/check_debug_consuming_final.py:127-159 | The consuming call leaves exactly the specified trace and a dead, wiped reader |
| ReaderSafety.ChunkFollows | assurance/register-cleanup/check_debug_squeeze_guard.py:93-106 | The monitor allows every chunk; it succeeds exactly if not struck, and then leaves the staging clear and the prefix longer |
| ReaderSafety.DeliverFollows | assurance/register-cleanup/check_debug_squeeze_guard.py:93-106 | The chunk loop delivers everything exactly if no chunk is struck, and never touches the counter |
| ReaderSafety.BytesFollow | assurance/register-cleanup/check_debug_squeeze_guard.py:89-109 | The counter is written once, to previous plus length, exactly if it fits and every chunk succeeds |
| ReaderSafety.BitsFollow | assurance/register-cleanup/check_debug_final_squeeze.py:95-128 | The counter is written exactly when the complete bytes are delivered and before any tail event; success is exactly full progress |
| ReaderSafety.GuardedFollows | assurance/register-cleanup/check_debug_final_guard.py:125-161 | For every call and fault plan: the trace is allowed, nothing stays staged, the output holds key bytes exactly on a nonempty success, the reader stays live exactly on success, and success is exactly being live, admitted and unhindered |
| ReaderSafety.RunConserves | assurance/register-cleanup/check_debug_squeeze_guard.py:134-167 | After any sequence of byte and final calls the reader is live exactly if none was hindered and the sum of their whole bytes fits, and then the counter is that sum |
| ReaderSafety.EveryCommitIsTheSum | assurance/register-cleanup/check_debug_final_guard.py:157-161 | Whatever any call of a run writes to the counter is the sum of the whole bytes up to that call, at most 2^128-1 |
| ReaderSafety.DeadForever | assurance/register-cleanup/check_debug_squeeze_guard.py:141-142 | After a failure every later call leaves the reader dead and emits no counter, fill, copy, mask or handover event |
| ReaderSafety.ConsumingEndsClean | assurance/register-cleanup/check_debug_consuming_final.py:127-159 | A consuming call is allowed whatever fails, only reports behind its complete final cleanup, and hands over exactly if shape and guarded call allow it |
| ReaderSafety.RegionsTile | assurance/register-cleanup/check_debug_portable_final_bridge.py:156-162 | The thirteen owned regions cover each of the 1040 bytes exactly once |
| ReaderErrors.GuardedNames | assurance/register-cleanup/check_debug_squeeze_guard.py:89-109 | Every failing call names its first fault: a destination that cannot be cleared (4), a reader no longer live (0), a full counter (2), or the first chunk that is struck, a missing slice or byte (3), a failing write (4), the fill's own error, or an unwind |
| ReaderErrors.ConsumedTells | assurance/register-cleanup/check_debug_consuming_final.py:123-150 | A consuming call refuses exactly the shapes whose bit count does not fit, and tells the output and its length, or the public number of the error, or nothing |
| ReaderErrors.GuardedIsOrdered | assurance/register-cleanup/check_debug_squeeze_guard.py:134-155 | Every guarded call begins, clears, deactivates the reader, operates, and activates it again only behind a finished operation; outside the operation no counter, staging or output byte is touched but to clear it |
| ReaderErrors.OwedIsWhole | assurance/register-cleanup/check_debug_final_squeeze.py:95-128 | The bytes that the counter advances by are the whole bytes of the requested bits |
| BitPacking.Packer.AppendSuffix | crates/brynja-mac-kmac/src/packer.rs:113-129 | Absorbed bytes and the used tail bits are together exactly the message bits followed by whole bytes from which the output length, and nothing else, is read back; it succeeds exactly if the needed absorb calls answer and the byte count fits; no other bits reach the state on failure; the frame is wiped on every exit |
| BitPacking.Packer.AbsorbKey | crates/brynja-mac-kmac/src/packer.rs:19-34 | From the absorbed bytes the rate, then the number of key bits, then these bits are read back, and behind them the fewest zeros to whole blocks (section 2.3.3 of NIST SP 800-185); it succeeds exactly if the rate is admitted, the needed absorb calls answer and the byte count fits |
| BitPacking.Packer.PushBits | crates/brynja-mac-kmac/src/packer.rs:199-229 | The bit string grows by the low bits of the byte, with at most one flush, exactly at eight pending bits |
| BitPacking.Packer.PushBytes | crates/brynja-mac-kmac/src/packer.rs:183-197 | The bit string grows by the bytes: in one absorb call when aligned, one call per byte when not |
| BitPacking.Packer.PushBitString | crates/brynja-mac-kmac/src/packer.rs:169-181 | The bit string grows by exactly the significant bits, whatever is pending; it succeeds exactly if the needed absorb calls answer and the byte count fits |
| BitPacking.Packer.FinishBytepad | crates/brynja-mac-kmac/src/packer.rs:231-251 | Zero bits up to the next whole block and no more; it succeeds exactly if the rate is in 1..168, the needed absorb calls answer and the byte count fits |
| BitPacking.Packer.Flush | crates/brynja-mac-kmac/src/packer.rs:267-277 | The pending byte is absorbed and cleared, so what is inserted next is inserted into zeros |
| BitPacking.FramingIsInjective | assurance/register-cleanup/check_debug_kmac_packing.py:12-40 | The framed bits determine the message bits and the output length, although the message may end inside a byte |
| BitPacking.KeyParses | crates/brynja-mac-kmac/src/packer.rs:28-31 | A padded key string is read back as the rate, the bit count and the bits of the key |
| BitPacking.KeyFrameIsInjective | crates/brynja-mac-kmac/src/packer.rs:19-34 | Equal absorbed bytes mean an equal rate and equal key bits |
| ByteBits.TransferBits | crates/brynja-core/src/secret_memory_xor.rs:5-50 | The transfer is refused exactly if a range does not fit its byte, and otherwise flips exactly the destination bits that the source field selects |
| ByteBits.TransferInserts | crates/brynja-mac-kmac/src/packer.rs:216-219 | Into clear bits the exclusive or is an insertion, and the bits above stay clear |
| IntegerEncoding.RightEncode | crates/brynja-hash-sha3/src/sp800185.rs:387-418 | Dropping the leading zeros of sixteen big-endian bytes gives the shortest digits with their number behind |
| IntegerEncoding.LeftEncode | crates/brynja-mac-kmac/src/packer.rs:49-78 | The shifting loops give the shortest digits with their number in front |
| IntegerEncoding.RightEncodeParses | crates/brynja-hash-sha3/src/sp800185.rs:387-418 | Whatever precedes it, an encoded value is read back from the end together with what precedes it |
| IntegerEncoding.LeftEncodeParses | crates/brynja-mac-kmac/src/packer.rs:49-78 | Whatever follows it, an encoded value is read back from the front together with what follows |
| IntegerEncoding.WidthIsLeast | assurance/register-cleanup/check_debug_kmac_packing.py:16 | The width has room for the value, a shorter one has not, and sixteen digits suffice for 128 bits |
| Popcount.CountBits | assurance/register-cleanup/byte_precondition_assembly_contracts.py:3-21 | The nineteen instructions leave the number of set bits of every 64-bit value in the register |
| Popcount.IsAligned | assurance/register-cleanup/byte_precondition_assembly_contracts.py:74-91 | It takes its normal path exactly if the alignment is a power of two, and then answers whether the alignment divides the address |
| Popcount.PairsAdd | assurance/register-cleanup/byte_precondition_assembly_contracts.py:3-7 | The first subtraction never borrows between pairs of bits: each pair holds its own count |
| Popcount.ProductTop | assurance/register-cleanup/byte_precondition_assembly_contracts.py:19-21 | Multiplying by a one in each byte adds all byte counts into the top byte without a carry |
| Popcount.MaskDivides | assurance/register-cleanup/byte_precondition_assembly_contracts.py:83-88 | For a number with one set bit, masking with its predecessor is zero exactly if it divides the address |

## Left out

* Parsing of LLVM IR and assembly text by regular expressions, symbol closures, call arities and
  the type part of call signatures: the models start from instruction datatypes.
* Command lines, records, artifact hashes, compilers and emulators; the coverage counts and scenario
  lists of the checkers' drivers, which the proofs replace by all inputs.
* The Keccak permutation, volatile writes, fences, register and spill erasure: an arbitrary function
  and plain assignments stand for them.
* Absorbing, finalizing and public reads of the sponge engine; the fixed-length hash and HMAC owners.
* The staging fill of the portable reader is a boundary: its traces carry lengths, not bytes. The
  byte contents are proved for the accelerated engine.
* `Drop` glue, borrow rules and the Rust wrappers that only forward.
* The admission policy in front of the verifier (expected length, strength, production profile).
* The ARM programs beside the x86-64 ones, and the spilling of arguments to the stack.
- SpongeEngine.Engine.Read: the order of boundary events inside a read is not recorded as a trace; the memory it leaves, its outcome and the fault-free outcome are stated instead. The injected overflow of the second counter decode is a counter value, not a separate fault.
- SecretProducer.Storage.Produce: likewise states memory and outcome, that the output is clear before the operation and the staging behind each chunk, but not the order of clearing events on failing exits; a fault of the finishing step is one oracle answer, where the source distinguishes two descriptor faults.
- PortableReader.Reader.Secret: the owner's wipe sets the modelled counter to zero at once; the source's model keeps the algorithm's last written value beside the wipe events.
- BitPacking.Packer.AppendSuffix: the finishing call that consumes the tail bits is a boundary and cannot fail here, and clearing requests are modelled by the cleared frame, not listed.
- StagingSafety.AcceptedRunsAreSafe: assumes that phis read alike along the walk (`StagingSafety.PhisReadAlike`, where the walk is otherwise misled about some run by `StagingPhis.PhisExactly`), an initialization that is present, and unknown registers that hold payloads; a call that unwinds is taken to have cleared nothing.
- StagingSafety.DirtyExactly: says nothing of exits at which no request for the staging buffer has come back; there the walk promises a request and no clean byte.
- CleanupRuns.ApprovedExactly: that a request's pointer is loaded in its own block, and that an invoked request ends a block of two targets, are conditions on the text, which no run can show; safety holds without them.
- StagingExact.AcceptsExactly: assumes that phis read alike and branches are on numbers along the walk, where `StagingPhis.PhisExactly` and `StagingSafety.StuckExactly` say what happens otherwise.
- OutputConstructor.Execute: starts from parsed instructions of the constructor's closed set and integer arguments of any size.
- CellMemory.IndexedMemory.Store: values are of any type; the provenance of pointers stored as values is not modelled.
