# Weight transfer, sharding and alignment: a Dafny model

The repository trains a model and, after every optimizer step, streams all of its weights to the ranks that
sample from it. This project models that path and the bookkeeping around it, and proves what it is for.

- **Moving weights (verl_new).** `Chunks` cuts tensors into chunks no larger than a bucket and rebuilds them
  in place. `Buckets` packs chunks into buckets and slices them back out, and `SendLoop` is the loop that
  does so over two alternating buffers. `NixlChain` is the store-and-forward chain of ranks as a state
  machine: a remote read copies one byte at a time, so any write to a buffer somebody still reads would show
  in what is delivered. `NixlSafety` proves that every interleaving delivers, that no buffer in use is
  written, that nothing deadlocks and that runs end. `NixlTopology` says when the chain is wired correctly. `NcclBroadcast` and `NcclSafety` do the same for the
  double-buffered broadcast, whose metadata and payload travel on two separate channels.
- **Hot sync of the student (CLightMLLM_new).** `BucketedTransfer` says what is sent in which message, with the
  sender and receiver as classes over one shared buffer, and the size pre-check. `HotSync` has the two as
  processes over a REQ/REP channel, the receiver reading entry by entry from the live buffer. `StudentServer` is
  the session machine above them (start, finish, abort, generate, and the receiver threads), as a step function
  with proofs over all runs, composed with `HotSync` from the trainer's weights to the engine's, and as a class
  whose runs are the runs of the machine.
- **Layout.** `PipelineShards` (the search for a pipeline sharding refines a closed form), `QkvLayout`
  (interleaved attention weights and tensor-parallel merging), `LayerMerge` (renumbering layers across ranks,
  and the partition of keys into files), `MoeExperts` (stacking and unstacking experts).
- **Tokens and batches.** `TeacherAlign` (masks, collapsing of placeholder runs, and where the teacher's rows
  land), `SpanAlign` (the same without a response mask), `SftBudget` (the token budget of an example),
  `BatchAlgebra` (padding, chunking, concatenating).
- `Seqs`, `Arith`, `Cuts` and `Options` hold shared definitions and small named facts.

Loops and objects of the program are methods and classes, each proved against a function or relation; what
the program promises is proved about that function. Protocols between processes are state machines, and their
properties hold for every reachable state.

Where the program does not do what it looks like it should, the condition under which it does is stated as
an equivalence: a zero-byte tensor is lost by the round trip (`Chunks.RoundTripIffNoEmptyWeight`); a chain with
one rollout worker is wired wrongly (`NixlTopology.ChainIffTwoWorkers`); the pipeline search can come back empty
(`PipelineShards.GetDynamicPipelineShards` gives the condition, `PipelineShards.SearchCanFail` an instance); an
empty part shifts the layer numbers after it (`LayerMerge.RenumberingIsExactIff`, and across the ranks
`LayerMerge.LayersAreSharedOutIff`); a key that two ranks have is saved in two files
(`LayerMerge.KeyIsInOneFileIff`); discarded sessions can change the weights under an unchanged version
(`StudentServer.SameVersionSameWeightsIff` and `StudentServer.AbortKeepsWeightsIff`, with a run in
`StudentServer.AbortCanChangeWeightsUnderTheSameVersion`); weights of the same name that meet in a message replace
one another (`BucketedTransfer.DeliveryIsExactIff`); a refused weight leaves the receiver waiting
(`HotSync.StuckIff`) and the server wedged (`StudentServer.RefusedWeightWedgesTheServer`); a mask with a hole
misplaces rows (`TeacherAlign.AlignedIffNoHole` and `TeacherAlign.CompletionHasNoHoleIff`), and without anything
before the response there is a row too few (`TeacherAlign.ResponseRowsPredictTheirTokens`); without a response mask, rows are laid by their number alone, so a token can be given another token's score when
lengths coincide (`SpanAlign.SpanIsRightIff`, with tokens in `SpanAlign.LengthsCanCoincide`).

## Model

| member | source | states |
|---|---|---|
| Chunks.SplitWeightChunks | verl_new/verl/checkpoint_engine/base.py:529-543 | The generator loop yields the chunk list that the round-trip lemmas are about. |
| Chunks.SplitWeight | verl_new/verl/checkpoint_engine/base.py:530-543 | The inner loop cuts one tensor into consecutive chunks of at most a bucket. |
| Chunks.SplitIsPackable | verl_new/verl/checkpoint_engine/base.py:529-543 | Every chunk is non-empty and fits a bucket; a chunk that another of the same name follows fills a bucket by itself. |
| Chunks.Merger.Absorb | verl_new/verl/checkpoint_engine/base.py:559-585 | One chunk, any chunk, written in place into the pending buffer: the exact condition of every assertion and of a failing view or copy, and else what is yielded and what stays pending. |
| Chunks.MergeWeightChunks | verl_new/verl/checkpoint_engine/base.py:558-585 | The loop over any chunks, including the prefix it has yielded when an error stops it. |
| Chunks.MergeInvertsSplit | verl_new/verl/checkpoint_engine/base.py:529-585 | No merge assertion fires and the non-empty weights come back in order, for every bucket size. |
| Chunks.MergeIgnoresPlacement | verl_new/verl/checkpoint_engine/base.py:558-585 | Rebuilding does not depend on where in a bucket a chunk had been placed. |
| Chunks.RoundTripIffNoEmptyWeight | verl_new/verl/checkpoint_engine/base.py:532 | The round trip is the identity if and only if no weight has zero bytes. |
| Chunks.NonEmptyAdds | verl_new/verl/checkpoint_engine/base.py:532 | What the round trip returns is decided weight by weight, by the bytes alone, in order. |
| SendLoop.SendWeights | verl_new/verl/checkpoint_engine/nccl_checkpoint_engine.py:248-298 | The send loop over two arrays, with each buffer read as late as it may be: every broadcast carries the bytes and metadata of its bucket, the last alone is marked last, and the loop fails if and only if two weights of the same name meet in a bucket. |
| SendLoop.PacksCleanlyIff | verl_new/verl/checkpoint_engine/nccl_checkpoint_engine.py:254-283 | The packing assertions hold if and only if no two weights of the same name meet in a bucket, which names and sizes of the input decide. |
| Buckets.SplitPacksCleanly | verl_new/verl/checkpoint_engine/nccl_checkpoint_engine.py:277-278 | Neither packing assertion can fail for distinctly named weights. |
| Buckets.PackIsWellPacked | verl_new/verl/checkpoint_engine/nccl_checkpoint_engine.py:280-283 | In every bucket the extents tile the bytes written, these fit, and names are distinct. |
| Buckets.BucketCount | verl_new/verl/checkpoint_engine/nccl_checkpoint_engine.py:252-283 | At most max(1, 2*ceil(total/size)-1) buckets are sent and only the last can be empty. |
| Buckets.PackIsGreedy | verl_new/verl/checkpoint_engine/nccl_checkpoint_engine.py:254-275 | A bucket is closed only when the next chunk does not fit, and that chunk opens the next one. |
| Buckets.UnpackInvertsPack | verl_new/verl/checkpoint_engine/nccl_checkpoint_engine.py:347-368 | Slicing all buckets by their metadata gives back the chunks that were packed, in order. |
| Buckets.UnpackLooksAtPrefix | verl_new/verl/checkpoint_engine/nccl_checkpoint_engine.py:349-351 | What lies in the buffer behind the bucket's bytes does not matter. |
| Buckets.TransferRoundTrip | verl_new/verl/checkpoint_engine/nccl_checkpoint_engine.py:248-368 | Split, pack, unpack and merge give back the weights for every bucket size. |
| NixlChain.StepInv | verl_new/verl/checkpoint_engine/nixl_checkpoint_engine.py:390-526 | Every step of every rank keeps the invariant of buffers, links, exposures and reads. |
| NixlChain.LinkAck | verl_new/verl/checkpoint_engine/nixl_checkpoint_engine.py:170-174 | The notification that arrives carries the key of the exposure that is waited for. |
| NixlSafety.ChainDelivers | verl_new/verl/checkpoint_engine/nixl_checkpoint_engine.py:452-526 | For any number of ranks and any interleaving a rank has yielded a prefix of the sender's chunks, and all of them, merging into the weights, once it is done. |
| NixlSafety.BuffersInUseAreKept | verl_new/verl/checkpoint_engine/nixl_checkpoint_engine.py:403-436 | No step of any rank writes a buffer that is being yielded from or is exposed and unacknowledged. |
| NixlSafety.OneExposurePerLink | verl_new/verl/checkpoint_engine/nixl_checkpoint_engine.py:166-174 | A link carries at most one of: a message, a read in flight, an acknowledgement; and exactly one while a buffer is exposed. |
| NixlSafety.NoAssertionFails | verl_new/verl/checkpoint_engine/nixl_checkpoint_engine.py:173 | No rank fails an assertion in a reachable state. |
| NixlSafety.SomeoneBehindCanMove | verl_new/verl/checkpoint_engine/nixl_checkpoint_engine.py:170-174 | Behind every rank that waits for an acknowledgement there is one that can move. |
| NixlSafety.NoDeadlock | verl_new/verl/checkpoint_engine/nixl_checkpoint_engine.py:403-526 | Every reachable unfinished state has an enabled step. |
| NixlSafety.StepDecreases | verl_new/verl/checkpoint_engine/nixl_checkpoint_engine.py:403-526 | The work left, summed over all ranks, decreases with every step. |
| NixlSafety.RunIsBounded | verl_new/verl/checkpoint_engine/nixl_checkpoint_engine.py:403-526 | A run is no longer than the work that was left when it began. |
| NixlSafety.EveryRunDelivers | verl_new/verl/checkpoint_engine/nixl_checkpoint_engine.py:368-526 | Over all runs: bounded length, no failed assertion, and a run that cannot go on has every rank done with exactly the sender's weights. |
| NixlTopology.ChainIffTwoWorkers | verl_new/verl/checkpoint_engine/nixl_checkpoint_engine.py:288-305 | The links form one chain if and only if there are at least two rollout workers. |
| NcclBroadcast.StepInv | verl_new/verl/checkpoint_engine/nccl_checkpoint_engine.py:248-368 | Every step of the root, of its executor thread and of every receiver keeps the invariant. |
| NcclSafety.BroadcastDelivers | verl_new/verl/checkpoint_engine/nccl_checkpoint_engine.py:321-368 | For any number of receivers and any interleaving the bytes yielded are the bytes packed, in order, and merge into the weights. |
| NcclSafety.MetadataMatchesPayload | verl_new/verl/checkpoint_engine/nccl_checkpoint_engine.py:80-99 | The i-th metadata is paired with the i-th payload although they come over two channels. |
| NcclSafety.BufferInFlightIsKept | verl_new/verl/checkpoint_engine/nccl_checkpoint_engine.py:254-275 | The sender never writes the buffer a broadcast is sending. |
| NcclSafety.BufferYieldedIsKept | verl_new/verl/checkpoint_engine/nccl_checkpoint_engine.py:336-360 | A receiver never yields from the buffer it receives into, nor is the buffer it yields from written. |
| NcclSafety.NoDeadlock | verl_new/verl/checkpoint_engine/nccl_checkpoint_engine.py:80-99 | A reachable unfinished state has a step, even if a broadcast moves only while all receivers take part. |
| NcclSafety.BroadcastNeverSticks | verl_new/verl/checkpoint_engine/nccl_checkpoint_engine.py:248-368 | The same over all runs from the start. |
| NcclSafety.StepDecreases | verl_new/verl/checkpoint_engine/nccl_checkpoint_engine.py:248-368 | The work left of the root, its broadcast and all receivers decreases with every step. |
| NcclSafety.EveryRunDelivers | verl_new/verl/checkpoint_engine/nccl_checkpoint_engine.py:248-368 | Over all runs: bounded length, no failed assertion, and a run that cannot go on, even under the rule of collectives, has every rank done with exactly the sender's weights. |
| BucketedTransfer.BucketedWeightSender.SendWeights | CLightMLLM_new/src/method/bucketed_weight_transfer.py:105-141 | For any mix of small and oversize weights the receiver is handed, message by message, what the plan says, with exactly one last message, at the end; or the sender stops at the first refused weight. |
| BucketedTransfer.BucketedWeightSender.DirectSend | CLightMLLM_new/src/method/bucketed_weight_transfer.py:172-185 | An oversize weight arrives alone, through its own memory, and is not marked last. |
| BucketedTransfer.BucketedWeightReceiver.Receive | CLightMLLM_new/src/method/bucketed_weight_transfer.py:221-243 | One round of the receive loop hands over the tensors behind the entries and stops at the last message. |
| BucketedTransfer.PlanConserves | CLightMLLM_new/src/method/bucketed_weight_transfer.py:107-141 | The messages together are the weights before the first refused one, in order; the error names that one. |
| BucketedTransfer.MessagesHaveWeights | CLightMLLM_new/src/method/bucketed_weight_transfer.py:111-141 | Every message but the last has a weight, and the last is empty only if there was nothing to put in it. |
| BucketedTransfer.DictMeans | CLightMLLM_new/src/method/bucketed_weight_transfer.py:127-133 | A message holds the last weight of every name, at the place where its name came first. |
| BucketedTransfer.DeliveryIsExactIff | CLightMLLM_new/src/method/bucketed_weight_transfer.py:107-141 | The delivery is the weight list if and only if none is refused and no two of the same name meet in a message, which sizes and names of the input decide. |
| BucketedTransfer.DistinctNamesAreDelivered | CLightMLLM_new/src/method/bucketed_weight_transfer.py:107-141 | With distinct names delivery is exact up to the first refused weight. |
| BucketedTransfer.StudentModelWeightItems | CLightMLLM_new/src/method/opd.py:151-162 | The k-th different normalized name has as its item the first parameter of that name, unchanged but for the name; the names are distinct and none is missing. |
| BucketedTransfer.LargestItem | CLightMLLM_new/src/method/vllm_student.py:141-159 | The first of the largest tensors, or none if there is no tensor. |
| BucketedTransfer.PrepareItems | CLightMLLM_new/src/method/vllm_student.py:112-135 | A weight for every tensor, in order; one that is not floating, or any without a sync dtype, is sent as it is, another with name and shape kept, the sync dtype and the converted bytes. |
| BucketedTransfer.EstimateIsExact | CLightMLLM_new/src/method/vllm_student.py:112-141 | Item by item the estimate, which does no cast, is the number of bytes of what the generator yields. |
| BucketedTransfer.SendWeightItems | CLightMLLM_new/src/method/vllm_student.py:162-215 | The pre-check refuses exactly the lists the sender would fail on, before anything is sent; so the error in mid-stream is never seen, and what is delivered are the weights of the items unless namesakes meet. |
| HotSync.StepInv | CLightMLLM_new/src/method/bucketed_weight_transfer.py:105-141 | Every step of the sender and of the receiver keeps the invariant of buffer, channel and message. |
| HotSync.BufferIsKeptUntilAcknowledged | CLightMLLM_new/src/method/bucketed_weight_transfer.py:113-114 | From when a message is sent until its acknowledgement has arrived no step of either process writes the buffer, and the receiver reads only then. |
| HotSync.SyncDelivers | CLightMLLM_new/src/method/bucketed_weight_transfer.py:221-243 | The receiver has handed over a prefix of the planned groups, all of them when it is done, and exactly those before a refused weight. |
| HotSync.OneLastMessage | CLightMLLM_new/src/method/bucketed_weight_transfer.py:137-141 | Exactly one message is marked last, and it is the last. |
| HotSync.StuckIff | CLightMLLM_new/src/method/bucketed_weight_transfer.py:117-125 | The processes get stuck if and only if both are done or a weight was refused, which leaves the receiver waiting. |
| HotSync.StepDecreases | CLightMLLM_new/src/method/bucketed_weight_transfer.py:105-141 | The work left decreases with every step. |
| HotSync.EveryRunDelivers | CLightMLLM_new/src/method/bucketed_weight_transfer.py:105-141 | Over all runs: bounded length, and one that cannot go on has delivered everything, or everything before the refused weight. |
| StudentServer.StepInv | CLightMLLM_new/tools/serve_vllm_student.py:112-263 | Every request and every thread step keeps the invariant of sessions, threads and weights. |
| StudentServer.GenerationNeverOverlapsSync | CLightMLLM_new/tools/serve_vllm_student.py:113-134 | A generation begins exactly when no session is active, and until it ends no event changes the engine or the version: its response reports the weights it began with. |
| StudentServer.VersionCountsFinishes | CLightMLLM_new/tools/serve_vllm_student.py:243-244 | The version is the number of requests answered with a finished session. |
| StudentServer.EngineHoldsFinishedPayloads | CLightMLLM_new/tools/serve_vllm_student.py:220-263 | Between sessions the engine is the finished payloads in order, except on names that only a discarded session has loaded since. |
| StudentServer.WithoutFailuresEngineIsExact | CLightMLLM_new/tools/serve_vllm_student.py:220-263 | With no session aborted or failed the engine is exactly the finished payloads. |
| StudentServer.FullSyncRepairs | CLightMLLM_new/tools/serve_vllm_student.py:220-263 | A finished session that covers what discarded ones left makes the engine exact again. |
| StudentServer.SameWeightsIff | CLightMLLM_new/tools/serve_vllm_student.py:112-263 | A run ends with the weights it began with if and only if all that was loaded along it was in the engine already. |
| StudentServer.SameVersionSameWeightsIff | CLightMLLM_new/tools/serve_vllm_student.py:124-132 | Two idle states with the same version hold the same weights if and only if what the sessions discarded between them loaded was there already. |
| StudentServer.AbortKeepsWeightsIff | CLightMLLM_new/tools/serve_vllm_student.py:171-219 | An abort leaves the weights from before the session if and only if what the session had loaded was there already. |
| StudentServer.AbortCanChangeWeightsUnderTheSameVersion | CLightMLLM_new/tools/serve_vllm_student.py:171-219 | A run in which an aborted session changes the weights and not the version. |
| StudentServer.FinishedSessionLoadedAll | CLightMLLM_new/tools/serve_vllm_student.py:228-244 | In any run, a session that is answered as finished has loaded exactly what its sender sent, provided its thread ends well only when its receiver is done. |
| StudentServer.FinishedSessionHoldsPayload | CLightMLLM_new/tools/serve_vllm_student.py:228-244 | The same from the trainer to the engine: every weight that was sent is in the engine under its name and is what the session is counted for. |
| StudentServer.RefusedWeightWedgesTheServer | CLightMLLM_new/tools/serve_vllm_student.py:112-263 | After a weight too large for shared memory its session can never be finished, and unless its receiver thread fails by itself every later request is refused. |
| StudentServer.StudentState.HandleGenerateBegin | CLightMLLM_new/tools/serve_vllm_student.py:113-115 | Refused exactly while a session is active, changing nothing; otherwise the lock is held and nothing else changes. |
| StudentServer.StudentState.HandleGenerateEnd | CLightMLLM_new/tools/serve_vllm_student.py:124-132 | The response reports the current weights and version, which are those of the finished sessions outside names that discarded ones have left. |
| StudentServer.StudentState.HandleStart | CLightMLLM_new/tools/serve_vllm_student.py:136-152 | Refused exactly while a session is active; otherwise the new session is active with its thread running and nothing loaded. |
| StudentServer.StudentState.HandleStarted | CLightMLLM_new/tools/serve_vllm_student.py:153-170 | If the receiver has failed by then the session is discarded, and else it stays; engine and version stay. |
| StudentServer.StudentState.HandleFinish | CLightMLLM_new/tools/serve_vllm_student.py:220-263 | The exact condition of every error; once the active session's receiver has ended the session is over, counted with one version more if it ended well and discarded if not; any other answer changes nothing. |
| StudentServer.StudentState.HandleAbort | CLightMLLM_new/tools/serve_vllm_student.py:171-219 | The exact condition of every answer; once the active session's receiver has ended the session is discarded, engine and version staying; any other answer changes nothing. |
| StudentServer.StudentState.ThreadStep | CLightMLLM_new/src/method/vllm_student.py:589-621 | Each step of a thread: what it does to its result and to the engine, and that nothing else changes; it runs only for the active session. |
| StudentServer.LoadIsLast | CLightMLLM_new/src/method/vllm_student.py:25-45 | Under every name the engine has the last weight of that name. |
| StudentServer.LoadByParts | CLightMLLM_new/src/method/vllm_student.py:25-45 | Loading the parameters and then the buffers does what loading in the given order does. |
| StudentServer.KindsAdd | CLightMLLM_new/src/method/vllm_student.py:27-33 | Every weight goes to the parameters or the buffers by its name alone, in order. |
| StudentServer.StudentState.LoadWeightsIntoModel | CLightMLLM_new/src/method/vllm_student.py:25-45 | The parameters are loaded and then the buffers up to the first of another shape; it succeeds exactly if there is none, and then the engine is as if all had been loaded in order. |
| StudentServer.StudentState.OnBucketReceived | CLightMLLM_new/src/method/vllm_student.py:62-88 | A bucket is loaded, or the session's thread ends with an error, having loaded the part before the misfit. |
| StudentServer.StudentState.Serve | CLightMLLM_new/tools/serve_vllm_student.py:112-263 | A server over a whole run goes through the states of the machine, counts its finished sessions, and when idle holds the finished payloads outside what discarded sessions left. |
| PipelineShards.GetDynamicPipelineShards | verl_new/verl/model_merger/megatron_model_merger.py:67-98 | The search returns the closed form; every error has its exact condition, and in every other case there is an answer. |
| PipelineShards.ShardsOkIff | verl_new/verl/model_merger/megatron_model_merger.py:81-98 | With three stages or more there is an answer if and only if there is a candidate, that is if (p-2)*ceil(L/p)+2 <= L. |
| PipelineShards.CandidateIff | verl_new/verl/model_merger/megatron_model_merger.py:85-88 | A middle size is a candidate if and only if it is at least ceil(L/p) and leaves two layers for the ends. |
| PipelineShards.ShardsAreAPartition | verl_new/verl/model_merger/megatron_model_merger.py:81-99 | p positive entries that sum to L, ends that differ by at most one, middles equal to ceil(L/p), none larger. |
| PipelineShards.ShardsAreUniform | verl_new/verl/model_merger/megatron_model_merger.py:65 | No way of cutting the layers into p parts has a smaller largest part. |
| PipelineShards.SearchCanFail | verl_new/verl/model_merger/megatron_model_merger.py:81-98 | Five layers on four stages: the search finds nothing although a sharding exists. |
| QkvLayout.SplitTensors | verl_new/verl/model_merger/megatron_model_merger.py:330-354 | Splitting an unsharded tensor is the tensor-parallel merge of one part, with the same errors. |
| QkvLayout.MergeOfOne | verl_new/verl/model_merger/megatron_model_merger.py:334-354 | The merge of a single part, spelled out by rows. |
| QkvLayout.MergeAcrossTp | verl_new/scripts/legacy_model_merger.py:534-562 | The nested loops compute the merge that the round trip is about, and every error has its exact condition. |
| QkvLayout.ChunkIs | verl_new/scripts/legacy_model_merger.py:549 | Cutting a part into its groups loses nothing, and the pieces have the stated sizes. |
| QkvLayout.MergeInvertsCut | verl_new/scripts/legacy_model_merger.py:545-562 | Cutting the interleaved rows over the ranks and merging separates q, k and v of all groups. |
| QkvLayout.SeparateInvertsView | verl_new/scripts/converter_hf_to_mcore.py:155-159 | Grouping q, k and v by key/value group loses nothing. |
| QkvLayout.InterleavedRows | verl_new/scripts/converter_hf_to_mcore.py:155-160 | Row by row: each group holds its query rows, then its key rows, then its value rows. |
| QkvLayout.TensorParallelRoundTrip | verl_new/scripts/converter_hf_to_mcore.py:155-160 | Interleave, cut over any tensor-parallel size that divides the groups, and merge: the original q, k and v. |
| LayerMerge.MergeStateDicts | verl_new/verl/model_merger/megatron_model_merger.py:358-420 | The loops compute the merged dict, part by part, with the running offset. |
| LayerMerge.EveryLayerIsKept | verl_new/verl/model_merger/megatron_model_merger.py:366-418 | No layer overwrites another: every item is found under its renumbered key. |
| LayerMerge.EveryLayerHasAnOrigin | verl_new/scripts/legacy_model_merger.py:617-661 | Every layer of the merged dict comes from some part at that part's offset. |
| LayerMerge.OtherKeysAreKept | verl_new/scripts/legacy_model_merger.py:617-661 | A name without a layer number keeps its name and has the value of the last part that has it. |
| LayerMerge.OtherKeysHaveAnOrigin | verl_new/scripts/legacy_model_merger.py:617-661 | A name without a layer number is in the merged dict only if some part has it. |
| LayerMerge.RenumberingIsExactIff | verl_new/scripts/legacy_model_merger.py:617-661 | The merged dict has exactly the global layers start..start+total-1 if and only if every empty part comes last. |
| LayerMerge.HasGlobalLayerIffHit | verl_new/scripts/legacy_model_merger.py:617-661 | A global layer is in the merged dict if and only if it is some part's local layer plus that part's offset. |
| LayerMerge.RanksTileTheModel | verl_new/verl/model_merger/megatron_model_merger.py:361-363 | Every layer number of the model lies in exactly one rank's shard. |
| LayerMerge.ArraySplitPartitions | verl_new/verl/model_merger/megatron_model_merger.py:438 | Splitting the keys loses and repeats nothing. |
| LayerMerge.ArraySplitSizes | verl_new/verl/model_merger/megatron_model_merger.py:440 | The keys are spread evenly: the first chunks have one more. |
| LayerMerge.SaveAll | verl_new/verl/model_merger/megatron_model_merger.py:436-457 | A rank's files together hold its keys in order, spread evenly, and the index names for every key a file that holds it. |
| LayerMerge.LayersAreSharedOutIff | verl_new/verl/model_merger/megatron_model_merger.py:359-418 | Every layer of the model is in exactly one rank's merged dict if and only if on no rank an empty part is followed by one with layers. |
| LayerMerge.OneFilePerKey | verl_new/verl/model_merger/megatron_model_merger.py:446-457 | A key of a rank is in at most one of its files. |
| LayerMerge.KeyIsInOneFileIff | verl_new/verl/model_merger/megatron_model_merger.py:446-465 | Of all files of all ranks, a key is in exactly one if and only if exactly one rank has it; the gathered index names a file that holds it. |
| LayerMerge.LayersAreSavedOnce | verl_new/verl/model_merger/megatron_model_merger.py:359-465 | From the parts to the files: every layer item of every rank's merged dict is in exactly one file and is indexed there. |
| LayerMerge.EveryFileIsWrittenOnce | verl_new/verl/model_merger/megatron_model_merger.py:432-451 | Across the ranks every save index below saves_total belongs to exactly one rank. |
| TeacherAlign.DedupConsecutive | CLightMLLM_new/src/method/vllm_teacher.py:262-281 | The loop selects the kept indices and their tokens. |
| TeacherAlign.KeptAreRunHeads | CLightMLLM_new/src/method/vllm_teacher.py:273-281 | The kept indices are strictly increasing and are those of the first token of every placeholder run and of every other token. |
| TeacherAlign.ScatterResponse | CLightMLLM_new/src/method/vllm_teacher.py:547-560 | The last rows go to the response positions one by one, nothing else changes, too few rows are an error. |
| TeacherAlign.ScatterSpan | CLightMLLM_new/src/method/vllm_teacher.py:561-577 | Which row goes to which position on the two branches, what stays untouched, and when the lengths are an error. |
| SpanAlign.ScoreSpan | CLightMLLM_new/src/method/vllm_teacher.py:505-577 | Scoring a row without a response mask: only the active span is sent and given rows, and if every run of placeholders fits, every kept token but the first has its own score, given the engine's tokens before it, at the position that predicts it. |
| SpanAlign.OnTargetIffRunsFit | CLightMLLM_new/src/method/vllm_teacher.py:565-569 | Every kept token that is not a placeholder is where the code takes it to be if and only if every run of placeholders before another token has the length allowed for it. |
| SpanAlign.SpanIsRightIff | CLightMLLM_new/src/method/vllm_teacher.py:561-569 | For the rows as the code lays them, own scores at the predicting positions if and only if the runs fit. |
| SpanAlign.RightOverSpanIff | CLightMLLM_new/src/method/vllm_teacher.py:561-564 | On the first branch, with collapsed runs: if and only if each one before another token re-expands to its own length. |
| SpanAlign.RightOverKeptIff | CLightMLLM_new/src/method/vllm_teacher.py:565-569 | On the second branch: if and only if each placeholder before another token is one token of the engine. |
| SpanAlign.LengthsCanCoincide | CLightMLLM_new/src/method/vllm_teacher.py:541-561 | Tokens on which the lengths agree and the runs do not, so a token's position is given another token's score. |
| TeacherAlign.AlignedIffNoHole | CLightMLLM_new/src/method/vllm_teacher.py:547-560 | Every response position gets its own row if and only if the mask has no hole. |
| TeacherAlign.CompletionHasNoHoleIff | CLightMLLM_new/src/method/rollout.py:275-288 | The mask has no hole if and only if padding between two tokens comes with an end-of-sequence token before the second. |
| TeacherAlign.RightPaddedHasNoHole | CLightMLLM_new/src/method/vllm_student.py:561-576 | A right-padded completion with no padding before its first end-of-sequence token, be they the same token, has a mask without a hole. |
| TeacherAlign.ShiftedPositions | CLightMLLM_new/src/method/rollout.py:330-342 | The shifted mask marks exactly the positions that predict the completion's tokens; without a prompt it is the mask cut to the width. |
| TeacherAlign.SuffixSurvives | CLightMLLM_new/src/method/vllm_teacher.py:507-514 | Counted from the end, the engine's tokens are the sent ones however placeholders are expanded. |
| TeacherAlign.ResponseRowsPredictTheirTokens | CLightMLLM_new/src/method/vllm_teacher.py:505-560 | The last rows score exactly the tokens that the response positions predict, however prompt placeholders were collapsed and re-expanded; there are enough rows if and only if something sent before the response does not expand to nothing. |
| TeacherAlign.ActivePromptIsEnough | CLightMLLM_new/src/method/vllm_teacher.py:547-553 | There are enough rows if the prompt has an active token that is not a placeholder. |
| TeacherAlign.ShiftedOrNot | CLightMLLM_new/src/method/opd.py:270-285 | The shifted mask that the loss passes and the completion's own mask put the response at the same positions. |
| TeacherAlign.ScoreRow | CLightMLLM_new/src/method/vllm_teacher.py:468-560 | For any response mask: if it marks the positions that predict a plain response, after scoring each of them holds the score of the token it predicts, given engine tokens of the active span only, and every other its fill value; or the error, which is exactly a mask too wide or too few rows. |
| TeacherAlign.SpanIff | CLightMLLM_new/src/method/vllm_teacher.py:339-344 | The active span runs from the first active position to behind the last, and behind the row if there is none. |
| TeacherAlign.EngineOfSpan | CLightMLLM_new/src/method/vllm_teacher.py:505-509 | What is left or right of the span is never sent. |
| TeacherAlign.CompletionMaskIs | CLightMLLM_new/src/method/rollout.py:275-288 | The mask keeps what is not padding up to and including the first end-of-sequence token. |
| TeacherAlign.SampleIsPlain | CLightMLLM_new/src/method/vllm_student.py:561-576 | Sampled text without padding before its end and without placeholders is a plain response at the front of the completion, which ends where the text does. |
| TeacherAlign.ScoreRollout | CLightMLLM_new/src/method/opd.py:262-285 | From sampled tokens to scores, through padding, masking, shifting and scoring: the k-th sampled token has its own score at the position before it, given the prompt without its left padding and the sampled tokens. |
| SftBudget.BudgetIsUsed | CLightMLLM_new/src/data/module.py:464-474 | A turn gets exactly min(cutoff, source+target) tokens. |
| SftBudget.ShareIs | CLightMLLM_new/src/data/module.py:464-474 | How a turn that does not fit is shared out: a target, else a source, of less than half the budget is kept whole, and else the target gets its proportional share. |
| SftBudget.EncodeSftExample | CLightMLLM_new/src/data/module.py:485-506 | The loop computes the ids and labels that the budget lemmas are about. |
| SftBudget.ExampleLength | CLightMLLM_new/src/data/module.py:485-506 | The whole example has min(cutoff, base+needed) tokens, closing token included. |
| SftBudget.OneTurnIsShortened | CLightMLLM_new/src/data/module.py:487-499 | Turns are kept whole up to one that gets what is left, and after it there is nothing. |
| SftBudget.LabelsMatch | CLightMLLM_new/src/data/module.py:500-501 | Position by position a label is the token or the ignore index. |
| SftBudget.TurnIsLabelled | CLightMLLM_new/src/data/module.py:492-501 | Every kept turn lies where the needs of the turns before it end, its source ignored and its target labelled with its own tokens. |
| BatchAlgebra.PadToDivisor | verl_new/verl/protocol.py:85-99 | The smallest padding to a multiple of the divisor; padded row i is row i mod n. |
| BatchAlgebra.PadRows | verl_new/verl/protocol.py:87-93 | The padding loop ends, and continues the rows from their start as often as needed. |
| BatchAlgebra.Distribute | verl_new/verl/protocol.py:85-106 | Pad, chunk, apply a row-wise function on every worker, concatenate and unpad equals applying it to the rows. |
| BatchAlgebra.ChunkIs | verl_new/verl/protocol.py:873-903 | An error exactly if the rows do not divide; and else equal chunks that are the rows in order. |
| BatchAlgebra.FuturesCoverTheWhole | verl_new/verl/protocol.py:1197-1228 | The futures that chunk makes concatenate back to the collected whole. |
| MoeExperts.PopExperts | verl_new/scripts/veomni/moe_merge.py:97-98 | The loop pops the experts of one projection in order, or fails on a missing one. |
| MoeExperts.MergeExperts | verl_new/scripts/veomni/moe_merge.py:95-110 | In every layer from the first the experts of a projection are gone and their stack has the j-th expert as its j-th entry, everything else kept; it fails if and only if an expert is missing or there is none to stack. |
| MoeExperts.SpreadExperts | verl_new/scripts/veomni/moe_split.py:81-83 | The inner loop puts every entry of a stack under its expert key, or fails on a stack that is too short. |
| MoeExperts.SplitExperts | verl_new/scripts/veomni/moe_split.py:75-83 | Every stack of a layer is gone and its j-th entry is the j-th expert, everything else kept; it fails if and only if a stack is too short. |
| MoeExperts.SplitInvertsMergeIff | verl_new/scripts/veomni/moe_split.py:75-83 | Splitting what was merged is the original if and only if that had no stacked key in a layer. |
| MoeExperts.MergeInvertsSplitIff | verl_new/scripts/veomni/moe_merge.py:95-110 | Merging what was split is the original if and only if its layers were fully stacked. |
| MoeExperts.SplitOfMergedSucceeds | verl_new/scripts/veomni/moe_split.py:78-83 | A merged dict without stacked keys of its own can be split. |
| MoeExperts.MergeOfSplitSucceeds | verl_new/scripts/veomni/moe_merge.py:95-110 | A fully stacked dict can be split, and what comes out merged. |
| MoeExperts.MergeThenSplit | verl_new/scripts/veomni/moe_merge.py:95-110 | Merging and then splitting succeeds with the original if and only if it can be merged and has no stacked key in a layer. |
| MoeExperts.SplitThenMerge | verl_new/scripts/veomni/moe_split.py:75-83 | Splitting and then merging succeeds with the original if and only if it is fully stacked. |

## Left out

- The Mooncake, HCCL and Kimi engines.
- ZeroMQ, NIXL, NCCL, CUDA IPC, shared memory and Ray: queues are FIFO and lose nothing, and transfers do not fail. In the broadcast a receiver may lag behind the sender further than a collective lets it, which covers more runs.
- Rebinding of the remote name while notifications are read: a link has one queue of acknowledgements, since only the successor notifies a rank.
- Dtype alignment of buffer views, and how a tensor's bytes change when it is cast: any conversion is allowed.
- Bytes of a merge buffer that no chunk has written, which the program leaves unspecified: they are zero.
- A bucket size of zero, with which the splitting loop does not end.
- Parameter-name rewriting, and the tensors other than attention weights in the mergers: gate/up pairs, embeddings, norms, routers, skipped extra state and tied embeddings.
- QkvLayout.SplitTensors: tensors with no rows, where torch returns empty chunks in a number of its own.
- The order in which pipeline ranks and virtual stages are listed: the parts come as one list.
- The rest of the HF-to-Megatron converter: other layers, devices, counting of elements.
- BucketedTransfer.LargestItem: only for lists and tuples; for another iterable the program skips the check.
- Sockets, timeouts, clean-up, ping and shutdown requests, and the session id, which is taken to be fresh.
- Errors of the engine's own parameter loader, and the cast to a buffer's dtype when it is copied.
- Generation itself: sampled sequences stand for the weights they are sampled with, and a generation that raises is not modelled.
- In the hot sync a weight is written in one step and an entry read in one step; finer steps are not modelled.
- SftBudget.BudgetIsUsed: the quotient is a floating-point one in the program and rounded down exactly here.
- TeacherAlign.ShiftMask: the mask has the width of the completion, which its callers guarantee.
- The loop over the rows of a batch and the extraction of top-k rows in the teacher; multi-modal inputs beyond placeholder tokens.
- DataProto metadata and metrics, automatic padding, repeat, split and unfold; tensor and non-tensor columns are one sequence of rows.
- Shapes of expert tensors: stacking tensors of different shapes is an error in the program.
