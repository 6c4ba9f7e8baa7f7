# Verified model of the network intrusion detection system

A Dafny model of the parts of the system that carry state or an algorithm, with proofs of what they keep. Every
file is one module named after the component it models. `dafny verify dfyconfig.toml` checks the whole project.

How the model is written: code that changes fields becomes a class whose methods are proved against a
specification; the specification is a function of the history (all samples, packets, events or requests so far),
usually a definition simpler than the code, and what the system promises is proved about that function over all
histories. Tasks and threads that interleave are state machines whose steps are the lock sections or the stretches
between two awaits, and their properties hold for every order of steps.

- **Rank AUC** (`StableSort`, `RankAuc`): the rank formula with tie groups equals the pairwise definition.
- **Offline and online scoring** (`HostWindows`, `LiveScoring`, `HoldOut`, `Deque`, `PyDict`): the batch scorer, the
  training sequences and the live ring buffers see the same windows. Scaler, forest and autoencoder are arbitrary
  functions.
- **Threshold gate** (`ThresholdGate`): drift of accepted thresholds and length of reject runs.
- **Log rules** (`SlidingWindow`, `LogRules`): bounded deques, cooldowns and eviction against a plain count over the
  full event history.
- **Flows** (`FlowRecords`, `FlowTable`, `MinHeap`): periods and bulks as cuts of the packet trace; a lazily maintained
  expiry heap as an index over the flow table.
- **TLS fingerprints** (`ClientHello`, `HelloEncoding`, `Ja3String`): an encoder that the parser undoes; an injective
  printer and the recogniser that accepts all it prints.
- **Baseline collector** (`Collector`): observers, firing thread and trainer at lock granularity.
- **Guardian** (`MitigationRows`, `Backends`, `GuardianProtocol`, `GuardianLoop`, `GuardianBreaker`, `GuardianBlocks`,
  `GuardianExpiry`, `GuardianProjection`): alert loop, expiry and confirm/undo interleaved, from every start; what they
  do to the list of blocked clients; how the two views fit together.
- **Evidence of flows** (`Evidence`, `Attribution`, `Dispatcher`): matches and fingerprints under an LRU bound; packet
  workers, flow table and flusher interleaved at their locks, and whose evidence a reported flow is handed.
- **Smaller machines** (`Assets`, `Ensemble`, `RateLimit`): asset profiles merged from drained counters, redistribution
  of ensemble weights, a sliding-window rate limiter.

`Wrappers`, `Sets` and `PyDict` hold the shared vocabulary.

Where the code does less than its documentation says, the model follows the code and gives the exact condition:

- `row_scores` says it scores "exactly as" the live engine. It does, whatever the models, exactly for the rows whose
  host, if it has had enough rows for a window, has had them since its ring buffer was last created
  (`LiveScoring.OfflineEqualsLiveIff`), which is every row when no host returns after an eviction
  (`LiveScoring.NoReturnsRefilled`). Training sequences are the buffers held live under the same condition
  (`LiveScoring.TrainingSequencesAreHeldBuffersIff`).
- A rule fires as its threshold says only up to 10 000 hits in the window (`SlidingWindow.PlainCountIffThresholdFits`),
  and eviction forgets a running cooldown that is longer than the window (`SlidingWindow.DropInvisibleIffCooldownFits`).
  A full rule also forgets live slots; such a slot alerts too little until it has caught up (`LogRules.AgreesAgain`).
- Flow expiry needs packets in time order (`FlowTable.FlowExtractor.CollectExpired`,
  `FlowTable.OutOfOrderFlowIsMissed`).
- A match in one flow "can't be attributed to another flow". It waits under the flow's key, though, and the next flow
  of that key is handed it if its own flow was never reported: evicted from the full table, or of fewer than two packets
  (`Dispatcher.ShortFlowIsHandedOn`). That is the only way as long as no worker is about to store evidence of a key
  while a flow of it waits for its pop (`Attribution.NextHandOverIsOwnIff`, `Attribution.NextMatchesAreOwnIff`). Table
  and dictionaries have separate locks, so a packet between the collection and the pop, or a worker that is late, fails
  in two more ways (`Attribution.EarlyPacketIsHandedOver`, `Attribution.LateStoreIsLeft`).
- A critical rule "must always alert", but the override comes after the early return for a total weight of 0. It does
  alert exactly when the engines with a score have weight (`Ensemble.CriticalRuleAlertsIff`,
  `Ensemble.OpinionIffWeight`). The caller always scores the rules together with the triggered rules, so it fails when
  every scored engine, the rules among them, has weight 0 by the base weights or an attack-type override
  (`Ensemble.CriticalRuleIsSilenced`).
- "Confirmed - stays blocked" holds only until the next action on that client
  (`GuardianBlocks.ConfirmedIsUnblockedByNextAction`), and the row stays confirmed exactly when the expiry task had not
  selected it before (`GuardianProtocol.ConfirmationIsFinalIff`).
- A pending action's client is blocked at every moment exactly when each release is harmless at its moment
  (`GuardianBlocks.AlwaysPendingBlockedIff`); the loops do not check that
  (`GuardianProjection.StaleExpiryUnblocksPending`).
- A client the Guardian blocked has a pending or confirmed action, but not while the loop awaits the row of its call,
  nor when it failed right there (`GuardianProjection.BlockedIsAccountedFor`,
  `GuardianProjection.FailedLoopLeavesBlock`).
- Ending all actions restores the list exactly when none of them was on a client of it
  (`GuardianBlocks.ReleasedListIsRestoredIff`).
- The circuit breaker is asked once per batch, so it bounds the actions before a batch, not those of the batch
  (`GuardianBreaker.BreakerBound`, tight by `GuardianBreaker.BoundIsReached`); it bounds all of them when no batch has
  two eligible alerts (`GuardianBreaker.SingleAlertsKeepMaximum`), and over all runs only in configurations that hardly
  act (`GuardianBreaker.MaximumBoundsEveryWindowIff`).
- The collector's drop counter may be positive while no training runs: exactly when a drop came after the last report
  (`Collector.DropCounterExact`).
- Asset counters add up exactly when no table refused the host a place (`Assets.CountsConservedIff`).
- Cleaning up the rate limiter's table changes no answer exactly when the prune window is no shorter than the limiter's,
  apart from limiters that answer all requests alike (`RateLimit.PruningIsInvisibleIff`).

Python dictionaries are maps with their insertion order, a bounded deque is a sequence, floating-point numbers are
reals. Clocks, network calls and library calls are parameters: a time, a success flag or an arbitrary function.

## Model

| member | source | states |
|---|---|---|
| StableSort.ArgSort | src/unsupervised/evaluation.py:36-38 | the stable argsort lists every index exactly once, by value and, for equal values, by position |
| StableSort.StableOrderUnique | src/unsupervised/evaluation.py:36 | only one order is stable, so the insertion sort of the model and the merge sort of the program return the same one |
| StableSort.SortedProperties | src/unsupervised/window_trainer.py:75 | the sorted list is an ordered permutation of its input |
| RankAuc.Auc | src/unsupervised/evaluation.py:30-48 | the tie-group loop that writes mean ranks into an array computes the pairwise definition: pairs won by the positive plus half the tied pairs, over all pairs; none exactly when a class is empty |
| RankAuc.TieGroupRank | src/unsupervised/evaluation.py:39-46 | a tie group scores the number of values below it plus half its own size |
| RankAuc.MeanRank | src/unsupervised/evaluation.py:45 | for positions i..j that hold a whole tie group, (i + j)/2 + 1 is that score plus one half |
| RankAuc.RankFormula | src/unsupervised/evaluation.py:47-48 | the rank sum of the positives, less their ranks among themselves, over the number of pairs is the pairwise AUC |
| RankAuc.PairScoreMirror | src/unsupervised/evaluation.py:30-48 | the scores of a class pair and of the swapped pair sum to the number of pairs |
| RankAuc.AucSwap | src/unsupervised/evaluation.py:30-48 | swapping positives and negatives gives one minus the AUC |
| RankAuc.AucPerfectIffSeparated | src/unsupervised/evaluation.py:30-48 | the AUC lies in [0, 1] and is 1 exactly when every positive scores above every negative |
| HoldOut.SplitIsChronological | src/unsupervised/window_trainer.py:132-135 | in the one order by time that keeps ties in arrival order, the training side is the rows before the cut and the validation side those from it on |
| HoldOut.TrainsOnThePast | src/unsupervised/window_trainer.py:128-135 | no timestamp that trains is later than one that validates, and none is lost |
| HoldOut.EachRowOnOneSide | src/unsupervised/window_trainer.py:132-134 | every row is on exactly one side of the cut |
| HoldOut.ValidationShare | src/unsupervised/window_trainer.py:133 | for a fraction in [0, 1] the validation side holds that share of the rows, rounded up |
| HoldOut.ShareOutsideUnit | src/unsupervised/window_trainer.py:133-134 | a negative fraction trains on everything; above 1 the cut counts from the end once the overshoot reaches a row |
| HoldOut.HoldOutRows | src/unsupervised/evaluation.py:160-163 | the hold-out cut of the evaluation is the validation side of the trainer's split |
| HostWindows.GroupByHost | src/unsupervised/evaluation.py:108-110 | one pass groups the row positions per host, keys in order of first appearance |
| HostWindows.ToHostSequences | src/unsupervised/window_trainer.py:98-120 | the loop over the groups returns the windows of each host's own rows, hosts in order of first appearance |
| HostWindows.WindowsAppend | src/unsupervised/window_trainer.py:81-95 | one more row adds exactly one window, its newest rows, once there are enough of them, and changes none of the earlier windows |
| HostWindows.TrainingSequencesAreLiveBuffers | src/unsupervised/window_trainer.py:98-120 | for every interleaving of hosts the training sequences are, as a multiset, the newest rows of each host after each of its samples with enough of them |
| LiveScoring.TrainingSequencesAreHeldBuffersIff | src/unsupervised/window_trainer.py:98-120 | every full buffer that the live engine holds over the stream is a training sequence, each as often as it occurs, and none is missing exactly when every row whose host has had enough rows for a window finds them all pushed since its buffer was last created |
| HostWindows.SequenceCount | src/unsupervised/window_trainer.py:110-117 | a host with n rows contributes max(0, n - len + 1) sequences |
| HostWindows.OwnRowsUpTo | src/unsupervised/evaluation.py:96-98 | cutting the stream right after the k-th row of a host cuts that host's rows after k + 1 of them |
| LiveScoring.BaselineEngine.Update | src/engines/baseline_engine.py:202-209 | the buffers are those of replaying every sample since the start: evict when a new host finds the table full, then append; which host leaves, written out: the first of the shortest buffers, and every other buffer stays; the host's own buffer holds its newest rows |
| LiveScoring.BaselineEngine.AnomalyScore | src/engines/baseline_engine.py:211-257 | no score without models; else the larger of the point score and the temporal score, clipped to [0, 1]; the temporal score of a full buffer is the error's share of error plus threshold, and 0 for any other |
| LiveScoring.BaselineEngine.Swap | src/engines/baseline_engine.py:170-177 | a reload replaces the models and leaves all buffers as they are |
| LiveScoring.BuffersBounded | src/engines/baseline_engine.py:202-209 | over every run the number of buffers and each buffer's length stay within bounds, and the newest host has a buffer |
| LiveScoring.RowScores | src/unsupervised/evaluation.py:93-133 | the batch scorer fills each row's flag, temporal score and score in place, host by host and batch by batch: the score is the larger of point score and temporal score, clipped to [0, 1], and the temporal score of a flagged row is its window's share of error in error plus threshold |
| LiveScoring.LargerClippedGrows | src/engines/baseline_scoring.py:36-38 | there is one such score, it never falls when either part rises, and it is the larger part when that lies in [0, 1] |
| LiveScoring.RelativeErrorShape | src/engines/baseline_scoring.py:22-33 | the temporal score lies in [0, 1), is 1/2 exactly at the threshold, 0 exactly without error, and rises strictly with the error |
| LiveScoring.ScoreHost | src/unsupervised/evaluation.py:115-126 | one turn of the host loop gives that host's rows their final values and touches no other row |
| LiveScoring.SequenceErrors | src/unsupervised/evaluation.py:120-123 | the batch loop computes the error of every sequence, whatever the batch size |
| LiveScoring.WindowOfRow | src/unsupervised/evaluation.py:124-126 | row k of a host is valid exactly from its len-th row on, and its window is the live buffer at that moment |
| LiveScoring.BufferHoldsSince | src/engines/baseline_engine.py:202-209 | over every stream a live buffer holds the newest of its host's rows, as many as there are since it was last created or as it can hold |
| LiveScoring.OfflineEqualsLiveIff | src/unsupervised/evaluation.py:93-99 | whatever the models, the batch score of row i is what the live engine returns right after its i-th update exactly when the row's host, if it has had enough rows for a window, has had them since its buffer was last created |
| LiveScoring.OfflineEqualsLiveThroughoutIff | src/unsupervised/evaluation.py:93-99 | both scorers agree on all rows of a stream under all models exactly when that holds of every row |
| LiveScoring.StayingHostIsRefilled | src/unsupervised/evaluation.py:93-99 | it holds of every row of a host that never came back after an eviction, whatever happens to other hosts |
| LiveScoring.NoReturnsRefilled | src/unsupervised/evaluation.py:93-99 | it holds of all rows if no host comes back after an eviction |
| LiveScoring.ReturnsMayAgree | src/engines/baseline_engine.py:242-246 | a stream on which a host does come back and it holds all the same |
| LiveScoring.EvictionBreaksAgreement | src/engines/baseline_engine.py:205-208 | a stream of three samples and models for which the live score of the last row is 0 and its batch score 1/2 |
| LiveScoring.FewHostsNeverReturn | src/engines/baseline_engine.py:205-208 | when the distinct hosts fit, nothing is ever evicted, and the buffers are keyed in order of first appearance |
| ThresholdGate.WindowTrainer.AcceptThreshold | src/unsupervised/window_trainer.py:319-341 | the new state is that of the gate run on all thresholds offered so far; a rejection happens exactly when the threshold is off by more than the ratio from a positive middle of the reference values in order, and the reject budget is not used up; what the reference and the counter become |
| ThresholdGate.MedianIsMiddle | src/unsupervised/window_trainer.py:75 | the median is the middle entry, or the mean of the two middle ones, of any ordered list of the values |
| ThresholdGate.RunShape | src/unsupervised/window_trainer.py:319-341 | in every run the reference is the newest thresholds of the current epoch and the counter counts the rejections since the last acceptance |
| ThresholdGate.EpochDriftBound | src/unsupervised/window_trainer.py:66-78 | with positive thresholds the k-th acceptance after an epoch's first one, t0, lies in [t0 / r^k, t0 r^k] |
| ThresholdGate.StableStep | src/unsupervised/window_trainer.py:75-78 | a stable threshold is at most one more factor r away from t0 than every reference entry |
| ThresholdGate.MedianBetween | src/unsupervised/window_trainer.py:75 | the median lies between any bounds on the reference |
| ThresholdGate.NoLongRejectRun | src/unsupervised/window_trainer.py:323-338 | no run of calls, wherever it starts, has more rejections in a row than allowed |
| ThresholdGate.NothingStableBelowOne | src/unsupervised/window_trainer.py:66-78 | a ratio below one admits nothing once there is a positive reference |
| Deque.PushNewest | src/engines/baseline_engine.py:78 | a bounded deque fed one by one holds the newest entries |
| SlidingWindow.PopExpired | src/logwatch/engine.py:69-70 | the loop leaves exactly the hits at or after the window's start |
| SlidingWindow.SinceOfNewest | src/logwatch/engine.py:66-70 | in time order, bounding the deque and expiring it commute |
| SlidingWindow.DequeStep | src/logwatch/engine.py:68-70 | a deque that holds, of its window, what the history has there up to the cap holds the capped window after one more event |
| SlidingWindow.ObserveAgrees | src/logwatch/engine.py:68-83 | hit test and cooldown test give the decision of a plain count over the full history, and the slot agrees with its history again |
| SlidingWindow.StepKeeps | src/logwatch/engine.py:68-83 | however much of a slot was forgotten, after one more event its deque is not empty and holds the newest events of the full history |
| SlidingWindow.SlotAgreesIff | src/logwatch/engine.py:68-83 | a slot agrees with its history from now on exactly when its deque holds as many events as the history has in the window (or as it can) and its alert memory is right or no longer matters |
| SlidingWindow.SlotAgreesWithHistory | src/logwatch/engine.py:61-83 | over whole streams a slot that is never dropped holds the capped window and the time of its last alert, and alerts exactly as the plain count says, with the count min(exact count, cap) |
| SlidingWindow.PlainCountIffThresholdFits | src/logwatch/engine.py:11 | alerts follow the plain count on all streams exactly when the threshold is at most MAX_WINDOW_EVENTS |
| SlidingWindow.DropInvisibleIffCooldownFits | src/logwatch/engine.py:100-103 | dropping an expired slot, cooldown memory included, changes no later alert exactly when the cooldown is at most the window (or the rule can never fire) |
| SlidingWindow.DropVisible | src/logwatch/engine.py:102 | for every longer cooldown there is a stream on which the drop shows |
| LogRules.LogRuleEngine.Feed | src/logwatch/engine.py:46-59 | each rule the event applies to, and no other, takes one step, forgetting slots only when it is full; an alert names the rule, the event's address or user as the rule groups, and, if the slot agrees, the number of events of the whole trace that counted in the window; it is the one a plain count over all events ever fed owes if the slot of the event agrees with its history; every slot of every rule and key that agreed goes on agreeing exactly if it is still tracked or its history does not matter any more; with room for the event and cooldowns within the windows all of them do |
| LogRules.WindowSize | src/logwatch/engine.py:46-70 | the history of a slot has in any window as many entries as the trace has events there of the rule's service and conditions, not exempt, with that address or user |
| LogRules.SamplesAreLines | src/logwatch/engine.py:82 | the samples are the non-empty raw lines of the last three hits, in order |
| LogRules.LogRuleEngine.Observe | src/logwatch/engine.py:61-83 | one slot takes one step; the rule keeps its slots, or when it is full and the slot is new exactly its newest live ones beside it; other rules keep theirs; the alert carries the window's count, first time and samples |
| LogRules.LogRuleEngine.EvictIfFull | src/logwatch/engine.py:85-98 | when the rule is full, exactly its newest live slots remain, below the cap; otherwise nothing changes |
| LogRules.LogRuleEngine.DropExpired | src/logwatch/engine.py:89-93 | the first pass removes exactly the slots without an event in the window |
| LogRules.LogRuleEngine.DropOldest | src/logwatch/engine.py:94-98 | the second pass removes the oldest surviving slots until one place is free |
| LogRules.LogRuleEngine.Drop | src/logwatch/engine.py:100-103 | the slot, its cooldown memory and its place in the per-rule counter go, nothing else |
| LogRules.FedAgrees | src/logwatch/engine.py:61-103 | one event, one rule and key: the slot of the event keeps its agreement; another tracked slot agrees exactly if it did; a slot that is not tracked, or no longer, agrees exactly if its history has nothing in the window and no running cooldown |
| LogRules.RoomForgetsNothing | src/logwatch/engine.py:85-98 | with room for the event and a cooldown no longer than the window, no slot is forgotten whose history matters |
| LogRules.AgreesAgain | src/logwatch/engine.py:61-103 | whatever was forgotten before, a slot agrees again once its key has been silent for the window and the cooldown, and otherwise exactly when its deque has caught up with the window and the alert memories do not matter |
| LogRules.AgreesLater | src/logwatch/engine.py:61-70 | a slot that agrees at the last event agrees at the next |
| LogRules.RaisedIsOwed | src/logwatch/engine.py:71-83 | the alert a rule raises is the one the plain count owes, field by field, if the slot of the event agrees; a rule whose threshold is above the cap raises and is owed none |
| LogRules.OtherRuleSame | src/logwatch/engine.py:61-103 | observing and evicting for one rule leaves the slots of every other rule as they are, in their order |
| FlowRecords.FlowRecord.AddPacket | src/features/flow_extractor.py:137-187 | the record's lists and counters account for every packet of its trace |
| FlowRecords.FlowRecord.ClosePeriods | src/features/flow_extractor.py:276-282 | for positive times the reported active periods are the lasting runs between gaps, the idle periods the gaps |
| FlowRecords.FlowRecord.CloseBulks | src/features/flow_extractor.py:286-296 | for positive times the reported bulks of each direction are the bytes and packets of its runs of at least two packets |
| FlowRecords.RunsAreTheCutAtGaps | src/features/flow_extractor.py:147-154 | the runs are the only way to cut the trace exactly at its gaps above the limit: they concatenate to it, no gap within a run is above the limit and every gap between two runs is |
| FlowRecords.BulkAddTracks | src/features/flow_extractor.py:163-172 | the bulk counters track the runs of their direction packet by packet |
| FlowRecords.BulkFinishReportsRuns | src/features/flow_extractor.py:286-296 | closing reports exactly the runs of length at least two |
| FlowRecords.PeriodsSumToDuration | src/features/flow_extractor.py:142-156 | active, idle and open periods never cover less than the duration, and sum to it exactly when no run ends before it starts |
| FlowRecords.OrderedRunsGoForward | src/features/flow_extractor.py:142-156 | packets in time order never make such a run |
| FlowRecords.DirectionsPartition | src/features/flow_extractor.py:158-175 | every packet is counted in exactly one direction |
| FlowTable.FlowExtractor.ProcessPacket | src/features/flow_extractor.py:381-398 | a packet joins its own flow forward, else backward the flow whose source, destination and ports are its destination, source and ports, else a new one; the other flows keep their packets except one evicted when full; the table never holds a key and its distinct reverse nor more than the maximum; in time order the index stays in time |
| FlowTable.RequestAndReply | src/features/flow_extractor.py:381-398 | on any table a packet and its answer end in one flow, one in each direction, unless both endpoints are the same |
| FlowTable.FlowExtractor.EvictOldest | src/features/flow_extractor.py:447-455 | the first flow with the earliest start leaves, and compacting the heap loses no live entry |
| FlowTable.FlowExtractor.CollectExpired | src/features/flow_extractor.py:400-434 | removed are exactly the silent flows with a due entry, reported once each, with the table's gap, if they have two packets; that is what a plain scan removes exactly when every silent flow has a due entry, which tables fed in time order have |
| FlowTable.FlowExtractor.ExpireLoop | src/features/flow_extractor.py:408-418 | the loop with stale entries and re-pushes ends, and an empty heap then means an empty table, so the fallback scan of lines 420-427 finds nothing |
| FlowTable.FlowExtractor.PopDue | src/features/flow_extractor.py:409-418 | each turn leaves strictly fewer due entries, although it may push one |
| FlowTable.FlowExtractor.CollectAll | src/features/flow_extractor.py:436-445 | every flow leaves and is reported if long enough; the heap keeps only stale entries and stays a valid index |
| FlowTable.ScanRefresh | src/features/flow_extractor.py:414-417 | re-pushing an active flow under its last time keeps the scan's invariant |
| FlowTable.OutOfOrderFlowIsMissed | src/features/flow_extractor.py:156 | with a packet older than its predecessor a silent flow is not collected |
| MinHeap.RootIsLeast | src/features/flow_extractor.py:360-361 | the root of the heap is a least entry |
| MinHeap.CompactEntries | src/features/flow_extractor.py:454-455 | rebuilding keeps exactly the entries of the given keys, with their multiplicity |
| ClientHello.ParseClientHello | src/features/ja3.py:45-141 | the parser with its moving position is total, reads within bounds and returns the value of the parsing function |
| HelloEncoding.ParseUndoesEncode | src/features/ja3.py:45-141 | for every well-formed ClientHello, whatever follows its record, parsing its encoding returns its version and its lists without GREASE |
| HelloEncoding.GreaseIsInvisible | src/features/ja3.py:88-89 | inserting a GREASE cipher, extension or group anywhere never changes the result |
| ClientHello.GreasePattern | src/features/ja3.py:23-26 | the table is exactly the pattern of RFC 8701: two equal bytes ending in hexadecimal A |
| HelloEncoding.CipherScanDecodes | src/features/ja3.py:84-89 | the cipher loop reads back an encoded list without GREASE |
| HelloEncoding.GroupScanDecodes | src/features/ja3.py:119-125 | the group loop does the same for supported groups |
| HelloEncoding.ExtensionScanDecodes | src/features/ja3.py:103-133 | the extension loop reads back every encoded extension block |
| HelloEncoding.DeclaredLengthRules | src/features/ja3.py:103-124 | bytes of an extension after the declared length of its list of groups or formats are not read |
| HelloEncoding.ShortListIsRead | src/features/ja3.py:103-124 | a list that declares more bytes than its extension holds is read as far as it goes |
| HelloEncoding.TrailingBytesIgnored | src/features/ja3.py:54-55 | bytes after the first record never matter, whatever the record holds |
| HelloEncoding.SmallHellos | src/features/ja3.py:45-141 | two concrete well-formed hellos, one with a GREASE cipher, and their common result |
| Ja3String.PrintReads | src/features/ja3.py:157-163 | the five components can be read back from the printed string |
| Ja3String.PrintIsInjective | src/features/ja3.py:157-163 | different components give different JA3 strings |
| Ja3String.SameStringIffSameFields | src/features/ja3.py:144-166 | two well-formed hellos get the same JA3 string exactly when their fields agree up to GREASE |
| Ja3String.CanonicalIff | src/mcp_server/sanitize.py:70 | the pattern accepts exactly a number of one to five digits and four lists, each empty or such numbers with dashes between, with commas between the five |
| Ja3String.PrintIsCanonical | src/mcp_server/sanitize.py:70 | every printed string matches the canonical pattern |
| Ja3String.ScrubKeepsPrinted | src/mcp_server/sanitize.py:113-120 | the scrubber returns every printed string unchanged |
| Ja3String.StripTakesBlanks | src/mcp_server/sanitize.py:117 | stripping takes blanks off both ends and leaves none there |
| Ja3String.ScrubResultCanonicalIff | src/mcp_server/sanitize.py:113-120 | the result is canonical exactly when the stripped input was, and is then that input, and otherwise the tag and the scrubbed input: a tagged value is never mistaken for a JA3 string |
| Collector.BaselineCollector.Observe | src/unsupervised/collector.py:123-155 | the lock section with incremental counters takes the step of the machine that recounts the window from scratch; a window fires exactly when it has 500 000 samples, or enough samples, distinct sources, time and entropy |
| Collector.ProgressParts | src/unsupervised/collector.py:208-218 | each progress ratio is its own part of the trigger: 1 when that part is met, and otherwise current over required |
| Collector.BaselineCollector.AbortTraining | src/unsupervised/collector.py:164-168 | a failed hand-over clears the in-flight flag and retires the job |
| Collector.BaselineCollector.TakeDropped | src/unsupervised/collector.py:264-266 | the first of the trainer's last lock sections reports the drops so far and resets the counter |
| Collector.BaselineCollector.EndTraining | src/unsupervised/collector.py:271-272 | the second one clears the in-flight flag |
| Collector.RunSafe | src/unsupervised/collector.py:123-181 | under every interleaving: at most one training, in flight implies an empty live window, the buffer stays below HARD_CAP, and every fired window became due with its last sample and starts where the previous one ended |
| Collector.SamplesConserved | src/unsupervised/collector.py:250-272 | every sample observed is once in the buffer, in a fired window or among the drops, and the drops are the reported ones plus the counter |
| Collector.DropCounterExact | src/unsupervised/collector.py:123-126 | over every run the counter is the number of drops since the last report and the reports hold all drops before it; so it is positive, at rest too, exactly when a drop came after the last report |
| Collector.NextReportTakesAll | src/unsupervised/collector.py:263-270 | the next report takes exactly the drops left over and resets the counter |
| Collector.DropBetweenLastSections | src/unsupervised/collector.py:264-272 | a drop between report and end stays in the counter while nothing is in flight |
| Collector.DropBeforeAbort | src/unsupervised/collector.py:164-168 | so does a drop before a training that is aborted |
| Collector.CountNext | src/unsupervised/collector.py:128-130 | one increment keeps counter and set equal to a recount |
| Collector.FromWindow | src/unsupervised/provenance.py:23-58 | the recount loop returns the distinct sources, the port, hour and protocol counts and the entropy of the window |
| Collector.FullProgressIffTrigger | src/unsupervised/collector.py:208-218 | all progress ratios are full exactly when the composite trigger would fire |
| Backends.AdGuardBackend.Block | src/guardian/backends.py:48-55 | the list ends with the client if it was not on it, posts exactly then, and names the client afterwards |
| Backends.AdGuardBackend.Unblock | src/guardian/backends.py:57-64 | the first entry of the client goes; the client is released unless it was listed twice |
| Backends.CallKeepsOthers | src/guardian/backends.py:48-64 | a call touches no other client's entries nor their order |
| Backends.UnblockUndoesBlockIff | src/guardian/backends.py:48-64 | unblocking after blocking restores the list exactly when the client was not on it before |
| Backends.UnblockReleasesIff | src/guardian/backends.py:61-62 | one unblock releases the client exactly when the list names it at most once |
| Backends.OverlapIsSerialIff | src/guardian/backends.py:26-29 | two overlapping read-modify-write calls act like one after the other exactly when they do not both post a change (or are the same harmless call) |
| GuardianProtocol.RunIsSafe | src/guardian/engine.py:108-205 | from every start, stored rows included, and under every interleaving at the awaits: at most one pending action per client, ids of new actions strictly ascending and above all seen at the start, every new action's alert severe enough, from an allowed source and not whitelisted |
| GuardianProtocol.EligibleIff | src/guardian/engine.py:130-139 | the filters admit exactly the alerts with an address that is not whitelisted, from an allowed source, and of at least the configured severity, severity by severity |
| GuardianExpiry.NeverReleasedEarly | src/guardian/engine.py:180-205 | over every run: a row is written expired, or unblocked for expiry, only after the expiry task looked at a time later than the row's end, which for a new row is the block time after it was made |
| GuardianProtocol.OneActionPerAlert | src/guardian/engine.py:115-122 | each alert causes at most one action, no alert from before the start does, and no whitelisted client is acted on |
| GuardianProtocol.RunGrows | src/guardian/telegram_listener.py:97-120 | over every run rows are only appended, keep alert and creation time, and a resolved row never becomes pending again |
| GuardianProtocol.PausedBatchIsNotReplayed | src/guardian/engine.py:122-127 | alerts of a batch that found the breaker tripped never cause an action later |
| GuardianProtocol.OldAlertsNeverAct | src/guardian/engine.py:115-122 | only alerts above everything seen or still held can act later |
| GuardianBreaker.BreakerBound | src/guardian/engine.py:78-105 | in any interval of the window's length there are at most the maximum minus one actions besides those of the last batch acting in it, at most its eligible alerts |
| GuardianBreaker.LastActingBatch | src/guardian/engine.py:122-160 | an interval with any action has such a last batch |
| GuardianBreaker.BoundIsReached | src/guardian/engine.py:126-129 | the bound is tight: for every maximum and window, and any eligible alerts of different clients in two batches, one fewer than the maximum and then n, some run has maximum - 1 + n actions in one window |
| GuardianBreaker.SingleAlertsKeepMaximum | src/guardian/engine.py:126-129 | with at most one eligible alert per batch the maximum does bound the actions of every window |
| GuardianBreaker.MaximumBoundsEveryWindowIff | src/guardian/engine.py:78-105 | over configurations: from every start and in every run the maximum bounds the new actions of every window exactly when no action is allowed, the window is empty, or no alert is ever eligible |
| GuardianProtocol.ConfirmationIsFinalIff | src/guardian/telegram_listener.py:104-109 | in every reachable state a confirmed row stays confirmed on every continuation exactly when the expiry task does not have it in its hands |
| GuardianLoop.ConfirmationIsOverwritten | src/guardian/engine.py:187-203 | a run in which a confirmed action ends as expired, because the expiry task had selected it before |
| GuardianLoop.GuardianEngine.CircuitBreakerTripped | src/guardian/engine.py:78-105 | tripped exactly when the rows created since the window's start reach the maximum; notified once per pause |
| GuardianLoop.GuardianEngine.Pass | src/guardian/engine.py:115-160 | an uninterrupted pass is a run of the machine; every new row is a pending action made now, until the block time from now, for an alert of the batch that is severe enough and admitted, field by field; unless paused, every such alert whose call succeeds leaves its client with a pending action |
| GuardianBlocks.FreshRunsKeepPendingBlocked | src/guardian/engine.py:145-160 | if every step acts on a row that is still pending, every pending action's client is on the list, over whole runs |
| GuardianBlocks.ReleaseKeepsPendingBlockedIff | src/guardian/engine.py:194-201 | a release keeps "pending implies blocked" exactly when no other pending row names the client, or the list names it more than once |
| GuardianBlocks.AlwaysPendingBlockedIff | src/guardian/engine.py:194-201 | over whole runs, from any stored table: every pending action's client is on the list at every moment exactly when it is at the start and each release meets that condition at its moment |
| GuardianProjection.StaleExpiryUnblocksPending | src/guardian/engine.py:187-203 | a run of the three loops, for every maximum of at least 2, in which a stale expiry leaves a pending action unblocked: select, undo, act again, unblock |
| GuardianBlocks.BlockedMeansActive | src/guardian/engine.py:145-160 | over every run, stale steps included, a client blocked since the start has a pending or confirmed action |
| GuardianBlocks.ReleasedListIsRestoredIff | src/guardian/backends.py:48-64 | from every stored table, restarts included: when all actions are over, the list is the one found at the start, order included, exactly when no action on a client of that list ended; each client on which one did has fewer entries |
| GuardianBlocks.RestOfTheListIsKept | src/guardian/backends.py:48-64 | listed clients on which no action ended keep all their entries in order, over every run |
| GuardianBlocks.EverReleasedIffActedOn | src/guardian/engine.py:186-203 | for a client without old resolved rows, once all actions are over: an action on it ended exactly when it has a row, stored or new |
| GuardianProjection.ProtocolRunsProject | src/guardian/engine.py:108-205 | a run of the protocol in which calls and their row updates are not separated leaves the list and the rows of some run of the list model |
| GuardianProjection.ProtocolBlocksAreActive | src/guardian/engine.py:145-160 | in such a protocol run every client blocked since the start has a pending or confirmed action |
| GuardianProjection.BlockedIsAccountedFor | src/guardian/engine.py:145-205 | over every run of the protocol, with every task between a call and its row update at any time: a client blocked since the start has a pending or confirmed action, or the loop awaits the row of its call, or the loop failed right there and the client has been listed ever since |
| GuardianProjection.FailedLoopLeavesBlock | src/guardian/engine.py:145-160 | a run in which the loop fails between its call and the row: the client stays listed without a row, and the alert counts as seen |
| GuardianBlocks.ConfirmedStaysBlocked | src/guardian/telegram_listener.py:104-109 | a confirmed client stays blocked as long as the Guardian takes no new action on it |
| GuardianBlocks.StaysListedIff | src/guardian/telegram_listener.py:104-118 | over every run a client listed once stays listed at every moment exactly when no action on it ends |
| GuardianBlocks.ConfirmedIsUnblockedByNextAction | src/guardian/engine.py:68-75 | a new action on a confirmed client, once over, unblocks it while the old row stays confirmed |
| GuardianBlocks.UnblockedIffReleased | src/guardian/telegram_listener.py:110-118 | a client listed once leaves the list exactly by the release of an action on it |
| GuardianBlocks.Guardian.HasActiveAction | src/guardian/engine.py:68-75 | true exactly when some row of the client is pending |
| GuardianBlocks.Guardian.BlockClient | src/guardian/engine.py:140-160 | one row and one list entry, or nothing when the client has a pending action or the call fails |
| GuardianBlocks.Guardian.ExpirePass | src/guardian/engine.py:186-203 | an uninterrupted expiry pass expires exactly the pending rows with an expiry time before now whose call succeeds, and acts on no stale row |
| GuardianBlocks.Guardian.HandleCallback | src/guardian/telegram_listener.py:97-120 | which answer a callback gets, and the one transition each answer stands for |
| Evidence.EvidenceStore.AddMatches | src/capture/dispatcher.py:91-101 | only forward packets of a tracked flow add matches; the store stays the one given by its history, key by key |
| Evidence.EvidenceStore.AddFingerprint | src/capture/dispatcher.py:82-89 | the last fingerprint stored under a key wins |
| Evidence.EvidenceStore.HandOver | src/capture/dispatcher.py:108-118 | the matches handed over were stored under the same key since its last hand-over; below the LRU cap and with at most 20 of them they are exactly the union of those; the fingerprint is the last one stored under the key |
| Evidence.OrderAgrees | src/capture/dispatcher.py:94-101 | which flows the LRU dictionary holds, and in which order, as a function of the history: a flow stays exactly while fewer others than places got evidence after it |
| Evidence.SurvivesIff | src/capture/dispatcher.py:95-96 | an arrival pushes a flow out exactly when it then has as many rivals as there are places |
| Evidence.NobodyEvicted | src/capture/dispatcher.py:95-96 | with at most as many flows with evidence as places, none falls out |
| Evidence.NothingLostBelowCap | src/capture/dispatcher.py:97-101 | then a key's evidence is the union of the matches stored under it since it was last handed over |
| Evidence.NeverAnotherKeys | src/capture/dispatcher.py:91-101 | at any load the evidence of a key is a subset of the matches stored under it since its last hand-over |
| Attribution.HandedExactly | src/capture/dispatcher.py:52-55 | over every quiet run of the packet workers and the flusher, what is stored for a reported flow is exactly its own evidence and that of the flows of its key that ended unreported since the last hand-over |
| Attribution.NextHandOverIsOwnIff | src/capture/dispatcher.py:108-118 | in every state reached quietly: on every quiet continuation that leaves nothing more behind, the key's next hand-over gives exactly the reported flow's own evidence, if and only if no flow of the key that ended unreported since the last one had evidence |
| Attribution.NextMatchesAreOwn | src/capture/dispatcher.py:91-114 | the same for the sets of matches handed over, at any load and with any stores under way: no match but the reported flow's own on every such continuation, if the active flow of the key made every match that was left behind |
| Attribution.NextMatchesAreOwnIff | src/capture/dispatcher.py:91-114 | and only if, between two packets (no store under way), below the cap and while the key's matches fit their limit |
| Attribution.HandedPrint | src/capture/dispatcher.py:82-89 | the fingerprint handed over is the flow's own or one left behind; below the cap there is one exactly when one was stored |
| Attribution.AnyOrderGivesOwnIff | src/capture/dispatcher.py:108-114 | a reported flow gets exactly its own evidence in whatever order the workers go on storing if and only if that is what is stored and nothing of its key is under way |
| Attribution.ShortFlowLeavesEvidence | src/features/flow_extractor.py:229-233 | a run in which a flow of one packet times out unreported and leaves its evidence behind |
| Attribution.EvictedFlowLeavesEvidence | src/features/flow_extractor.py:391-393 | a run in which a full table evicts a flow that leaves its evidence behind |
| Attribution.EarlyPacketIsHandedOver | src/capture/dispatcher.py:109-114 | a run that is not quiet: a packet between the collection and the pop gives its evidence to the flow before its own |
| Attribution.LateStoreIsLeft | src/capture/dispatcher.py:91-101 | a run that is not quiet: evidence stored after the pop of its flow stays for the next one |
| Dispatcher.Dispatcher.Dispatch | src/capture/dispatcher.py:66-101 | one uninterrupted packet over the real table and stores takes the two steps of a worker, with the flow, the direction and the eviction that the table gives |
| Dispatcher.Dispatcher.FlushExpired | src/capture/dispatcher.py:108-120 | every expired flow of two packets is reported once, with the matches and the fingerprint that were its own or left behind under its key, all of them if they fit; nothing of its key stays behind |
| Dispatcher.Dispatcher.FlushAll | src/capture/dispatcher.py:122-134 | the same for every active flow |
| Dispatcher.ShortFlowIsHandedOn | src/capture/dispatcher.py:52-55 | through the real operations: a flow without a match is handed the match of an earlier flow of one packet with the same key |
| Evidence.HoldsNext | src/capture/dispatcher.py:97-100 | truncating each update to 20 keeps a list at min(20, all matches) of the key's matches |
| Assets.AssetTracker.Observe | src/inventory/assets.py:70-90 | the table is the one given by the flows since the last drain: counters, capped sets, and the first hosts up to the cap |
| Assets.TableBounded | src/inventory/assets.py:92-98 | the table never exceeds its maximum, holds only LAN hosts that were seen, and holds all of them exactly when they fit |
| Assets.AssetTracker.Drain | src/inventory/assets.py:100-105 | everything seen since the last drain is handed over and the table starts empty |
| Assets.ProfileStore.Flush | src/inventory/assets.py:112-133 | merging host by host leaves the table of profiles given by all flushed batches |
| Assets.Sorted | src/inventory/assets.py:107-109 | an ascending list of exactly the set's elements |
| Assets.SortedOrder | src/inventory/assets.py:107-109 | ports rise, and addresses come letter by letter in the order of their characters |
| Assets.TakeIsSmallest | src/inventory/assets.py:109 | the first elements of the sorted list are the ones of smallest rank |
| Assets.CapAbsorbs | src/inventory/assets.py:107-109 | capping before a merge loses nothing the merge would keep |
| Assets.MergeCapIsCapOfUnion | src/inventory/assets.py:107-109 | merging into a capped list gives the capped list of the union |
| Assets.KeptAllIff | src/inventory/assets.py:78-81 | a set that stops growing at its cap holds everything exactly when there are no more distinct values than the cap |
| Assets.FullSetForgets | src/inventory/assets.py:78-81 | a value first seen when the set is full is forgotten, however small |
| Assets.CountsCompleteIff | src/inventory/assets.py:92-98 | the stored counters of a host are complete exactly when no flushed batch refused it a place |
| Assets.EnoughRoom | src/inventory/assets.py:95-96 | a batch refuses no host exactly when its distinct LAN hosts fit |
| Assets.TableCountsIff | src/inventory/assets.py:92-98 | the counters in a table are at most what a host did since the drain, and all of it exactly when the host was not refused a place |
| Assets.CountsConservedIff | src/inventory/assets.py:100-127 | stored counters, those of a drained batch and those in memory add up to the observed flows exactly when no table, stored, drained or live, refused the host |
| Assets.StoredListIsSmallestEver | src/inventory/assets.py:128-130 | after the last flush a stored list holds the SET_CAP smallest values ever observed, if each batch fitted its caps |
| Assets.StoredListIsSmallestEverIff | src/inventory/assets.py:107-130 | whatever the batches: the stored list holds the SET_CAP smallest values ever observed exactly when none of those was forgotten by a full set or a full table |
| Ensemble.EnsembleScorer.Score | src/ensemble/scorer.py:83-147 | the engines used are those with a score, each with its weight, overridden for a non-benign attack type; the score is 1 for a critical rule, else their weighted mean clipped to [0, 1], plus 0.30 up to 1 for known malicious traffic; the rules appended |
| Ensemble.EnsembleScorer.BlendOf | src/ensemble/scorer.py:113-115 | the loop computes the blend with redistributed weights |
| Ensemble.WeightsRedistributed | src/ensemble/scorer.py:107-113 | redistributed weights sum to 1 and keep the ratios of the base weights |
| Ensemble.BlendBetween | src/ensemble/scorer.py:113-116 | the blend lies between the smallest and the largest available score |
| Ensemble.BlendMonotone | src/ensemble/scorer.py:113-116 | raising scores never lowers the blend |
| Ensemble.FinalScoreInRange | src/ensemble/scorer.py:116-137 | the score lies in [0, 1], not below the blend, and is the blend without boost and override |
| Ensemble.FinalScoreMonotone | src/ensemble/scorer.py:115-137 | raising scores never lowers the final score |
| Ensemble.CriticalRuleAlertsIff | src/ensemble/scorer.py:97-137 | a critical rule gives score 1 and an anomaly exactly when the engines that have a score have a total weight other than 0 |
| Ensemble.OpinionIffWeight | src/ensemble/scorer.py:107-111 | with weights that are not negative that is exactly when one engine with a score has a positive weight |
| Ensemble.WeightlessRulesAreNoOpinion | src/ensemble/scorer.py:97-111 | the rule engine alone, with weight 0 by the base weights or an override, is no opinion |
| Ensemble.CriticalRuleIsSilenced | src/ensemble/scorer.py:107-137 | a configuration and a flow on which a critical rule raises no alert: rules of base weight 0, no attack type, and no other engine with a score |
| Ensemble.ScoringTwiceAgrees | src/ensemble/scorer.py:121-137 | the rules appended by one scoring do not change the next |
| Ensemble.RemovalRaisesIff | scripts/pcap_replay.py:258-265 | leaving out an entry of positive weight raises (lowers) the blend exactly when its score is below (above) it |
| Ensemble.AblationShowsThePush | scripts/pcap_replay.py:258-265 | the same for switching an engine off in the scores |
| RateLimit.RateLimiter.Dispatch | src/api/rate_limit.py:29-49 | the answer is the table's; with a long enough prune window a request is accepted exactly when fewer than the maximum of the client's requests were accepted within the last window |
| RateLimit.RateLimiter.PruneInactive | src/api/rate_limit.py:52-60 | exactly the clients whose last request is before the prune window, or who have none, go, the others keep their rows, and the count of those gone is returned |
| RateLimit.AtMostRequestsPerWindow | src/api/rate_limit.py:33-47 | every half-open interval of the window's length contains at most the maximum of accepted requests per client |
| RateLimit.AcceptsByCount | src/api/rate_limit.py:33-47 | a request is accepted exactly when fewer than the maximum were accepted in (now - window, now] |
| RateLimit.TableFollowsRule | src/api/rate_limit.py:29-60 | over every run in time order, with clean-ups anywhere and a prune window no shorter than the limiter's, the table gives the answers of the rule on accepted requests |
| RateLimit.PruningIsInvisibleIff | src/api/rate_limit.py:52-60 | the table answers every run as it answers that run without its clean-ups exactly when the prune window is no shorter than the limiter's, or the limiter allows no request or has an empty window |
| RateLimit.ShortPruneShows | src/api/rate_limit.py:55-57 | for every shorter prune window there is a run on which a clean-up lets one request too many through |
| RateLimit.RequestAgrees | src/api/rate_limit.py:38-47 | a filtered row keeps agreeing with the client's accepted requests on every later window |

## Left out

- Rounding, NaN and infinities: all numbers are reals, and single precision is not modelled.
- Neural networks, scikit-learn models, MLflow, torch, capture, sockets, DNS, HTTP, databases, authentication, user
  interface: foreign code or thin layers; only the state changes around them appear.
- Shannon entropy, the sigmoid of the forest score and temperature scaling: arbitrary functions of counts and scores.
- Exceptions inside `anomaly_score` (lines 259-261 of `src/engines/baseline_engine.py`): the model functions are total.
- Rate, quantile, drift and summary figures of the evaluation: one-line statistics.
- Log rule matching (`rule.matches`) and network membership: arbitrary predicates; an absent address or user is the
  empty string, and the index of rules per service is a function of the rule list.
- Flow features other than periods and bulks (flags, header lengths, payload samples, length statistics): sums without
  structure.
- The order of equal entries in `heapq`: the heap of the model is another one with the same multiset of entries.
- TLS: a ClientHello in one record; a hello that spans several records is not encoded. The record version is not
  checked by the program, and neither by the model.
- `\d` in the JA3 pattern is modelled as the ten ASCII digits, and `strip` as removing ASCII blanks, tabs and line ends.
- Ja3String.ScrubJa3: the free-text scrubber it calls is an arbitrary function on strings.
- MD5 of the JA3 string and the list of known-malicious hashes: a library function and a lookup.
- The 20 most frequent ports of provenance and snapshot, and their time strings: formatting of the counts proved right.
- The optional dump of a training window: a file that nothing reads back.
- GuardianProtocol: backend calls only succeed or fail there; what they do to the list is in GuardianBlocks, where a
  call and its row update are one step. GuardianProjection relates the two for runs that do not separate a call from
  its row update, and for all runs states what accounts for a blocked client. A call whose reply is lost after it took
  effect is not modelled.
- Callback authorisation, message parsing and the listener's offset: single conditions on configuration.
- Changes to the disallowed list by other programs.
- Evidence.EvidenceStore.AddMatches: which 20 matches stay of a longer list is unspecified, as in the program.
- Dispatcher.Dispatcher.Dispatch: taken without interruption, like the two flushes; their lock sections interleave in
  Attribution, one dictionary at a time.
- `flush_all` at shutdown while the flusher still hands over what it collected before.
- The order of a worker's two store sections against another worker's: fingerprints of one flow may be stored in another
  order than they came.
- First and last times, classification and address classes of the asset inventory: single comparisons.
- A failing flush of the asset inventory: the drained batch is then lost, and the conservation stated ends before.
- Retry-After header and response body of the rate limiter.
