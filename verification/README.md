# gNode daemon: delivery, dispatch, topology codes and signing text

A Dafny 4.11 model of the parts of the gNode daemon whose correctness is not visible in any one function: the
consumer-group delivery protocol, command dispatch and NOGROUP recovery, the layer code with its schema compiler and
encoder, the canonical signing text of extensions, and the derivation pass and the schedulers. `dafny verify dfyconfig.toml`
checks everything.

## How it is laid out

* `GroupServer`, `Delivery`: one stream group as a state machine. Every server command is a step of its own (XREADGROUP,
  XACK, XPENDING, each XRANGE, XCLAIM, XINFO, DELCONSUMER), so any other node's steps fall between any two of them. A node
  may crash anywhere. A ledger no step reads records what became of each entry. `DeliveryInvariant` holds the inductive
  invariant, `DeliveryTheorems` what follows for whole runs, `DeliveryProgress` what a pass gets done and that it ends.
* `Routing`, `StreamKeys`, `Sweep`, `Turn`, `Recovery`, `Subscriptions`, `WorkerState`, `Backoff`: the code each node runs,
  as methods and classes, with lemmas that tie the sweep's and the reclaim loop's lists to the protocol's steps.
* `Scheduler`: the worker registry and the retrying connection.
* `CommandLanes`, `NoGroup`: `process_command_batch` and its interleavings with spawned tasks; the compute listener's recovery.
* `LayerCode`, `TopologySchema`, `Encoder`: layer keys as intervals of integers, the schema compiler, the 24-wide point.
* `CanonicalText`: three printers, a parser, and what a text determines.
* `ConstellationPass`: heartbeat keys and the derivation pass.
* `Text`, `Selection`, `Wrappers`, `Commands`: string operations, what it means to be the chosen elements of a sequence in
  order, `Option`, `Result`, a command as it comes off a stream.

Parameters stand for what the model does not look into: the outcome of every call that can fail, the clock (a natural
number of milliseconds), the tenant guard's verdicts, SHA-256 (any function into 32 bytes), the conversion from a fraction
to a Q64.64 raw value, which placements are refused. Ordered maps of the source are sequences of entries or Dafny maps;
strings are sequences of Unicode scalar values, whose order is the byte order of their UTF-8.

## Where the code is not what its text says

The model follows the code. Each point is a lemma.

* Exposures "only ever widen" (`routing_config.rs:411-416`): not from a blank spec, whose `general` fallback disappears as
  soon as a member is named. `Routing.WideningHoldsExactly` has the exact condition. The same file says the exposure
  predicate is not called on the consume and reclaim paths; both call it.
* "Never remove a consumer holding pending entries" (`consumer_groups.rs:19-20`): a reaper's XINFO and DELCONSUMER leave room
  for a read in between. `ReapDiscardsExactly` says when a reap step loses work, `ReaperRace` that the race is always open,
  `ReaperRaceIsReachable` that a run gets there, `ReaperSparesWhatItSaw` that nothing else can be lost.
* "Anything still held is left for another node to reclaim" (`consumer_groups.rs:1933-1937`): departure deletes the consumer
  unconditionally and discards exactly what it holds (`DepartureDiscardsWhatItHolds`); `DepartureLosesRefusedWork` is a run.
* Reclaim moves ownership but hands the entry to no sweep, so an entry its reader left behind is never acknowledged again
  (`LeftBehindIsNeverAcked`).
* Health entries are read in the worker group and acknowledged in the daemon group: no series of turns clears one from the
  worker group's pending list, exactly when the health stream is not itself subscribed to as a unified stream
  (`Turn.HealthReadsStayPending`). The fallback pair is not a twin pair (`StreamKeys.FallbackIsNotTwinned`), so there the
  acknowledgement names a stream that was not read (`Turn.FallbackHealthStaysPending`).
* A base backoff above the built-in 10 s cap leaves the ladder: a failing sweep then always sleeps the base (`SweepSleep`).
* `layer_code` gives "3", "03" and "+3" one code (`LayerCode.SpellingsCollide`); `KeysWithOneCode` has the exact condition.
* "When a command carries `_rr`, the XADD is the delivery" (`command_processor.rs:1337-1341`): a command with `_rr` is never
  answered, so a regular first command's relay stream gets no answer to that command (`RelayRepliesAreOthers`). A batch
  response that was added but whose stream information could not be read counts as not sent, and may be added again and then
  sent once more response by response (`SendBatch`).
* "Reading the other streams without it" (`compute_handler.rs:441-447`): a stream key with a quote in it cannot be read back
  from the reply, is never dropped, and fails every read for as long as the stream is gone (`QuotedKeyBlocksForever`,
  `UnreadableKeyStays`). Recovery terminates exactly when no active key is like that (`RecoversExactly`). And such a key names
  the stream before its quote: when that one is active, a lost EXISTS drops it although it has the group
  (`HealthyStreamIsDropped`); nobody is starved exactly when this cannot be (`SparesTheHealthyExactly`).
* A slot with no vocabulary that is not freeform is refused (`topology_schema.rs:320-322`); a freeform colour without a vocabulary
  passes the check, and no value can be declared for it (`Encoder.SlotsAreUsable`).
* An axis that is not declared encodes like the word whose code is zero (`Encoder.SilenceIsZero`).
* Two heartbeat names for one entity and node make every constellation pass place again (`ConstellationPass.NeverSettles`).
* A handler may end in ".rs" more than once, and two handlers stage one module exactly when one is the other followed by
  ".rs" any number of times (`CanonicalText.SuffixesCollide`, `ModulesAreDistinct`).

## Model

| member | source | states |
|---|---|---|
| DeliveryTheorems.Conservation | daemon/src/integration/consumer_groups.rs:1768-1792 | in every run each delivered entry is in exactly one of pending with one registered owner, acknowledged, discarded or dropped as trimmed, and the discarded ones number exactly the sum of the DELCONSUMER replies |
| DeliveryTheorems.FatesAreFinal | daemon/src/integration/consumer_groups.rs:1944-1965 | no continuation of any run, reclaims and crashes included, forgets a delivered entry or reopens a settled one |
| DeliveryInvariant.StepKeepsInv | daemon/src/integration/consumer_groups.rs:2055-2161 | every step of every node and of the environment keeps the protocol invariant: chains of handovers, scan rows, batches in hand, the account of each entry |
| DeliveryTheorems.SweepSplitsItsBatch | daemon/src/integration/consumer_groups.rs:1768-1792 | in every reachable state a sweep's acknowledgement clears exactly the wanted entries of its batch, and every other pending entry keeps its owner and clock |
| DeliveryTheorems.AckedByAnExposedReader | daemon/src/integration/consumer_groups.rs:1979-2030 | over every run only the node that read an entry acknowledges it, and a command only under an exposure that accepts its hint |
| DeliveryTheorems.WhyAnEntryIsPending | daemon/src/integration/consumer_groups.rs:1768-1792 | the only reasons an entry is pending: still in its reader's batch, a command its reader's exposure refused, or an acknowledgement that failed or was cut off |
| DeliveryTheorems.LeftBehindIsNeverAcked | daemon/src/integration/consumer_groups.rs:2137-2161 | an entry let go of without acknowledgement is acknowledged in no continuation, whoever reclaims it |
| DeliveryTheorems.ReclaimIsSafe | daemon/src/integration/consumer_groups.rs:2065-2160 | whatever ran between XPENDING, the XRANGEs and XCLAIM, ownership moves if and only if the entry was admitted, is still pending, in the stream and idle; it was another node's at the scan and its hint is accepted |
| DeliveryTheorems.HandoversAreSpaced | daemon/src/integration/consumer_groups.rs:2137-2143 | in every run, between two handovers of one entry the idle bound has passed once for each handover in between, so no two nodes claim it within the bound |
| GroupServer.PendingOffers | daemon/src/integration/consumer_groups.rs:2070-2086 | XPENDING offers an entry if and only if it lies in the range, is pending and idle for the bound, and fewer idle pending entries than the limit lie before it |
| GroupServer.PendingAscends | daemon/src/integration/consumer_groups.rs:2070-2086 | the rows are at most the limit, in ascending order, each with its owner and idle time |
| Recovery.OrphansAreReclaimed | daemon/src/integration/consumer_groups.rs:2070-2143 | in every reachable state a whole reclaim pass changes a pending entry if and only if it is another consumer's, idle for the bound, among the first ten idle ones, still in the stream and of an accepted hint; it is then the node's own, with a fresh clock |
| DeliveryTheorems.ReaperSparesWhatItSaw | daemon/src/integration/consumer_groups.rs:2172-2245 | over every run, all a reap discards was handed to the removed consumer at or after the XINFO the reap acts on |
| DeliveryTheorems.ReapDiscardsExactly | daemon/src/integration/consumer_groups.rs:2172-2245 | a reap step discards work if and only if its row passed the guard and the consumer holds something by then |
| DeliveryTheorems.ReaperRace | daemon/src/integration/consumer_groups.rs:2172-2245 | whenever the consumer to be reaped is a live idle node, one read by it before the DELCONSUMER is lost |
| DeliveryTheorems.ReaperRaceIsReachable | daemon/src/integration/consumer_groups.rs:8-21 | a concrete run from the empty system breaks the rule never to remove a consumer that holds pending entries |
| DeliveryTheorems.DepartureDiscardsWhatItHolds | daemon/src/integration/consumer_groups.rs:1933-1965 | a departure discards exactly the entries it holds, hence nothing if and only if it holds nothing |
| DeliveryTheorems.DepartureLosesRefusedWork | daemon/src/integration/consumer_groups.rs:1933-1937 | a concrete run in which departing loses a command left unacknowledged for other nodes |
| GroupServer.ReadDelivers | daemon/src/integration/consumer_groups.rs:386-445 | a read gives the consumer exactly the first entries in the stream that the group has not delivered, up to the count, and changes no other pending entry |
| DeliveryProgress.NothingIsSkipped | daemon/src/integration/consumer_groups.rs:386-445 | in every run the group moves past no entry that was not delivered, unless it was trimmed first |
| DeliveryProgress.EveryPassEnds | daemon/src/integration/consumer_groups.rs:2055-2245 | a node that has begun a sweep, reclaim or reap is ready again after exactly as many calls as the pass had left, whatever others do in between and whichever calls fail |
| DeliveryProgress.SomethingFits | daemon/src/integration/consumer_groups.rs:2055-2245 | and until then there is always a next call to make |
| DeliveryProgress.OthersLeaveItAlone | daemon/src/integration/consumer_groups.rs:2055-2245 | no step of another node or the environment moves a node that is up |
| DeliveryProgress.NodesOnlyManage | daemon/src/integration/consumer_groups.rs:2055-2245 | no call of a node adds an entry, trims one or moves the clock |
| DeliveryProgress.IdleConsumersAreReaped | daemon/src/integration/consumer_groups.rs:2172-2245 | in every reachable state an undisturbed reap removes a consumer if and only if it is another one, holds nothing and has been idle for an hour; no pending entry goes with it |
| GroupServer.Server.CommandsKeepValid | daemon/src/integration/consumer_groups.rs:2263-2300 | the server commands keep the pending list within the delivered entries, owned by known consumers, with clocks in the past |
| Routing.ParseExposure | daemon/src/routing_config.rs:430-443 | the parsed set holds the config of each trimmed, non-blank segment in order, and `general` when there is none; it is never empty |
| Routing.NamesAre | daemon/src/routing_config.rs:430-443 | a name is read from the spec if and only if it is non-empty and is some comma-separated segment without its surrounding space |
| Routing.ConfigsByName | daemon/src/routing_config.rs:393-407 | the cached config when there is one, else the built-in one, with `general` for every unknown name |
| Routing.ModesAccept | daemon/src/routing_config.rs:181-207 | what each mode accepts, with a hint and without, by membership in the declared list |
| Routing.BuiltInConfigs | daemon/src/routing_config.rs:141-168 | the inference node takes exactly the hint `inference`, the general node everything else, and `all` everything |
| Routing.CacheIsInvisible | daemon/src/routing_config.rs:171-207 | filling the hint cache changes no routing decision |
| Routing.WideningHoldsExactly | daemon/src/routing_config.rs:411-443 | appending exposures widens acceptance under every cache if and only if the old spec names a member, the new one names none, or the new one names `general` |
| Sweep.FilterCommands | daemon/src/integration/consumer_groups.rs:1979-2030 | the filtering loop routes each command to one side by its own hint and collects the non-empty ids of each side in order |
| Sweep.RoutedIs | daemon/src/integration/consumer_groups.rs:1979-2030 | each side holds exactly its commands, once each, in the order they were read, whatever their ids |
| Sweep.AckAndSkipPartitionTheRead | daemon/src/integration/consumer_groups.rs:1499-1516 | the ids to acknowledge and the ids to skip are together, with multiplicity, exactly the ids read |
| Sweep.AckListIsTheProtocols | daemon/src/integration/consumer_groups.rs:1499-1516 | an entry of the batch is named in the list sent to XACK if and only if the protocol's acknowledgement step clears it |
| Sweep.AckListNamesTheBatch | daemon/src/integration/consumer_groups.rs:1499-1516 | the list names nothing else |
| Turn.AcknowledgeTurn | daemon/src/integration/consumer_groups.rs:1480-1786 | after a turn the health ids are off the daemon group of the site's health key, the local ids off the daemon group and the sweep's list off the worker group of the unified stream, and no other group has changed |
| Turn.TurnClears | daemon/src/integration/consumer_groups.rs:1480-1786 | entry by entry, what a turn clears: the health ids of the site's health stream and the local ids of the unified stream in gnode-daemon, the sweep's list of the unified stream in gnode-workers, if and only if |
| Turn.HealthReadsStayPending | daemon/src/integration/consumer_groups.rs:1480-1486 | no series of turns clears an entry from the worker group's pending list of a health stream, if and only if that stream is not subscribed to as a unified stream |
| Turn.TwinsHealthStaysPending | daemon/src/config.rs:15-46 | for a stream and its twin that holds if and only if the key is not a health key itself, and it holds for every key the builders make |
| Turn.FallbackHealthStaysPending | daemon/src/integration/processor/unified_stream_processor.rs:53-66 | it holds for the fallback pair, whose acknowledgement names a stream other than the one read |
| Recovery.SelectClaimable | daemon/src/integration/consumer_groups.rs:2089-2131 | under any replies, an id is claimed if and only if some row of another owner got its entry back with an accepted hint; the count is of the rows whose hint was not |
| Recovery.InspectionMatchesTheLoop | daemon/src/integration/consumer_groups.rs:2089-2131 | in every run, whatever other steps fall between the XRANGEs, an inspecting node has collected what the loop admits for its replies, each the entry itself or nothing because it was trimmed or an XRANGE failed |
| Recovery.ReclaimFollowsTheReplies | daemon/src/integration/consumer_groups.rs:2089-2143 | in every run XCLAIM moves an entry if and only if a row of another owner got it back with an accepted hint and it is still pending, in the stream and idle; it clears it if and only if it was admitted and is trimmed |
| Recovery.Reap | daemon/src/integration/consumer_groups.rs:2172-2245 | the names deleted are those of the empty idle rows, never the reaper itself, and those counted are the clean replies |
| Recovery.DoomedAre | daemon/src/integration/consumer_groups.rs:2208-2226 | a deletion goes out once for each row that said so, in row order |
| Recovery.CleanAre | daemon/src/integration/consumer_groups.rs:2222-2239 | and those counted are the ones that replied nothing was discarded |
| Recovery.DoomedSaidSo | daemon/src/integration/consumer_groups.rs:2172-2245 | a name is deleted if and only if a row of it said outright that it holds nothing and has been idle for the bound; missing fields protect |
| StreamKeys.TwinIsTheSitesOwn | daemon/src/integration/consumer_groups.rs:270-274 | every key with a site's tag leads back to the site and to its own health stream if and only if the site has no brace |
| StreamKeys.SiteIs | daemon/src/config.rs:67-69 | a key's site is what follows a leading brace up to the next closing one or the end, if and only if; a key without one is twinned with the default site |
| StreamKeys.BuiltKeysLeadBack | daemon/src/config.rs:15-24 | so do the keys the two builders make |
| StreamKeys.OwnTwin | daemon/src/config.rs:44-69 | a key is its own twin if and only if it is the health key of a site without a brace |
| StreamKeys.BuiltKeysHaveATwin | daemon/src/config.rs:15-46 | a built unified or placement key is never its own twin, whatever the site is called |
| StreamKeys.SameHealthSameSite | daemon/src/config.rs:44-46 | two sites share a health stream only when they are one |
| StreamKeys.FallbackIsNotTwinned | daemon/src/integration/consumer_groups.rs:1135-1181 | for every site, the fallback health stream is never the twin of the fallback unified stream |
| StreamKeys.FallbackIsABuiltKey | daemon/src/integration/consumer_groups.rs:1135-1181 | the fallback unified stream is the builders' key of the site if and only if the prefix is gnode |
| Subscriptions.Subscriptions.constructor | daemon/src/integration/consumer_groups.rs:1135-1181 | the lists start as the discovered streams with their twins, or as the fallback pair |
| Subscriptions.Subscriptions.Sync | daemon/src/integration/consumer_groups.rs:1278-1341 | a sync leaves every discovered stream and its twin subscribed, keeps the lists parallel, and replaces both or neither |
| Subscriptions.Subscriptions.DropStale | daemon/src/integration/consumer_groups.rs:1800-1838 | a sweep's end, given each read's error text or none, leaves exactly the pairs that were not stale, in their order, and both lists parallel; the error flag is raised if and only if some read failed |
| Subscriptions.OutcomesAre | daemon/src/integration/consumer_groups.rs:1800-1819 | by its text, a failed read drops its stream if and only if it says NOGROUP and "No such key" together, or WRONGTYPE, and counts as an error unless it is the second without the first |
| Subscriptions.Subscriptions.RemoveStale | daemon/src/integration/consumer_groups.rs:1823-1831 | removing the ascending stale indices one by one from the back equals filtering both lists |
| Subscriptions.StaleBelowIs | daemon/src/integration/consumer_groups.rs:1800-1819 | the collected indices are the stale ones, ascending |
| WorkerState.ConsumerGroupState.AdjustBatchSize | daemon/src/integration/consumer_groups.rs:148-163 | from within its bounds the size stays within them, grows if and only if a full batch was processed and there is room, shrinks if and only if less than a quarter was and there is room, and by no more than a factor of two |
| WorkerState.ControllersAgree | daemon/src/integration/consumer_groups.rs:255-261 | the two controllers compute the same size if and only if the size is at most the maximum or was not filled |
| WorkerState.AdjustedStaysInBounds | daemon/src/config.rs:441-462 | from a valid configuration the size stays in bounds for any number processed, and doubling fits 64 bits for a maximum below 2^63 |
| WorkerState.StepIsAFactorOfTwo | daemon/src/integration/consumer_groups.rs:148-163 | within the bounds each move is exactly a doubling or a halving, cut off at the bound, each if and only if the load asks for it |
| WorkerState.MovesOneWay | daemon/src/integration/consumer_groups.rs:148-163 | under any constant load the size never turns back |
| WorkerState.SettlesInLogarithmicTime | daemon/src/integration/consumer_groups.rs:148-163 | under any constant load the size is at rest after any n sweeps with 2^n above the maximum |
| WorkerState.WhereItSettles | daemon/src/integration/consumer_groups.rs:148-163 | the resting sizes, if and only if: the load fits or no growth is possible, and the size is not four times too large or no shrinking is possible |
| WorkerState.ConsumerGroupState.RegisterError | daemon/src/integration/consumer_groups.rs:184-188 | an error counts once and climbs one rung |
| WorkerState.ConsumerGroupState.ResetAfterSuccess | daemon/src/integration/consumer_groups.rs:177-181 | a success returns to the bottom of the ladder and notes the activity |
| WorkerState.ConsumerGroupState.ClosedForm | daemon/src/integration/consumer_groups.rs:166-188 | in every state reached through errors and successes the backoff is min(base * 2^errors, cap) if and only if there was an error or the base is within the cap |
| WorkerState.ConsumerGroupState.SweepSleep | daemon/src/integration/consumer_groups.rs:1927-1930 | what a failing sweep sleeps: the ladder for a base within the built-in cap, and always the base above it |
| Backoff.Climb | daemon/src/integration/consumer_groups.rs:166-169 | doubling under the cap takes the closed form from one rung to the next |
| Scheduler.WorkerRegistry.Register | daemon/src/worker.rs:122-125 | a new worker is appended with its own entry, already in backoff |
| Scheduler.WorkerRegistry.TickAll | daemon/src/worker.rs:146-184 | each worker's entry moves by its own look and no other's, and the round is busy if and only if a due worker was |
| Scheduler.SkipTimeIsTheLadder | daemon/src/worker.rs:147-184 | over every history of looks the skip time is the base doubled once per consecutive error, capped; looks in backoff do not count |
| Scheduler.OnlyErrorsSkip | daemon/src/worker.rs:150-168 | after every history, a due tick that is not an error leaves the worker due at any later time |
| Scheduler.SkippedAfterErrors | daemon/src/worker.rs:146-184 | after n errors in a row a worker is due again if and only if the base doubled n times, capped, has passed since the last |
| Scheduler.OtherLooks | daemon/src/worker.rs:157-180 | an idle or busy tick resets the backoff and the count of errors; a skipped look and a shutdown change nothing |
| Scheduler.WithRetryConnection | daemon/src/integration/connection_manager.rs:198-233 | at most retries + 1 turns, all but the last connection errors, giving up on one only after all of them, pausing min(base * 2^k, cap) after the k-th |
| CommandLanes.Categorise | daemon/src/integration/command_processor.rs:945-975 | every id in order, the two categories in order, and the first non-empty batch id carried |
| CommandLanes.CategoriesPartition | daemon/src/integration/command_processor.rs:945-975 | each command is a bundle or regular, once |
| CommandLanes.CategoryIs | daemon/src/integration/command_processor.rs:945-975 | each category is exactly its commands, bundles being those of type bc, in the order they came |
| CommandLanes.Dispatch | daemon/src/integration/command_processor.rs:1146-1317 | the positions spawned or run are those of the commands that are served, and those refused and unknown are the rest of this party's, in stream order; the count is spawned plus answered |
| CommandLanes.FateIs | daemon/src/integration/command_processor.rs:1146-1246 | a command of this party is refused if and only if the guard says so; otherwise it is served if and only if it has a handler, or a Concurrent lane, an async handler, a runtime and a place on it, and spawned in just the second case; the rest are unknown |
| CommandLanes.WhoIsServed | daemon/src/integration/command_processor.rs:1146-1246 | the same over a whole batch: the positions served, refused and unknown, each if and only if |
| CommandLanes.FatesAddUp | daemon/src/integration/command_processor.rs:1146-1317 | left out or left for its owner, spawned, and answered inline account for every regular command once |
| CommandLanes.WhereIs | daemon/src/integration/command_processor.rs:1146-1317 | the listed positions are exactly those of the fate, each once and ascending |
| CommandLanes.LoopIsDispatch | daemon/src/integration/command_processor.rs:1146-1246 | the interleaved loop, left alone, is the dispatch loop |
| CommandLanes.OrderedFate | daemon/src/integration/command_handler.rs:156-160 | an Ordered command runs inline if and only if it is eligible, and is never spawned, whatever the runtime does |
| CommandLanes.TasksAreConcurrent | daemon/src/integration/command_processor.rs:1207-1226 | in every interleaving a waiting task is a Concurrent command that was neither refused nor another party's |
| CommandLanes.OrderedRunInStreamOrder | daemon/src/integration/command_processor.rs:1146-1246 | under every interleaving with spawned tasks the Ordered handlers that have run are exactly the eligible subsequence so far, in stream order |
| CommandLanes.OrderedLaneIgnoresTasks | daemon/src/integration/command_processor.rs:1167-1231 | two finished runs, with the runtime up or down and tasks landing anywhere, run the same Ordered commands in the same order |
| CommandLanes.EveryHandlerRunsOnce | daemon/src/integration/command_processor.rs:1207-1246 | under every interleaving the handler of a command that is served has run once or waits once, and no other has run |
| CommandLanes.EveryBatchCanFinish | daemon/src/integration/command_processor.rs:1207-1246 | from wherever an interleaving stands, the loop can go on to its end and every waiting task can run |
| CommandLanes.SendBatch | daemon/src/integration/command_processor.rs:1507-1563 | at most three tries and two copies; exactly when it reports success, and exactly when a response lands twice or not at all |
| CommandLanes.ProcessCommandBatch | daemon/src/integration/command_processor.rs:913-1711 | an Ok return has submitted every input id once, in order, in the daemon group and counts spawned plus answered; an error is exactly a batch-form response to another stream with refused fields, and acknowledges nothing |
| CommandLanes.AnsweredAskedForNoRelay | daemon/src/integration/relay/reply.rs:83-85 | no answered command carries relay metadata |
| CommandLanes.RelayRepliesAreOthers | daemon/src/integration/command_processor.rs:1337-1345 | when the first command is regular and its relay stream is used, it is not among those answered |
| NoGroup.NogroupKey | daemon/src/compute_handler.rs:37-44 | a key read from a reply is non-empty and holds no quote |
| NoGroup.KeyIsRead | daemon/src/compute_handler.rs:37-44 | any error text names a key if and only if it says NOGROUP and, behind its first mark, the key with the quote that ends it |
| NoGroup.ReplyNamesTheKey | daemon/src/compute_handler.rs:37-44 | from the server's reply about any key the listener reads the part before its first quote: the key itself if and only if it is non-empty and has none |
| NoGroup.FixNogroup | daemon/src/compute_handler.rs:53-69 | a repair creates no stream and touches no other; it succeeds if and only if the stream was there for both calls and neither was lost, and then the stream has the group; otherwise nothing changed |
| NoGroup.Listener.OnReadError | daemon/src/compute_handler.rs:437-457 | the active set outright, stream by stream, and the server and the sync signals after the error branch |
| NoGroup.RoundIsLocal | daemon/src/compute_handler.rs:437-457 | whatever the server does meanwhile, a round drops at most the stream named before the quote, creates no stream and takes no group away |
| NoGroup.RoundKeeps | daemon/src/compute_handler.rs:437-457 | a stream is active after a round if and only if it was, and the reply did not name it or both calls found it and neither was lost |
| NoGroup.RunKeeps | daemon/src/compute_handler.rs:437-457 | a stream is active at the end of any run if and only if it was at its start and every round that named it repaired it |
| NoGroup.ExistingStreamsStay | daemon/src/compute_handler.rs:437-457 | with no lost call, a stream that exists at every call of a run is never dropped, group or not |
| NoGroup.RoundRepairs | daemon/src/compute_handler.rs:437-457 | a round on a readable key leaves at least the blamed stream out of the broken ones |
| NoGroup.RoundSparesTheHealthy | daemon/src/compute_handler.rs:437-457 | without a misleading key, a round drops no stream that had the group at the read, deletions or not |
| NoGroup.RecoveryTerminates | daemon/src/compute_handler.rs:437-457 | with readable keys, reads fail at most as often as there are broken active streams at the first, for any blame and any growth of the server in between |
| NoGroup.RecoversExactly | daemon/src/compute_handler.rs:437-457 | no run of failing reads is longer than the list of streams, if and only if every active key is readable |
| NoGroup.NobodyIsStarved | daemon/src/compute_handler.rs:437-457 | without a misleading key, a stream that had the group at the first read is still active after any number of failing rounds |
| NoGroup.HealthyStreamIsDropped | daemon/src/compute_handler.rs:37-69 | a misleading key and one lost EXISTS drop an active stream that has the group |
| NoGroup.SparesTheHealthyExactly | daemon/src/compute_handler.rs:437-457 | no run drops a stream that had the group at its first read, if and only if no unreadable active key names another active stream |
| NoGroup.UnreadableKeyStays | daemon/src/compute_handler.rs:37-44 | no run drops an unreadable key, and every read of a server where it lacks the group still fails |
| NoGroup.QuotedKeyBlocksForever | daemon/src/compute_handler.rs:37-44 | for any active unreadable key there are failing runs of every length |
| LayerCode.Pack | daemon/src/topology_schema.rs:326-338 | shifting and or-ing 64-bit words yields the six-digit number of the path, below 2^48 |
| LayerCode.ShiftOr | daemon/src/topology_schema.rs:326-338 | on 64-bit words of the loop's range, shift-and-or is multiply-and-add |
| LayerCode.IntervalIsTheSubtree | daemon/src/topology_schema.rs:340-345 | a code lies in a layer's interval if and only if the layer's path is a prefix of its path |
| LayerCode.IntervalsNestOrAreDisjoint | daemon/src/topology_schema.rs:340-345 | two intervals nest if and only if one path extends the other, and are disjoint otherwise |
| LayerCode.CodeOrderIsPreorder | daemon/src/topology_schema.rs:326-338 | code order is the preorder of the tree and codes are injective on paths |
| LayerCode.KeyIntervalIsTheSubtree | daemon/src/topology_schema.rs:326-345 | the same for keys as text, with the depth read off the text |
| LayerCode.SegmentReads | daemon/src/topology_schema.rs:326-329 | a segment parses to a number below 2^64 if and only if it is that number's decimal numeral, after any zeros and at most one plus sign |
| LayerCode.KeyNames | daemon/src/topology_schema.rs:326-333 | a key names a path if and only if its segments are one to six and parse, in order, to the path's digits, all within 1..=255 |
| LayerCode.KeysNameTheirPaths | daemon/src/topology_schema.rs:326-345 | the dotted decimal numerals of any path name that path, with its code and its interval |
| LayerCode.NumeralReads | daemon/src/topology_schema.rs:326-329 | reading a number's decimal numeral gives the number back |
| LayerCode.KeysWithOneCode | daemon/src/topology_schema.rs:326-338 | two keys have one code if and only if they spell one path, which for canonical spellings means they are equal |
| LayerCode.SpellingsCollide | daemon/src/topology_schema.rs:326-338 | three spellings of one digit that share a code |
| LayerCode.IndexAgreesWithTheTree | daemon/src/topology_schema.rs:347-360 | the score of a layer's coordinate is its code, below 2^48; the coordinate is in the unit interval; the top layer is the first digit |
| LayerCode.QueryIsTight | daemon/src/constellation.rs:262-265 | a score-range query misses no raw coordinate of its range and admits none a whole index unit outside it; aligned bounds are exact |
| TopologySchema.CheckValues | daemon/src/topology_schema.rs:308-323 | accepts if and only if all codes are in the unit interval and distinct and the slot has some way to name a value |
| TopologySchema.CodesIdentifyWords | daemon/src/topology_schema.rs:308-323 | in a checked vocabulary a word's code decodes to that word and no other |
| TopologySchema.LookupIs | daemon/src/topology_schema.rs:308-323 | a word has a code if and only if it is listed, and then the one beside it |
| TopologySchema.ResolveInvertsNameOf | daemon/src/topology_schema.rs:111-117 | with unique names, a name resolves to an index if and only if the index has that name |
| TopologySchema.CompileShape | daemon/src/topology_schema.rs:172-212 | filling the slots in place refuses or yields exactly what the layered definition does |
| TopologySchema.CompiledShape | daemon/src/topology_schema.rs:172-212 | a compiled shape has unique names and checked vocabularies, each body entry at its own allowed free index, and elsewhere the last header entry the shape carries |
| TopologySchema.ShapeIsAccepted | daemon/src/topology_schema.rs:172-212 | a shape compiles if and only if every header index is below 24, every body entry has an allowed free index and an unused name, and every vocabulary checks |
| TopologySchema.CarriedBy | daemon/src/topology_schema.rs:182-191 | a header entry without a list is carried by every shape, one with a list by those listed |
| Encoder.ResolveAxis | daemon/src/constellation.rs:410-424 | an axis is accepted if and only if it names a provider slot past the header that takes the value |
| Encoder.WriteAxes | daemon/src/constellation.rs:409-433 | in any order of the axes, the loop refuses exactly when an axis is not taken, and otherwise leaves each declared slot with its code and every other as it was |
| Encoder.Encode | daemon/src/constellation.rs:390-455 | refused if and only if key, environment or an axis is; otherwise the point, raw point, indexes and preserve list read off the declaration, whatever the order of the axes |
| Encoder.DeclarationsAccepted | daemon/src/constellation.rs:390-424 | a declaration is encoded if and only if its key has a code, its environment is in the vocabulary and for every axis some provider slot past the header has its name and takes its value |
| Encoder.SlotTakes | daemon/src/constellation.rs:348-386 | which values a slot takes, for each kind of value if and only if |
| Encoder.SlotGets | daemon/src/constellation.rs:348-386 | what the slot then holds: the code of the first word, or the number itself; and the words it is indexed under |
| Encoder.SlotsAreUsable | daemon/src/topology_schema.rs:320-322 | a checked slot past the layer's takes some value if and only if it is not a freeform colour without a vocabulary, which compiles and takes none |
| Encoder.PointsAreInTheUnitCube | daemon/src/constellation.rs:390-433 | under a checked schema every coordinate of every encoded point is between zero and one |
| Encoder.FractionIsKept | daemon/src/constellation.rs:376-423 | a declared number is in the point as it was declared, and in the raw point as its conversion, at its axis off the lifecycle slot |
| Encoder.OrderedAxesAreScored | daemon/src/constellation.rs:420-426 | the score index holds a declared axis if and only if its slot is ordered, under the score of the declared number or of the word's code |
| Encoder.ColoursAreIndexed | daemon/src/constellation.rs:404-425 | the colour index holds exactly the declared colour axes, under exactly their words, and the environment |
| Encoder.DaemonEntries | daemon/src/constellation.rs:429-437 | lifecycle starts at a quarter in point, raw point and score index, and health at score zero, where the shape has them |
| Encoder.AxisDecodes | daemon/src/constellation.rs:348-386 | the value at a declared word axis decodes to that word, and for several to the first, if and only if the slot is not the lifecycle slot or the word has its code |
| Encoder.LayerDecodes | daemon/src/constellation.rs:390-399 | the layer's code comes back exactly from the coordinate and from its raw form |
| Encoder.EnvironmentDecodes | daemon/src/constellation.rs:401-407 | the environment's word comes back from its slot |
| Encoder.EqualPointsSameLayer | daemon/src/constellation.rs:390-399 | equal first coordinates mean one layer code |
| Encoder.EqualPointsSameEnvironment | daemon/src/constellation.rs:401-407 | equal environment slots mean one environment |
| Encoder.EqualPointsSameWord | daemon/src/constellation.rs:409-433 | equal points mean the same word on every axis both declare, off the lifecycle slot |
| Encoder.SilenceIsZero | daemon/src/constellation.rs:393-433 | leaving an axis out changes the point if and only if its code is not zero |
| Encoder.FrameIsKept | daemon/src/constellation.rs:390-446 | unwritten slots are zero in both forms, and the preserve list is exactly the named derived slots of other writers, disjoint from all that is written |
| Encoder.PreservedAscends | daemon/src/constellation.rs:443-446 | the preserve list is ascending |
| CanonicalText.HexByTable | daemon/build.rs:352-360 | two table look-ups a byte, by its shifted and its masked half, print the specified hexadecimal |
| CanonicalText.HexByFormat | daemon/src/ext_verify.rs:38-44 | formatting each byte to width two prints the same hexadecimal |
| CanonicalText.HexIsInjective | daemon/build.rs:352-360 | hexadecimal determines the bytes |
| CanonicalText.GuardsAreImplied | daemon/build.rs:439-447 | a handler name is accepted if and only if it ends in .rs over an identifier: the separator and double-dot guards refuse nothing more, and accepted names have only identifier characters and single dots |
| CanonicalText.DoubleDotIs | daemon/build.rs:439-442 | the double-dot guard holds of exactly the names with two dots in a row |
| CanonicalText.HandlerNamesAre | daemon/build.rs:439-447 | a handler name is an identifier with .rs behind it one or more times, and nothing else |
| CanonicalText.IdentifiersAre | daemon/build.rs:416-437 | an identifier is a letter or underscore followed by letters, underscores and digits, by an explicit alphabet |
| CanonicalText.SuffixesCollide | daemon/build.rs:275-282 | two names stage one module if and only if one is the other followed by .rs any number of times |
| CanonicalText.ExtensionsAreAccepted | daemon/build.rs:439-447 | every such extension of an accepted handler name is accepted |
| CanonicalText.ModulesAreDistinct | daemon/build.rs:266-284 | a manifest's module names are distinct if and only if no handler extends another |
| CanonicalText.PrintAtBuild | daemon/build.rs:308-344 | succeeds if and only if names validate and files are readable, with the canonical text |
| CanonicalText.PrintAtLoad | daemon/src/ext_verify.rs:78-112 | the same, byte for byte, with format-driven hexadecimal |
| CanonicalText.PrintInManager | daemon/src/extensions/mod.rs:450-490 | succeeds if and only if files are readable, with the same text |
| CanonicalText.LinesAre | daemon/build.rs:308-341 | the lines of the text, each tag spelled out, in the order of the sorted names |
| CanonicalText.LexIsByCharacter | daemon/build.rs:321-341 | the order of the names is that of the first character that differs, a prefix before its extensions |
| CanonicalText.TextIgnoresOrder | daemon/build.rs:321-341 | permuting the handler or library lists changes neither text nor acceptance |
| CanonicalText.TextIsDecodable | daemon/build.rs:308-344 | a parser gets back from a validated manifest's text its name, yaml hash, and sorted lists of names with hashes |
| CanonicalText.TextDeterminesTheManifest | daemon/build.rs:308-344 | two validated manifests print one text if and only if name, yaml hash and the hashed file lists, up to order, are the same |
| ConstellationPass.ParseUndoesHeartbeatKey | daemon/src/constellation_worker.rs:26-36 | parsing inverts the key builder if and only if no part is empty and environment and component hold no colon |
| ConstellationPass.KeyReads | daemon/src/constellation_worker.rs:26-36 | any key reads as a heartbeat if and only if the three parts, none empty, stand in order behind its first marker |
| ConstellationPass.MatchHeartbeat | daemon/src/constellation_worker.rs:40-52 | the matching loop yields the owners of a name in order |
| ConstellationPass.OwnersAre | daemon/src/constellation_worker.rs:38-52 | an entity is matched if and only if its declared name is the heartbeat's, or it declares none and its id agrees but for ASCII case |
| ConstellationPass.OwnsBy | daemon/src/constellation_worker.rs:38-52 | character by character, whose heartbeat a name is: the declared name must be it; without one, the id must be it but for the case of ASCII letters |
| ConstellationPass.OwnersStand | daemon/src/constellation_worker.rs:40-52 | the owners come in the order they are listed, once each |
| ConstellationPass.LowerCases | daemon/src/constellation_worker.rs:40-52 | ignoring case maps each ASCII capital to its small letter and changes nothing else |
| ConstellationPass.PlacementsFollowTheKey | daemon/src/constellation_worker.rs:146-160 | a placement is the entity at the key's node under the key's name and environment: shape 4.1 and global for a component, 4.2 and the key's environment for a service |
| ConstellationPass.WeightsAreDeclared | daemon/src/constellation_worker.rs:148-152 | its weight is that of the first entity with the id, modulo 2^32, or one |
| ConstellationPass.Pass | daemon/src/constellation_worker.rs:120-177 | without the lease nothing changes; with it, the report's lists, unknown nodes named, the placements made against the snapshot, and the store |
| ConstellationPass.SortIs | daemon/src/constellation_worker.rs:137-152 | when a key is unparsed, on an unknown node, or matched, each if and only if |
| ConstellationPass.SortsStand | daemon/src/constellation_worker.rs:137-152 | the report's lists keep the order in which the keys were read |
| ConstellationPass.PlacedAre | daemon/src/constellation_worker.rs:160-175 | the report names exactly the placements not refused and not found at the start under their own heartbeat name, in order |
| ConstellationPass.StoreHolds | daemon/src/constellation_worker.rs:160-175 | under each id the store holds the last placement made, or what it held before when none was |
| ConstellationPass.UnmatchedAre | daemon/src/constellation_worker.rs:139-152 | the unmatched lines are those of the keys that parse and place nothing, in order |
| ConstellationPass.KeysAreSortedOnce | daemon/src/constellation_worker.rs:137-152 | each key is unparsed, unmatched or matched, once for each time it was read, and a matched key asks for a placement |
| ConstellationPass.OwnersAreWanted | daemon/src/constellation_worker.rs:146-166 | every owner of a matched key's name is wanted at the key's node |
| ConstellationPass.WantedAreOwned | daemon/src/constellation_worker.rs:146-166 | nothing else is wanted |
| ConstellationPass.SecondPassIsQuiet | daemon/src/constellation_worker.rs:133-177 | a second pass over the same inputs places nothing if and only if no two accepted placements share an id under different heartbeat names, and then leaves the store as it is |
| ConstellationPass.NeverSettles | daemon/src/constellation_worker.rs:167-175 | with two names for one id every pass places something, whatever it finds |

## Left out

- Server and transport: connection handling, RESP parsing, Lua functions, logging and metrics are not modelled; the commands used are functions on a state.
- One stream: the delivery protocol models one stream and its group; a node's several streams are independent copies of it.
- Delivery.Trim: entries leave from the front only, and an XCLAIM of a trimmed entry clears it from the pending list, as servers from 7.0 on do.
- Delivery.DoXclaim: delivery counters and XCLAIM options the daemon does not send are not part of the state.
- Group maintenance: XGROUP SETID, group creation and its retired client group, and the recovery thread that starts only when the worker could not be created.
- Liveness of reclaim: nothing is claimed about entries being processed in the end, since the code hands reclaimed entries to no sweep.
- Routing.RoutingConfig.InitCache: the cache is filled on a value, not in place.
- Bundles: the sub-commands of a "bc" message; only the number of responses they add enters `ProcessCommandBatch`.
- Turn.AcknowledgeTurn: every XACK it sends arrives; one that is lost clears nothing.
- CommandLanes.SendBatch: the pauses between tries, and the per-response sends that follow a failed batch, are not modelled.
- Handlers: what a handler does, the tenant guard's rewriting of a command, receipts, response keys and relay forwarding.
- NoGroup.RecoversExactly: between rounds the server only grows; deleting streams or groups meanwhile can prolong recovery, as in the original.
- Encoder: NaN and infinities, rounding to doubles, and the record's JSON text; codes and fractions are real numbers.
- TopologySchema.CompileShape: one shape; the width check, body lookup and the collection of shapes around it, and the `zone_a` and `compare_mask` views.
- Widths: 64-bit overflow of a batch size of 2^63 or more, of backoffs and of error counters.
- CanonicalText: SHA-256 (section 6 of FIPS 180-4) is any function into 32 bytes, and Ed25519 (section 5.1 of RFC 8032) is not modelled; paths are the names themselves.
- ConstellationPass: the lease, the topology queries and the health derivation that follows the placements.
- Easy members: `version_fraction`, `env_of_stream_key`, key builders without a property of their own, configuration defaults and environment overrides.
