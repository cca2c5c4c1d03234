# A model of the trading platform's protocol and ledger cores

This project models the algorithmic cores of the platform in Dafny and proves what they promise, over every
input, every run or every interleaving. `dafny verify dfyconfig.toml` checks all of it.

What is modelled, one module a component:

- **Neighborhood**: the bounded breadth-first search of the topology graph, its type filter and the induced
  edges. The search finds exactly the ball around the seed with true shortest distances; the answer does not
  depend on storage order, grows with the depth and is symmetric.
- **ReplayLog**, **ConnectionManager**, **ReplayDelivery**, **TopicStream**: the resumable WebSocket stream. The
  bounded replay buffer is held against a ghost log of everything ever published. A method or an action is one
  stretch of the source between two `await`s, and the delivery and client theorems hold for every interleaving
  of those stretches.
- **StableSerialize**, **SerializerLaw**, **SerializedText**, **ModelConfigRecovery**: the canonical config serializer
  on UTF-16 code units, its text, and the search for an equivalent model config.
- **ExecutionAnalytics**: incremental aggregates against closed forms, the full reconciliation, maximum drawdown
  and the ratios of a snapshot.
- **BacktestReplay**, **BacktestTrades**, **BacktestLaws**: the replay ledger, the same ledger told by the events
  alone, its conservation laws, and what is lost when an order id is used twice.
- **MarketData**, **TrainingReadiness**: canonical dataset ids, idempotent ingestion, coverage by hull, and the
  missing-chunk loop of a new training run.
- **JobState**, **RunArtifacts**, **RiskGuard**, **WorkerQueue**, **ParameterLineage**: the job status cache over
  the event table, artifact deduplication and pruning, the runtime guard, the shared job queue and the clone
  lineage.
- **Sorting**, **Sums**, **Options**: stable sorting (with a proof that stability fixes the result, so that one
  sort stands for Python's and JavaScript's), sums over sequences, insertion-ordered dictionaries, options.

How the model stands to the code:

- Floating-point accumulators are `real`s; rounding occurs only in emitted records and is not modelled.
- A digest, together with the serialization it is taken of, is a function parameter that is injective where a
  lemma says so. The clock is an input that does not run backwards; `JobState.ClockStepsBack` shows what happens
  when it does. Fresh ids are inputs required to be fresh.
- `localeCompare`, number printing, `toLowerCase()`, `Date.parse`, payload parsing and whitespace stripping of
  checksums are function parameters; the lemmas state what they need of them, and lemmas exhibit functions that
  meet it. A number of a config is a finite double, named by its place among the finite doubles.
- Tables are sequences and maps, the queue is a sequence, sends append to an outbox or a pipe.
- Classes in the source with fields that change are classes here, loops are loops, pure code is functions.

Where the code falls short of what it is for, the model keeps the code and states exactly when it delivers:

- `localeCompare` ties canonically equivalent spellings of a key. For any key order, equal texts mean equal configs,
  and a config's text decides equality against every other config if and only if no object inside it holds two tied
  keys (`SerializerLaw.OneTextExactlyWithoutTies`); so the exact match of the search is equality, up to key order,
  exactly for such desired configs (`ModelConfigRecovery.ExactMatchExact`). Ordering keys by code units would never
  tie (`SerializerLaw.CodeUnitOrderIsCanonical`).
- An identity, joined with bars, decides whether family and identity fields agree if and only if no normalized part
  of the desired one holds a bar without white space directly on either side of it
  (`ModelConfigRecovery.IdentityExact`);
  `ModelConfigRecovery.IdentitiesCollide` gives two different configs with one identity.
- A live event that overtakes a replay moves the client's cursor past events that it never receives if the
  connection then drops (`TopicStream.OvertakenReplayLosesEvents`, reached as in `TopicStream.OvertakingIsReachable`).
  For a session resuming from a cursor, the client ends in step with the log after a publication of its topic if and
  only if that does not fall between the subscribe and the end of the replay, or makes the replay be refused, upon
  which the client starts over (`TopicStream.QuietIsExact`).
- The client's gap alarm reports every event of another topic, since `seq` counts all topics
  (`TopicStream.GapReportsAreSpurious`).
- A generated `order-N` id can equal one given explicitly, and the flags then report a broken inventory
  (`BacktestLaws.GeneratedIdCollides`, `BacktestLaws.CollisionIsReachable`). No order is overwritten if and only if
  the ids assigned to the order events, given or generated, are pairwise distinct (`BacktestLaws.NothingLostExactly`).
- Asking twice for the same data is idempotent unless the first request was recorded under a key of its own and the
  second has another, new key or none (`MarketData.ResubmissionExact`); then the data is recorded twice
  (`MarketData.KeyedThenKeyless`).
- The average price of a symbol's position lies between its fill prices throughout a replay if and only if the
  position is never dust, nonzero and below 1e-12 (`BacktestLaws.AverageBetweenExactlyWithoutDust`); a buy of less
  than that much makes it dust (`BacktestLaws.DustIsReachable`).
- The missing-chunk loop covers everything if and only if the catalog holds none of its dataset ids. An earlier
  ingestion of other data under a key equal to such an id leaves the gap
  (`TrainingReadiness.KeyOfOtherDataLeavesGap`), and without such keys no history does
  (`TrainingReadiness.HistoryLeavesNothingMissing`). Coverage is a hull, so it cannot see a hole between partitions
  (`TrainingReadiness.HullIgnoresHoles`).
- The runtime guard's `active` mark is written but never consulted (`RiskGuard.InactiveChangesNothing`). Its
  turnover bound holds if and only if the limit is not negative: below a negative limit nothing is approved, and
  nothing is still more than the limit (`RiskGuard.ApprovedStaysWithinTurnover`).
- Push-backs in front of a worker's first match equal that envelope's index if and only if nothing in front is
  malformed, since malformed payloads are dropped (`WorkerQueue.FirstMatchIsReached`).
- Storing a new parameter set keeps every lineage walk finite if and only if the set is neither its own parent nor
  the missing parent at the top of its parent's lineage (`ParameterLineage.StoreKeepsLineages`). Under an enforced
  foreign key only the former can be; the code does not switch enforcement on for SQLite, where two stores through
  the repository can close a cycle (`ParameterLineage.TwoStoresCloseCycle`). The ids that the clone route draws
  never do.

## Model

| member | source | states |
|---|---|---|
| `Neighborhood.BuildAdjacency` | apps/api-control-plane/app/api/routers/graph.py:133-136 | the adjacency map holds exactly the undirected links of the edges |
| `Neighborhood.Discover` | apps/api-control-plane/app/api/routers/graph.py:147-152 | undiscovered neighbours, each once, get the next distance and join the end of the queue; nothing else changes |
| `Neighborhood.Expand` | apps/api-control-plane/app/api/routers/graph.py:143-152 | expanding the head discovers exactly its neighbours, one step further away |
| `Neighborhood.ExpandKeepsInvariant` | apps/api-control-plane/app/api/routers/graph.py:142-152 | an expansion keeps the queue ordered by distance with spread at most one, distances witnessed by walks, and settled nodes settled |
| `Neighborhood.ExploredCoversWalks` | apps/api-control-plane/app/api/routers/graph.py:142-152 | once the queue is empty no walk from the seed leaves the discovered set within the depth or beats a recorded distance |
| `Neighborhood.DistancesExact` | apps/api-control-plane/app/api/routers/graph.py:138-152 | an explored search has found exactly the nodes within the depth, with true shortest distances |
| `Neighborhood.Search` | apps/api-control-plane/app/api/routers/graph.py:138-152 | for every graph, seed and depth: visited is exactly the ball, distances are exactly the shortest walk lengths, and the loop ends |
| `Neighborhood.WithinSymmetric` | apps/api-control-plane/app/api/routers/graph.py:135-136 | being within a distance is symmetric in the two nodes |
| `Neighborhood.Select` | apps/api-control-plane/app/api/routers/graph.py:154-166 | from the visited set: unknown endpoints and mixed labels fail as in the source, otherwise nodes by id and the sorted induced edges |
| `Neighborhood.GetNeighborhood` | apps/api-control-plane/app/api/routers/graph.py:121-168 | the response is the promised one, stated by walks only, including every failure |
| `Neighborhood.EdgesInOrder` | apps/api-control-plane/app/api/routers/graph.py:166-166 | in every answer the edges ascend by source, with equal sources by target, then by label, then by id |
| `Neighborhood.MixedLabelsMeans` | apps/api-control-plane/app/api/routers/graph.py:166-166 | the sort fails exactly when two selected edges have equal endpoints and only one of them has a label |
| `Neighborhood.ByIdLast` | apps/api-control-plane/app/api/routers/graph.py:128-128 | of nodes with one id the last stands in the index |
| `Neighborhood.AnswerIgnoresOrder` | apps/api-control-plane/app/api/routers/graph.py:127-168 | two stores with the same nodes and edges in any order give the same response |
| `Neighborhood.DeeperContainsShallower` | apps/api-control-plane/app/api/routers/graph.py:145-165 | a deeper request returns every node and edge of a shallower one |
| `Neighborhood.NeighborhoodSymmetric` | apps/api-control-plane/app/api/routers/graph.py:133-160 | without a type filter, v is in u's neighbourhood exactly when u is in v's |
| `ReplayLog.PushIsTail` | apps/api-control-plane/app/ws/manager.py:52-97 | appending to the bounded deque keeps it the last `window` entries of the full log |
| `ReplayLog.MatchingAscending` | apps/api-control-plane/app/ws/manager.py:120-123 | what is replayed is strictly ascending in `seq` |
| `ReplayLog.MatchingHead` | apps/api-control-plane/app/ws/manager.py:120-123 | the first replayed event is the first match past the cursor, and resuming from it yields the remaining ones |
| `ReplayLog.Replay` | apps/api-control-plane/app/ws/manager.py:106-132 | `ok` replays exactly the full log's matches past the cursor; `too_old` exactly when some event past the cursor was evicted; `invalid` exactly for a negative cursor |
| `ReplayLog.ResumableMeans` | apps/api-control-plane/app/ws/manager.py:117-118 | the window test on the cursor decides whether an event past it has been evicted |
| `ConnectionManager.Manager.constructor` | apps/api-control-plane/app/ws/manager.py:46-53 | an empty log and no sockets, with a window of at least one |
| `ConnectionManager.Manager.Connect` | apps/api-control-plane/app/ws/manager.py:55-59 | the socket is connected with no topics; others keep theirs |
| `ConnectionManager.Manager.Disconnect` | apps/api-control-plane/app/ws/manager.py:61-64 | the socket is gone with its topics; others keep theirs |
| `ConnectionManager.Manager.Subscribe` | apps/api-control-plane/app/ws/manager.py:66-69 | the topics are added for this socket only, and its topics are returned sorted |
| `ConnectionManager.Manager.Unsubscribe` | apps/api-control-plane/app/ws/manager.py:71-74 | the topics are removed for this socket only, and its topics are returned sorted |
| `ConnectionManager.Manager.Publish` | apps/api-control-plane/app/ws/manager.py:86-101 | the next number is used, the log grows by the event, the buffer stays its tail, and exactly the subscribed connections are picked |
| `ConnectionManager.Manager.DropFailed` | apps/api-control-plane/app/ws/manager.py:143-153 | exactly the sockets whose send failed are dropped |
| `ConnectionManager.Manager.ReplaySince` | apps/api-control-plane/app/ws/manager.py:106-132 | the buffer answers as the unbounded log would, except for evicted events |
| `ConnectionManager.Endpoint.constructor` | apps/api-control-plane/app/api/routers/ws.py:25-60 | a malformed cursor is reported and then absent; the socket starts without topics |
| `ConnectionManager.Endpoint.HandleSubscribe` | apps/api-control-plane/app/api/routers/ws.py:82-98 | valid topics are added and reported; the cursor is still there for the replay |
| `ConnectionManager.Endpoint.HandleReplay` | apps/api-control-plane/app/api/routers/ws.py:100-159 | one replay a connection: the matches and a completion, or `replay_required` with the window's bounds, or `replay_disabled` |
| `ConnectionManager.Endpoint.HandleUnsubscribe` | apps/api-control-plane/app/api/routers/ws.py:160-174 | valid topics are removed and the remaining ones reported |
| `ReplayDelivery.StepConserves` | apps/api-control-plane/app/ws/manager.py:86-132 | every stretch keeps sent, in flight and still to be replayed equal to the live share plus the replayed share |
| `ReplayDelivery.RunKeepsInvariant` | apps/api-control-plane/app/api/routers/ws.py:84-140 | the conservation and audibility invariant holds after every interleaving |
| `ReplayDelivery.CopiesAreOwed` | apps/api-control-plane/app/api/routers/ws.py:84-140 | each log entry occurs exactly as often as the live subscription and the replay owe it |
| `ReplayDelivery.RunTold` | apps/api-control-plane/app/api/routers/ws.py:82-140 | told by the actions alone: the log is what was published, the requested topics are those of the first subscribe, and the snapshot saw what was published by the first snapshot after it |
| `ReplayDelivery.RunTopics` | apps/api-control-plane/app/ws/manager.py:66-74 | the subscriptions are those of the first subscribe and of the later subscribes that took effect, less those left |
| `ReplayDelivery.RunHeard` | apps/api-control-plane/app/ws/manager.py:86-101 | an event was audible exactly if its topic was subscribed to when it was published |
| `ReplayDelivery.EveryEventDelivered` | apps/api-control-plane/app/api/routers/ws.py:84-140 | after an accepted replay with its sends finished: an event has been sent twice exactly if it has a topic of the first subscribe action, lies past the cursor and was published between that subscribe and the snapshot; at least once if it has such a topic, lies past the cursor and no such topic was left; published before the subscribe exactly if requested and past the cursor; published after the snapshot exactly if its topic was subscribed to then |
| `ReplayDelivery.OnlyPublishedDelivered` | apps/api-control-plane/app/ws/manager.py:99-140 | nothing is sent that was not published |
| `ReplayDelivery.ReplayFinishes` | apps/api-control-plane/app/api/routers/ws.py:129-159 | from any point an accepted replay can end, its frames sent in order and then the live sends as they finish |
| `ReplayDelivery.RefusedOnlyWhenEvicted` | apps/api-control-plane/app/ws/manager.py:114-118 | a replay is refused exactly when more than the window had been published past the cursor by the snapshot, and live events of the first subscribe's topics published since it are still sent once |
| `TopicStream.Stream.OnEvent` | apps/desktop-tauri/src/hooks/useResumableTopicStream.ts:81-108 | other topics are ignored; the cursor becomes the event's number; a parsed payload becomes the first item, every other item moves up by one, and the last goes if the list was full; an unparsed one changes no item |
| `TopicStream.Stream.OnReplayMiss` | apps/desktop-tauri/src/hooks/useResumableTopicStream.ts:73-74 | the cursor is forgotten and nothing else changes |
| `TopicStream.Stream.OnPolled` | apps/desktop-tauri/src/hooks/useResumableTopicStream.ts:75-79 | the first `maxItems` of a poll's answer become the items, at their own indices |
| `TopicStream.Stream.OnTimerPolled` | apps/desktop-tauri/src/hooks/useResumableTopicStream.ts:133-144 | the timer's poll replaces the items the same way, by index and length, but an empty answer is ignored |
| `TopicStream.StepKeepsInvariant` | apps/desktop-tauri/src/hooks/useResumableTopicStream.ts:73-108 | every quiet step keeps the client in step and what is on its way free of holes |
| `TopicStream.ClientNeverMissesAnEvent` | apps/desktop-tauri/src/hooks/useResumableTopicStream.ts:53-108 | over every quiet run with drops and reconnects the client has exactly the topic's events from its start to its cursor, each once, in order |
| `TopicStream.GapReportsAreSpurious` | apps/desktop-tauri/src/hooks/useResumableTopicStream.ts:86-99 | no event of the topic is missing at a reported gap, and one is reported exactly when another topic was published in between |
| `TopicStream.DrainedReceivesComing` | apps/api-control-plane/app/api/routers/ws.py:95-140 | a resuming session that goes undisturbed appends to what the client received exactly what is on its way and still to be replayed |
| `TopicStream.QuietIsExact` | apps/api-control-plane/app/api/routers/ws.py:84-140 | after a publication of its topic a resuming session, left undisturbed, ends in step with the log if and only if the publication is outside the window from the subscribe to the end of the replay, or makes the replay be refused |
| `TopicStream.RefusedResyncs` | apps/desktop-tauri/src/hooks/useResumableTopicStream.ts:73-74 | a publication that evicts the cursor's successor: the event is received, the replay refused, and the client starts over without a cursor |
| `TopicStream.OvertakenReplayLosesEvents` | apps/desktop-tauri/src/hooks/useResumableTopicStream.ts:101-101 | whenever there is something to replay, an overtaking live event followed by a drop loses it for good |
| `TopicStream.OvertakingIsReachable` | apps/desktop-tauri/src/hooks/useResumableTopicStream.ts:53-53 | a quiet run of six steps reaches a world in which that happens |
| `SerializerLaw.EscapePrefixFree` | apps/desktop-tauri/src/api/modelConfigRecovery.ts:20-22 | escaped strings are told apart whatever follows their closing quote |
| `SerializerLaw.ValuePrefixFree` | apps/desktop-tauri/src/api/modelConfigRecovery.ts:15-31 | a serialized value is read back up to key order, whatever may follow it |
| `SerializerLaw.EqualTextsMeanSame` | apps/desktop-tauri/src/api/modelConfigRecovery.ts:15-31 | equal texts are the same value up to key order, for all nested values |
| `SerializerLaw.SameSerializesEqually` | apps/desktop-tauri/src/api/modelConfigRecovery.ts:26-29 | values equal up to key order have equal texts when one of them has no tied keys, for any key order |
| `SerializerLaw.TiedKeysBreakIt` | apps/desktop-tauri/src/api/modelConfigRecovery.ts:27-27 | two different keys that tie give equal objects with different texts |
| `SerializerLaw.Scrambled` | apps/desktop-tauri/src/api/modelConfigRecovery.ts:15-31 | a value with two tied keys anywhere inside has a twin, equal up to key order, with a different text |
| `SerializerLaw.OneTextExactlyWithoutTies` | apps/desktop-tauri/src/api/modelConfigRecovery.ts:15-31 | a value's text decides equality up to key order against every value if and only if no object inside it holds two tied keys |
| `SerializerLaw.CanonicalExactlyWithoutTies` | apps/desktop-tauri/src/api/modelConfigRecovery.ts:15-31 | for all values at once: exactly when no two different keys tie at all |
| `SerializerLaw.NumeralsExist` | apps/desktop-tauri/src/api/modelConfigRecovery.ts:20-22 | some printing of the finite doubles is one-to-one and yields numerals, as the laws ask |
| `SerializerLaw.CodeUnitOrderIsCanonical` | apps/desktop-tauri/src/api/modelConfigRecovery.ts:27-27 | with keys ordered by code units the serializer would be canonical |
| `SerializedText.SerializeWrites` | apps/desktop-tauri/src/api/modelConfigRecovery.ts:15-31 | what is written for each kind of value, with its literal punctuation; the members of an object in a stable sort by key |
| `SerializedText.EscapesUnit` | apps/desktop-tauri/src/api/modelConfigRecovery.ts:20-22 | quotes, backslashes, control characters and lone surrogates are escaped, the last two by four lower-case hexadecimal digits of their value unless they have a short form |
| `SerializedText.EscapesText` | apps/desktop-tauri/src/api/modelConfigRecovery.ts:20-22 | a surrogate pair stands as it is, any other code unit is escaped for itself |
| `SerializedText.NumeralUnitsAre` | apps/desktop-tauri/src/api/modelConfigRecovery.ts:20-22 | a printed number has only digits, signs, a point and an exponent mark |
| `ModelConfigRecovery.NewestFirstIsPreorder` | apps/desktop-tauri/src/api/modelConfigRecovery.ts:56-67 | the comparison by date is consistent, with undated items last |
| `ModelConfigRecovery.ExactMeansSame` | apps/desktop-tauri/src/api/modelConfigRecovery.ts:84-88 | an exact match always has an equal family and config, and finds every such item when the desired config has no tied keys |
| `ModelConfigRecovery.ExactMatchExact` | apps/desktop-tauri/src/api/modelConfigRecovery.ts:84-88 | the exact match is equality of family and of config up to key order, for all items, if and only if the desired config has no tied keys |
| `ModelConfigRecovery.FallbackAnswers` | apps/desktop-tauri/src/api/modelConfigRecovery.ts:93-97 | the fallback is the earliest of the most recently updated identity matches |
| `ModelConfigRecovery.FindEquivalentAnswers` | apps/desktop-tauri/src/api/modelConfigRecovery.ts:80-98 | for a desired config without tied keys: the first exactly equal config, else the fallback, and nothing only if neither exists |
| `ModelConfigRecovery.NormalizedMeans` | apps/desktop-tauri/src/api/modelConfigRecovery.ts:33-35 | the results of trimming and lower-casing are exactly the trimmed texts in lower case, for any lower-casing that meets the stated laws |
| `ModelConfigRecovery.NormalizeMeans` | apps/desktop-tauri/src/api/modelConfigRecovery.ts:33-39 | normalizing drops exactly the white space around a text and lower-cases what is left |
| `ModelConfigRecovery.SpacesAre` | apps/desktop-tauri/src/api/modelConfigRecovery.ts:33-39 | the code units that trimming takes for white space, one by one |
| `ModelConfigRecovery.LowerCasingExists` | apps/desktop-tauri/src/api/modelConfigRecovery.ts:33-35 | lower-casing A to Z meets those laws |
| `ModelConfigRecovery.AsciiLowerMeans` | apps/desktop-tauri/src/api/modelConfigRecovery.ts:34-34 | that lower-casing turns each of A to Z into its small letter and keeps every other code unit |
| `ModelConfigRecovery.HiddenSeparator` | apps/desktop-tauri/src/api/modelConfigRecovery.ts:38-46 | if two lists of normalized parts join equally and differ, one has a bar without white space directly beside it |
| `ModelConfigRecovery.JoinBarsExact` | apps/desktop-tauri/src/api/modelConfigRecovery.ts:38-46 | among normalized parts, the joined text determines the parts if and only if none holds a bar without white space directly beside it |
| `ModelConfigRecovery.IdentityExact` | apps/desktop-tauri/src/api/modelConfigRecovery.ts:37-47 | an item has the same identity just when its normalized family, name, version, task_type, subtask_type, data_profile and data_type agree, missing ones counting as empty, for all items, if and only if none of these texts of the desired config has a bar that could be taken for a separator |
| `ModelConfigRecovery.FieldTextMeans` | apps/desktop-tauri/src/api/modelConfigRecovery.ts:33-46 | an identity field is the normalized text of the property of that name, empty when it is missing or not a string |
| `ModelConfigRecovery.IdentitiesCollide` | apps/desktop-tauri/src/api/modelConfigRecovery.ts:37-47 | two configs of different name and version have one identity |
| `Sorting.StableSortCorrect` | apps/desktop-tauri/src/api/modelConfigRecovery.ts:94-96 | the sort is a sorted, stable permutation |
| `Sorting.StableSortUnique` | services/service-risk-exec/src/service_risk_exec/analytics.py:74-74 | any sorted, stable permutation equals it, so one sort stands for both languages' |
| `Sorting.StringLeqMeans` | apps/api-control-plane/app/api/routers/graph.py:164-166 | strings are compared by the first character in which they differ, a prefix coming first |
| `ExecutionAnalytics.Store.UpdateIncremental` | services/service-risk-exec/src/service_risk_exec/analytics.py:49-69 | after an event every field still equals its closed form over all events |
| `ExecutionAnalytics.Contributions` | services/service-risk-exec/src/service_risk_exec/analytics.py:51-68 | what each event adds to each sum, in the terms of its fields |
| `ExecutionAnalytics.PnlIsEdgeLessCosts` | services/service-risk-exec/src/service_risk_exec/analytics.py:59-60 | the PnL is the sum of realized edge times quantity, less fees, less slippage |
| `ExecutionAnalytics.Store.ReconcileFull` | services/service-risk-exec/src/service_risk_exec/analytics.py:71-75 | the events become a stable sort by time and every aggregate and exposure is as before |
| `ExecutionAnalytics.Store.MetricsSnapshot` | services/service-risk-exec/src/service_risk_exec/analytics.py:77-101 | drawdown is maximal; concentration and hit rate lie in [0, 1]; turnover is at least 1 once gross exposure is; the averages are those of the events |
| `ExecutionAnalytics.NetIsSumOfExposures` | services/service-risk-exec/src/service_risk_exec/analytics.py:54-56 | the exposures of all symbols sum to all signed notionals |
| `ExecutionAnalytics.GrossWithinNotional` | services/service-risk-exec/src/service_risk_exec/analytics.py:53-55 | gross exposure never exceeds the notional traded |
| `ExecutionAnalytics.TotalsLaws` | services/service-risk-exec/src/service_risk_exec/analytics.py:49-69 | wins and losses count the events, gross exposure bounds net exposure, the curve ends at the PnL, mae and mfe bracket zero |
| `ExecutionAnalytics.EquityAt` | services/service-risk-exec/src/service_risk_exec/analytics.py:69-69 | each curve point is the PnL of the events up to it |
| `ExecutionAnalytics.TotalsIgnoreOrder` | services/service-risk-exec/src/service_risk_exec/analytics.py:49-69 | no total depends on the order of the events |
| `ExecutionAnalytics.ReconcileLaws` | services/service-risk-exec/src/service_risk_exec/analytics.py:71-75 | reconciling is idempotent, keeps all totals, and changes the events exactly if they were out of order |
| `ExecutionAnalytics.ReconcileMovesTheCurve` | services/service-risk-exec/src/service_risk_exec/analytics.py:69-75 | the curve's end stays, and the curve stays exactly if the events were in order |
| `ExecutionAnalytics.Drawdown` | services/service-risk-exec/src/service_risk_exec/analytics.py:113-135 | one pass finds the maximum over all pairs, zero exactly when the curve never falls |
| `ExecutionAnalytics.DrawdownDependsOnOrder` | services/service-risk-exec/src/service_risk_exec/analytics.py:71-75 | reconciling two late-arriving events can turn a drawdown into none |
| `BacktestReplay.ReplayBacktest` | apps/api-control-plane/app/domain/backtest_runs/replay.py:52-156 | the loop over the events computes the ledger that all the laws of BacktestTrades and BacktestLaws describe, for every event sequence |
| `BacktestReplay.ReplayFill` | apps/api-control-plane/app/domain/backtest_runs/replay.py:95-156 | one fill's bookkeeping, with both flags recomputed from the order book by loops |
| `BacktestReplay.SumOrders` | apps/api-control-plane/app/domain/backtest_runs/replay.py:130-141 | the nested loops over orders and fills sum each order's inventory and cost |
| `BacktestTrades.DigitsMean` | apps/api-control-plane/app/domain/backtest_runs/replay.py:72-72 | a generated number is written in decimal digits without a leading zero |
| `BacktestTrades.ReplayBook` | apps/api-control-plane/app/domain/backtest_runs/replay.py:71-103 | the order book told by the events alone: under each id the last order event assigned that id, with its symbol, side, quantity and limit, and the fills since |
| `BacktestTrades.StepTrades` | apps/api-control-plane/app/domain/backtest_runs/replay.py:65-156 | an applied fill is booked as its trade says, with the limit of the order event that opened its order; any other event leaves money, positions and records alone |
| `BacktestLaws.ReplayBalanced` | apps/api-control-plane/app/domain/backtest_runs/replay.py:71-142 | positions less recorded fills, and cash less recomputed cash, are exactly the contribution of the orders overwritten |
| `BacktestLaws.FlagsReportLosses` | apps/api-control-plane/app/domain/backtest_runs/replay.py:128-142 | each flag is true exactly if what was overwritten so far is below the tolerance |
| `BacktestLaws.FlagsHoldWithoutReuse` | apps/api-control-plane/app/domain/backtest_runs/replay.py:128-142 | both flags hold at every fill when no filled order id is reused |
| `BacktestLaws.DistinctIdsLoseNothing` | apps/api-control-plane/app/domain/backtest_runs/replay.py:71-77 | with distinct explicit ids, none of the form order-N, nothing is ever overwritten: generated ids are new |
| `BacktestLaws.NothingLostExactly` | apps/api-control-plane/app/domain/backtest_runs/replay.py:71-77 | nothing is overwritten if and only if the ids assigned to the order events, given or generated, are pairwise distinct |
| `BacktestLaws.GeneratedIdCollides` | apps/api-control-plane/app/domain/backtest_runs/replay.py:72-72 | when the generated id equals a filled order's, the next fill of it reports a broken inventory |
| `BacktestLaws.CollisionIsReachable` | apps/api-control-plane/app/domain/backtest_runs/replay.py:72-72 | two events lead to that situation |
| `BacktestLaws.LedgerFigures` | apps/api-control-plane/app/domain/backtest_runs/replay.py:101-126 | filled quantity, average fill price and status follow from the order's fills, and realized PnL is minus the costs |
| `BacktestLaws.LedgerTotals` | apps/api-control-plane/app/domain/backtest_runs/replay.py:119-156 | fees, slippage, cash, realized PnL, positions and average prices are the sums and folds over the applied fills, where a fill's slippage is its absolute quantity times the distance of its price from the limit of the order event that opened its order, or nothing for a zero limit |
| `BacktestLaws.RecordsTellTrades` | apps/api-control-plane/app/domain/backtest_runs/replay.py:144-156 | every applied fill emits one position event and one PnL event, and each shows the totals over the fills up to it, with that fill's symbol, ids and timestamp |
| `BacktestLaws.SlippageNeverFalls` | apps/api-control-plane/app/domain/backtest_runs/replay.py:121-123 | slippage is never negative and never falls along a replay |
| `BacktestLaws.DecisionsListed` | apps/api-control-plane/app/domain/backtest_runs/replay.py:67-69 | the decisions are listed in order |
| `BacktestLaws.AveragePriceMeans` | apps/api-control-plane/app/domain/backtest_runs/replay.py:109-116 | a fill on the side of the position gives the weighted average, one against it leaves the average, even when it turns the position round, and below 1e-12 it is zero |
| `BacktestLaws.PositionIsSumOfFills` | apps/api-control-plane/app/domain/backtest_runs/replay.py:109-117 | a symbol's position is the sum of its signed fills |
| `BacktestLaws.AverageBetweenExactlyWithoutDust` | apps/api-control-plane/app/domain/backtest_runs/replay.py:109-117 | for positive fill prices between two bounds: at every point of the replay the average price of a position that is not flat lies between them, through reductions and flips, if and only if the position is never dust |
| `BacktestLaws.AverageBetweenFillPrices` | apps/api-control-plane/app/domain/backtest_runs/replay.py:109-117 | in lots of at least 1e-12 there is no dust, and the average price is always between the fill prices |
| `BacktestLaws.OneSidedAverage` | apps/api-control-plane/app/domain/backtest_runs/replay.py:109-117 | a position built by fills of one direction, and never dust, is priced at exactly their weighted average |
| `BacktestLaws.DustIsUnpriced` | apps/api-control-plane/app/domain/backtest_runs/replay.py:112-113 | in every replay a position that is dust has the average price zero |
| `BacktestLaws.DustIsReachable` | apps/api-control-plane/app/domain/backtest_runs/replay.py:112-113 | an order and its fill of any quantity below 1e-12 leave such a position |
| `BacktestLaws.OnlyRelevantEventsMatter` | apps/api-control-plane/app/domain/backtest_runs/replay.py:65-94 | deleting all decisions and all unmatched fills changes only the list of decisions |
| `BacktestLaws.PrefixesAgree` | apps/api-control-plane/app/domain/backtest_runs/replay.py:65-156 | replaying a prefix yields prefixes of the emitted lists |
| `MarketData.CacheCoverage` | apps/api-control-plane/app/persistence/repositories.py:614-632 | the least start and the greatest end of a symbol's partitions, or none |
| `MarketData.HullDecidesCoverage` | apps/api-control-plane/app/api/routers/training_runs.py:118-124 | the hull test is coverage by some partition on either side |
| `MarketData.Repository.RequestIngestion` | apps/api-control-plane/app/persistence/repositories.py:476-551 | the tables and the answer are those of the specification that `IngestOutcome` describes, partitions added one by one |
| `MarketData.IngestOutcome` | apps/api-control-plane/app/persistence/repositories.py:477-551 | accepted exactly when neither key nor dataset id is taken; nothing stored is touched; one row and one partition a symbol are added; every row carries its own spec's id |
| `MarketData.AcceptedRecords` | apps/api-control-plane/app/persistence/repositories.py:478-541 | an accepted request records, in its row and in one partition a symbol, the symbols asked for, the first resolution asked for (else the timeframe, else 1d) and the dates |
| `MarketData.SpecMeans` | apps/api-control-plane/app/domain/market_data/spec.py:19-31 | the canonical spec has the request's own fields, with members and resolutions sorted and without repetition |
| `MarketData.SameIdMeansSameData` | apps/api-control-plane/app/domain/market_data/spec.py:19-42 | dataset ids are equal exactly for the same data, whatever the order, repetition or legacy spelling |
| `MarketData.ResubmissionChangesNothing` | apps/api-control-plane/app/persistence/repositories.py:482-497 | after a request without a key, asking again for the same data is answered `already_exists` and changes nothing |
| `MarketData.ResubmissionExact` | apps/api-control-plane/app/persistence/repositories.py:482-497 | after any accepted request, asking again for the same data is refused exactly when the first was recorded under the dataset id, both have one key, or the second key was taken; otherwise the data is recorded again |
| `MarketData.KeyedThenKeyless` | apps/api-control-plane/app/persistence/repositories.py:482-497 | from empty tables, the same data first under a key and then without one is accepted twice and gets two rows |
| `TrainingReadiness.BuildMissingChunks` | apps/api-control-plane/app/api/routers/training_runs.py:107-126 | exactly the requested pairs that are not covered over the window |
| `TrainingReadiness.GroupsHoldChunks` | apps/api-control-plane/app/api/routers/training_runs.py:467-469 | the groups hold exactly the missing chunks, none empty |
| `TrainingReadiness.RequestMissing` | apps/api-control-plane/app/api/routers/training_runs.py:464-483 | one ingestion request a resolution, in order of first appearance |
| `TrainingReadiness.ChunkIngested` | apps/api-control-plane/app/api/routers/training_runs.py:472-483 | one such request covers exactly its chunks over the window unless its id is taken |
| `TrainingReadiness.LoopFillsGapsUnlessTaken` | apps/api-control-plane/app/api/routers/training_runs.py:464-483 | whatever the catalog holds: nothing covered is lost, and everything is covered if and only if the catalog held no request's id, which is if and only if every request was accepted |
| `TrainingReadiness.LoopLeavesNothingMissing` | apps/api-control-plane/app/api/routers/training_runs.py:452-483 | when every taken id has its partitions, every request is accepted and nothing is missing afterwards |
| `TrainingReadiness.EnsureData` | apps/api-control-plane/app/api/routers/training_runs.py:451-483 | the whole step on the real tables: everything is covered afterwards exactly if the catalog held none of the ids before |
| `TrainingReadiness.IngestKeepsBacked` | apps/api-control-plane/app/persistence/repositories.py:482-541 | an ingestion whose key is not another dataset's id keeps every taken id backed by its partitions |
| `TrainingReadiness.HistoryBacked` | apps/api-control-plane/app/persistence/repositories.py:476-551 | every history of such ingestions from empty tables leads to a backed catalog |
| `TrainingReadiness.HistoryLeavesNothingMissing` | apps/api-control-plane/app/api/routers/training_runs.py:452-483 | after every such history the loop's requests are all accepted and nothing is missing |
| `TrainingReadiness.KeyOfOtherDataLeavesGap` | apps/api-control-plane/app/persistence/repositories.py:482-497 | one ingestion under a key equal to the id that the loop will ask for: the loop leaves the gap |
| `TrainingReadiness.TakenMeansCovered` | apps/api-control-plane/app/persistence/repositories.py:482-486 | with a backed catalog a taken id means that a chunk of its request was covered |
| `TrainingReadiness.HullIgnoresHoles` | apps/api-control-plane/app/persistence/repositories.py:614-632 | two ingestions from empty tables after which a window counts as covered although no partition holds a day inside it |
| `JobState.LatestIsGreatest` | apps/api-control-plane/app/persistence/repositories.py:213-224 | the latest event is the greatest of its job by time and then by row |
| `JobState.AppendedIsLatest` | apps/api-control-plane/app/persistence/repositories.py:197-224 | a persisted event is the latest of its job exactly if none before it is later on the clock |
| `JobState.ClockStepsBack` | apps/api-control-plane/app/api/routers/jobs.py:219-220 | with an earlier time the table's latest event is not the cached one |
| `JobState.Jobs.Record` | apps/api-control-plane/app/api/routers/jobs.py:219-220 | caching and persisting keep every cached event the table's latest, up to the truncation of progress |
| `JobState.Persisted` | apps/api-control-plane/app/persistence/repositories.py:197-209 | the table keeps every field of an event except that its progress is truncated toward zero |
| `JobState.Jobs.Create` | apps/api-control-plane/app/api/routers/jobs.py:62-116 | an accepted job is queued, cached and the table's latest, and its envelope remembered; an unknown type changes nothing |
| `JobState.Jobs.Get` | apps/api-control-plane/app/api/routers/jobs.py:147-169 | the answer is the table's latest event whether the cache is warm or empty |
| `JobState.Jobs.Publish` | apps/api-control-plane/app/api/routers/jobs.py:192-221 | an update of a known job becomes its latest event, keeping trace and run unless given |
| `JobState.Jobs.FinishPublish` | apps/api-control-plane/app/api/routers/jobs.py:223-255 | only a successful training or backtest run with an id that fails the gate is forced to failed, in the cache and in the table; nothing else changes anything |
| `JobState.Jobs.Cancel` | apps/api-control-plane/app/api/routers/jobs.py:304-357 | a queued, waiting or running job is cancelled, keeping its other fields; any other is a conflict |
| `JobState.Jobs.ResolveRetryEnvelope` | apps/api-control-plane/app/api/routers/jobs.py:119-144 | the remembered envelope, else one rebuilt from the row of a training run, else none |
| `JobState.Jobs.Retry` | apps/api-control-plane/app/api/routers/jobs.py:360-446 | a failed or cancelled job with a known or rebuilt envelope is queued again under the new id; the old job's status stays |
| `JobState.Jobs.Restart` | apps/api-control-plane/app/jobs/store.py:8-53 | losing the in-memory stores loses no status |
| `RunArtifacts.Artifacts.AddSummary` | apps/api-control-plane/app/persistence/repositories.py:260-315 | a known artifact of the run is refreshed in place; a new one gets the reference shared by its checksum; deduplication holds |
| `RunArtifacts.Artifacts.PruneOldIntermediates` | apps/api-control-plane/app/persistence/repositories.py:348-357 | exactly the intermediate rows older than the cutoff go, their number is reported, deduplication holds |
| `RunArtifacts.Artifacts.GetForJob` | apps/api-control-plane/app/persistence/repositories.py:329-346 | the row of the job is touched and returned; no other row changes |
| `RunArtifacts.KeptAreTheFresh` | apps/api-control-plane/app/persistence/repositories.py:350-357 | what is kept is exactly what is not stale, and kept and removed add up |
| `RunArtifacts.KeptDeduplicated` | apps/api-control-plane/app/persistence/repositories.py:350-355 | pruning keeps one row a run, type and checksum, and one reference a checksum |
| `RiskGuard.RuntimeRiskGuard.Evaluate` | services/service-risk-exec/src/service_risk_exec/guards.py:54-90 | the new state and the decision are those of the specification that `GuardCounts`, `NoBreachMeans` and `ApprovedExactlyWithinLimits` describe in closed form |
| `RiskGuard.BreachedRules` | services/service-risk-exec/src/service_risk_exec/guards.py:72-81 | the rules broken, in order, average slippage being per order |
| `RiskGuard.Service.ConsumeIntent` | services/service-risk-exec/src/service_risk_exec/main.py:272-294 | any guard action overrides an approval; approvals are counted before that; a block and a de-risking move their own counter, authorized or not |
| `RiskGuard.GuardCounts` | services/service-risk-exec/src/service_risk_exec/guards.py:67-70 | at any point of a run the state is the strategy's requested quantity, slippage and number of intents |
| `RiskGuard.ApprovedExactlyWithinLimits` | services/service-risk-exec/src/service_risk_exec/main.py:279-290 | every intent of every run is approved exactly if it was authorized and is within its strategy's limits, counting all it asked for so far |
| `RiskGuard.NoBreachMeans` | services/service-risk-exec/src/service_risk_exec/guards.py:72-90 | no action exactly within all four limits, de-risking exactly on a drawdown breach |
| `RiskGuard.ApprovedStaysWithinTurnover` | services/service-risk-exec/src/service_risk_exec/main.py:272-294 | over a whole run the approved quantity of a strategy stays within its turnover limit if and only if that is not negative, and never exceeds zero otherwise |
| `RiskGuard.BreachedTurnoverRefusesAll` | services/service-risk-exec/src/service_risk_exec/guards.py:68-78 | once the limit is passed every later intent of the strategy is refused |
| `RiskGuard.StrategiesAreIndependent` | services/service-risk-exec/src/service_risk_exec/guards.py:63-70 | a strategy's state and answers are those of a run of its own intents alone |
| `RiskGuard.InactiveChangesNothing` | services/service-risk-exec/src/service_risk_exec/guards.py:86-88 | the inactive mark does not change any later decision |
| `WorkerQueue.StepConserves` | services/worker-training/src/worker_training/main.py:154-169 | every step of either worker keeps each payload in exactly one place |
| `WorkerQueue.EveryPayloadInOnePlace` | services/worker-research/src/worker_research/main.py:89-104 | in every interleaving everything enqueued is queued, held, handled or dropped exactly once, handled only by its type's worker, dropped only if malformed |
| `WorkerQueue.SkippedGoToTheBack` | services/worker-training/src/worker_training/main.py:165-168 | non-matching payloads in front go to the back in order, malformed ones vanish, nothing else moves |
| `WorkerQueue.FirstMatchIsReached` | services/worker-training/src/worker_training/main.py:154-169 | alone, a worker handles its first match after exactly as many turns as stand before it, with as many push-backs exactly when none of those is malformed |
| `WorkerQueue.PushedBackCount` | services/worker-training/src/worker_training/main.py:160-168 | as many are pushed back as were skipped if and only if none of them is malformed |
| `WorkerQueue.WellFormedAllPushedBack` | services/worker-training/src/worker_training/main.py:165-168 | well-formed payloads in front are pushed back as they stood |
| `WorkerQueue.WorkerLoop.RunWorker` | services/worker-research/src/worker_research/main.py:89-104 | any number of rounds of the loop leave the queue, the handled and the dropped payloads as that many turns of the state machine do |
| `ParameterLineage.Repository.Create` | apps/api-control-plane/app/domain/parameter_sets/repository.py:15-20 | a new id is stored, refused only for an existing id or, where the foreign key is enforced, a missing parent; every walk still ends exactly unless the row closes a cycle |
| `ParameterLineage.Repository.CloneSet` | apps/api-control-plane/app/api/routers/parameter_sets.py:44-66 | a clone has its source as parent, the source's model config, and the source's fields unless overridden |
| `ParameterLineage.Repository.ListLineage` | apps/api-control-plane/app/domain/parameter_sets/repository.py:30-40 | the walk ends and gives the parent chain down to the set, without repeats, from a set whose parent is none or not stored, and from a root where the foreign key is enforced; nothing for an unknown id |
| `ParameterLineage.StoreKeepsLineages` | apps/api-control-plane/app/domain/parameter_sets/repository.py:15-40 | storing a new row keeps a lineage for every set if and only if it is neither its own parent nor the missing parent at the top of its parent's lineage |
| `ParameterLineage.OnlyItselfCloses` | apps/api-control-plane/app/domain/parameter_sets/repository.py:15-20 | under an enforced foreign key only a row that is its own parent closes a cycle |
| `ParameterLineage.TwoStoresCloseCycle` | apps/api-control-plane/app/domain/parameter_sets/repository.py:15-40 | without it, two accepted stores from the empty table leave sets without a lineage |
| `ParameterLineage.FreshClosesNoCycle` | apps/api-control-plane/app/api/routers/parameter_sets.py:55-65 | an id that nothing names yet closes no cycle |
| `ParameterLineage.LineageUnique` | apps/api-control-plane/app/domain/parameter_sets/repository.py:30-40 | a set has only one lineage |
| `ParameterLineage.ClonesShareTheirModelConfig` | apps/api-control-plane/app/api/routers/parameter_sets.py:55-64 | along clone links every set of a lineage has the model config of its top |

## Left out

- HTTP routing, request validation, SQL sessions and transactions, Redis and WebSocket transport, authentication, health probes, migrations and UI pages.
- Rounding of emitted records and floating-point error; the square root of the calibration metric.
- The request's depth range of 1 to 6: the search is proved for every natural depth.
- Heartbeats, `ping`, invalid JSON and unsupported actions at the WebSocket endpoint: one frame each, no state.
- ConnectionManager.Endpoint.HandleReplay: gives the frames of a replay in order; their interleaving with live sends is the subject of ReplayDelivery.
- TopicStream.ClientNeverMissesAnEvent: assumes that frames reach one client in the order in which they were sent, and needs the quiet condition, without which `TopicStream.OvertakenReplayLosesEvents` applies.
- ExecutionAnalytics.Drawdown: leaves out the duration and the recovery index, for which the code fixes no clean meaning.
- ExecutionAnalytics.Store.UpdateIncremental: the plain running sums are one field of a record type, with the win and loss counts as reals.
- Sparse arrays and inherited properties in configs, which JSON values do not have.
- `validate_replay`, a comparison of four components.
- `lookup_dataset`, ingestion listings and response metadata of the market-data catalog.
- Run rows updated beside job events, broadcasts and the queue hand-over of job handlers.
- Concurrent `add_summary` calls in separate transactions: each table operation is one step.
- ExecutionAnalytics.Store.MetricsSnapshot: leaves out PnL attribution, latencies, the root of the calibration error, and the drawdown's duration and recovery.
- Attempt counting and time-outs inside `handle_with_timeout`, and the orchestrator, which pops the same queue without looking at the type.
- The alert ladder, circuit breaker, order router, fill models, strategy thresholds, layout and time-series tiles.
