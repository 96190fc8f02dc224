# skyscanner-optimum in Dafny

A model of the flight-search core of *skyscanner-optimum*, a service that finds
the cheapest flight over a range of departure dates and, for round trips, a
range of stay lengths.

The search runs in two forms:

- **Distributed.** An orchestrator (`FlightQuery`) expands a query into a date x
  stay matrix. It sends one sub-query per cell through a message broker, and
  rotates the gateway credentials round-robin. A *Maker* worker creates one
  gateway session per sub-query. It retries rejected requests, with an error
  counter that resets after `API_MAX_ERRORS` = 50. A *Poller* worker polls that
  session until the gateway reports `UpdatesComplete`. It then reduces the
  results to the best direct flight and the best flight with stops, and replies.
  The orchestrator counts matching replies down. When the count reaches zero it
  calls back once with both lists, sorted by price.
- **Sequential.** A command-line search does the same in one process. It
  creates every session first, then polls each in turn. Its error counters are
  never reset.

A small task pool (`Worker`) runs searches in the background, one at a time.
Tasks can be removed while queued.

Modules, in dependency order:

| module | what it holds |
|---|---|
| `Wrappers` | `Option`, `Result`, the escaping Python exceptions (`Error`), and `LoopEnd` (done, crashed, or still waiting when the gateway's answers run out) |
| `Text` | `str.split` on one character, its inverse `join`, and `split(d)[-1]` |
| `Sorting` | Python's stable `list.sort` by an integer key, as insertion sort, with the stability property and its uniqueness |
| `Matrix` | the date x stay-length cells of a search, in day-major order |
| `Reducer` | `get_best_flight`: the first cheapest pricing option over the qualifying itineraries |
| `Gateway` | the gateway's answers as data, and the resetting error counter |
| `Legs` | the carrier-name map, the split of legs into direct legs and legs with stops, and `poll_results` |
| `Messages` | sub-queries, replies and published messages |
| `Maker`, `Poller` | the two worker callbacks |
| `Orchestrator` | `FlightQuery`: dispatch, the reply callback and the wait loop |
| `Sequential` | the command-line `create_session`, `fill_data` and the two searches |
| `TaskPool` | `Worker`: ids, the queue, removal and the dispatcher |

Side effects are modelled as data:

- The gateway's answers are given as a finite sequence, consumed in order.
  When a retry loop runs out of answers, it ends in `Waiting`. The source would
  keep waiting.
- An exception that escapes becomes `Crashed(error)` or `Failure(error)`.
- Publishing a message is an `Effect` value.
- The reply queue is a sequence of delivered messages.

Dates are day ordinals, so `current + timedelta(days=i)` is `current + i`.
`str(date)` is a function parameter (`dateText`). Prices are integers.

## Model

| member | source | states |
|---|---|---|
| `Text.Split` | skyscanner.py:52 | `split` returns at least one piece, and no piece contains the separator |
| `Text.JoinSplit` | api/maker.py:56 | joining the pieces of a split with the separator gives the original text back, so splitting loses nothing |
| `Text.SplitJoin` | api/maker.py:25-34 | splitting a separator-joined list of separator-free fields gives exactly those fields back, so the `&`-joined form can be read back field by field |
| `Text.LastPiece` | skyscanner.py:52 | `split('/')[-1]` is the suffix after the last `/`: it holds no `/`, and it is preceded by a `/` unless it is the whole text |
| `Sorting.SortBy` | api/skyscanner.py:81-82 | the sort result is ordered by key, is a permutation of the input, and keeps every group of equal keys in input order (stability) |
| `Sorting.StableSortIsUnique` | skyscanner.py:171-172 | any ordered list with the same equal-key groups as the input is the stable sort, so sortedness and stability fix the output |
| `Matrix.CellCount` | skyscanner.py:182-193 | a search over `[start, end]` makes days x (max - min + 1) sessions, or one per day for a one-way trip |
| `Matrix.CellsAreTheMatrix` | skyscanner.py:176-193 | a cell is generated exactly when its day is in `[start, end]` and its stay is in `[min_days, max_days]`; one-way cells have no stay |
| `Matrix.CellsAscend` | skyscanner.py:151-161 | cells are produced in strictly increasing day-major, then stay order, so no sub-query is sent twice |
| `Reducer.ImproveWithOptions` | api/poller.py:34-42 | the pricing-options loop of a qualifying itinerary replaces the best so far only by a strictly cheaper option, carrying the union of its legs' carriers; this continues the fold over the candidate list |
| `Reducer.GetBestFlight` | api/poller.py:21-44 | the reducer returns nothing exactly when no qualifying itinerary has a pricing option; otherwise it returns the first candidate of least price |
| `Reducer.ScanFindsFirstCheapest` | skyscanner.py:83-91 | a fold with a strict `<` finds nothing on an empty list; otherwise it finds a candidate that no candidate undercuts and that every earlier candidate strictly exceeds |
| `Reducer.CandidatesAreOptions` | skyscanner.py:73-87 | the candidates are exactly the pricing options of itineraries whose outbound leg, and truthy inbound leg, are in the map, each with its itinerary's carriers |
| `Reducer.BestIsCheapestOption` | skyscanner.py:70-93 | the best flight exists exactly when some qualifying itinerary has an option; its price is one of those options, no qualifying option is cheaper, and its carriers are its itinerary's |
| `Reducer.TieKeepsFirst` | api/poller.py:35 | an option at the current best price does not replace it: ties keep the first one seen |
| `Gateway.Bump` | api/poller.py:65-69 | the workers' error counter never exceeds 50; from an in-range value it moves to `(attempts + 1) mod 51` |
| `Gateway.BumpIsSuccessorMod` | api/base.py:8 | incrementing and resetting past `API_MAX_ERRORS` is counting modulo 51 |
| `Gateway.BumpCountsRejection` | api/maker.py:46-52 | each rejected create answer adds one to the rejection count, and moves the Maker's counter to the new count mod 51 |
| `Gateway.BumpCountsAnswer` | api/poller.py:64-69 | each parsed poll response adds one to the answer count, and moves the Poller's counter to the new count mod 51 |
| `Legs.CarrierNames` | api/poller.py:75-77 | the name map holds exactly the carrier ids, and a repeated id maps to the name of its last carrier |
| `Legs.LegCarriers` | api/poller.py:81 | a leg's carrier names are found exactly when every carrier id is known (else `KeyError`), in leg order |
| `Legs.PartitionLegs` | api/poller.py:79-85 | the loop raises `KeyError` exactly when some leg has an unknown carrier; otherwise each map holds exactly the ids of the legs of its kind, with the names of the last such leg |
| `Legs.PartitionSplitsLegs` | skyscanner.py:131-137 | with distinct leg ids, each leg is in exactly one map (direct when it has no stops), with its own carrier names |
| `Legs.PollResults` | skyscanner.py:127-142 | after the responses are fetched, `poll_results` returns the reducer's answer over each partition, and fails exactly when some leg has an unknown carrier (the fetching by `fill_data` is `Sequential.PollSessionResults`) |
| `Maker.FieldsHaveNoSeparator` | api/maker.py:25-34 | no form field contains `&` when the place ids and rendered dates do not |
| `Maker.InboundFieldIffEndDate` | api/maker.py:33-34 | an `inboundDate` field is present exactly when the sub-query has an `end_date` |
| `Maker.PayloadDecodes` | api/maker.py:25-34 | splitting the sent payload on `&` gives exactly the form fields in order, and an `inboundDate` field appears exactly for sub-queries with an end date |
| `Maker.CreateWithRetry` | api/maker.py:42-54 | the retry loop ends at the first answer whose body is exactly `{}`; every earlier answer was a rejection; the counter is the rejection count mod 51; a transport exception escapes |
| `Maker.Token` | api/maker.py:56 | the session token is the last `/`-separated piece of `Location` |
| `Maker.CreateSession` | api/maker.py:22-67 | on success the Maker publishes exactly one poll request and then acknowledges. The request goes to `poll`, keeps the correlation id, reply-to and sub-query, and carries the token of the first accepted answer. It crashes only after rejections alone: at a raised request (the transport error) or at an accepted answer without `Location` (`KeyError`) |
| `Poller.PollUntilComplete` | api/poller.py:56-69 | transport exceptions are skipped without counting, but a body that is not JSON escapes as `ValueError`, since `json.loads` is outside the `try`. Polling ends at the first `UpdatesComplete` answer, and waits forever exactly when every answer is a skipped exception or a parsed incomplete one. The counter is the parsed-answer count mod 51 |
| `Poller.PollSession` | api/poller.py:46-101 | a reply carries the best pair of the first complete answer's session and the unchanged sub-query. It goes to `reply_to` with the same correlation id, followed by an acknowledgement. A body that is not JSON raises `ValueError`; an unknown carrier raises `KeyError` |
| `Orchestrator.SendStays` | api/skyscanner.py:99-106 | the stay loop sends one request per stay in `[min_days, max_days]`, numbering each with the pending counter |
| `Orchestrator.Execute` | api/skyscanner.py:88-111 | dispatch fails exactly when the date range is non-empty and either there is no credential (`ZeroDivisionError`) or a round trip lacks `max_days` (`TypeError`). Otherwise it sends one request per matrix cell, in order, and the pending count rises by their number |
| `Orchestrator.CellStayIffRoundTrip` | api/skyscanner.py:98-109 | a dispatched cell has a stay length exactly when `min_days` is truthy |
| `Orchestrator.RequestsRoundRobin` | api/skyscanner.py:92-103 | the k-th request uses credential `k mod len(api_keys)` and carries the orchestrator's correlation id and reply queue. Its end date is present exactly for round trips, and equals start + stay |
| `Orchestrator.DispatchCount` | api/skyscanner.py:91-111 | the number of requests is the number of days for a one-way trip, and days x stay lengths for a round trip |
| `Orchestrator.CollectedResults` | api/skyscanner.py:57-79 | a result comes from exactly one reply with a best flight of its kind and carries that reply's price, carriers and query. Its end date is absent exactly for one-way sub-queries. Every such reply contributes |
| `Orchestrator.FinalizedList` | api/skyscanner.py:81-83 | each list handed to the callback is sorted by price, is a permutation of the collected results, and keeps equal prices in arrival order |
| `Orchestrator.FinalizedListIsUnique` | api/skyscanner.py:126-127 | no other price-sorted arrangement of the collected results keeps equal prices in arrival order |
| `Orchestrator.Deliver` | api/skyscanner.py:51-86 | a foreign message changes neither the results nor the count. A matching reply is appended and counts one down. The correlation id, credentials, reply queue and search never change. The callback fires exactly when the count reaches zero on an open orchestrator, with the finalized lists, and closes it |
| `Orchestrator.AwaitStarved` | api/skyscanner.py:113-114 | with fewer matching replies than outstanding sub-queries, the wait loop consumes everything, never calls back, and stays open |
| `Orchestrator.AwaitFires` | api/skyscanner.py:51-84 | with enough matching replies, the callback fires exactly once, on the N-th match, and the orchestrator ends closed with nothing pending |
| `Orchestrator.AwaitRecords` | api/skyscanner.py:52-54 | the results are exactly the matching replies consumed, in arrival order |
| `Orchestrator.SearchCallsBackOnce` | api/skyscanner.py:88-114 | after N requests, N matching replies cause exactly one callback (none when N = 0), with the finalized lists of exactly those N replies |
| `Orchestrator.FreshQueryCallsBackOnce` | api/skyscanner.py:11-19 | a freshly constructed query (no pending sessions, no results), after `execute` sent one request per matrix cell, makes the callback fire once with exactly as many matching replies, or never for an empty matrix |
| `Sequential.SessionPayloadInbound` | skyscanner.py:21-31 | a round-trip cell, and only such a cell, adds an `inboundDate` field, whose date is the departure day plus the stay |
| `Sequential.CreateSession` | skyscanner.py:18-53 | every attempt sends the form built from its arguments. The loop ends at the first `{}` answer, with the token of its `Location` (`KeyError` if absent); a transport exception escapes. The counter equals the number of rejections, never reset, and each rejection past 50 costs a refresh wait |
| `Sequential.FillData` | skyscanner.py:96-121 | polling ends at the first `UpdatesComplete` answer; every parsed answer is counted and never reset; a transport exception escapes, and so does a body that is not JSON (`ValueError`) |
| `Sequential.CounterNeverResets` | skyscanner.py:45-48 | after n rejections the command-line counter is n, and every rejection past 50 adds one refresh wait |
| `Sequential.RowsAreTheFoundFlights` | skyscanner.py:163-168 | a row is produced exactly for each session with a best flight of that kind, carrying its day, stay, price and carriers |
| `Sequential.CreateAll` | skyscanner.py:151-161 | the k-th `create_session` sends the form of the k-th cell. A finished loop yields one token per cell, the tokens of the accepted answers in order, having consumed no raised answer and no accepted one without `Location`. It waits only when all answers are used, all clean, with fewer acceptances than cells; it crashes at the first raised answer or accepted one without `Location`, before the last token |
| `Sequential.FormsAre` | skyscanner.py:182-192 | the creation loop's forms, one per cell in day-major order: the k-th is the payload of the k-th cell's sub-query, with the cell's return date |
| `Sequential.PollSessionResults` | skyscanner.py:124-142 | `poll_results` gives the best pair of the first complete answer; it fails with `KeyError` on an unknown carrier, with the transport error when the client raises, and with `ValueError` on a body that is not JSON |
| `Sequential.PollAll` | skyscanner.py:195-201 | the polling loop yields, per session in order, the best pair of the next complete answer, having consumed only parsed answers. It waits only when all answers are used and parsed, with fewer complete ones than sessions; it crashes at the first raised, non-JSON or unresolvable answer, with the pairs found before it |
| `Sequential.Search` | skyscanner.py:176-205 | the k-th session is created with the k-th cell's form. A finished search returns, for both kinds, the price-sorted rows of the sessions with a best flight, one session per matrix cell, and its last poll consumed was a complete answer; a search that waits or crashes stopped in the creation loop or, after every session was created, in the polling loop, for the reasons those loops give |
| `Sequential.SearchOutput` | skyscanner.py:203-204 | the output lists are sorted by price, are permutations of the rows, and keep equal prices in day, then stay order |
| `TaskPool.NewPoolIsValid` | worker.py:6-11 | a new pool is valid, with id 0 next and nothing started |
| `TaskPool.AddTask` | worker.py:25-30 | `add_task` returns the counter and advances it; the job joins the queue tail, and its id joins the unfinished set |
| `TaskPool.RemoveTask` | worker.py:32-34 | `remove_task` marks exactly the unfinished ids and changes nothing else |
| `TaskPool.Take` | worker.py:15-22 | the dispatcher takes the queue head: a marked id is discarded and its mark cleared, otherwise the job starts. Nothing happens while a job runs or the queue is empty |
| `TaskPool.Finish` | worker.py:23 | a finished job's id leaves the unfinished set |
| `TaskPool.DaemonStep` | worker.py:13-23 | one dispatcher iteration takes the head job off the queue and keeps the id counter: it starts and finishes an unmarked head job, or discards a marked one and clears its mark. An unmarked head leaves the marks alone. An empty queue leaves the pool unchanged |
| `TaskPool.StepKeepsValid` | worker.py:13-34 | every add, remove, take or finish keeps the pool valid: queued ids are increasing, unfinished and above every started id |
| `TaskPool.RunKeepsValid` | worker.py:6-34 | any interleaving of operations from a valid pool stays valid |
| `TaskPool.AddIdsCount` | worker.py:26-27 | the ids returned by `add_task` are the counter's successive values, one per call |
| `TaskPool.StartedOnce` | worker.py:15-21 | no job is started twice |
| `TaskPool.CancelledNeverStarts` | worker.py:16-17 | a task removed while it waits is never started, whatever happens afterwards |
| `TaskPool.AddThenRemoveCancels` | worker.py:32-34 | removing a task before the dispatcher takes it cancels it |
| `TaskPool.DiscardedIdStaysUnfinished` | worker.py:16-17 | a discarded id stays in `current_tasks`, so a later `remove_task` marks it again although it is neither queued nor running |

## Left out

- HTTP requests, JSON encoding and decoding, and `get_place` (api/base.py:35-46, skyscanner.py:56-67) are left out. The gateway is a sequence of answers; a response body is its text, `Location` header and parsed fields, or `PollMalformed` when `json.loads` would reject it.
- The broker wiring is left out: `pika` connections, queue declarations, consumers and `basic_ack` delivery tags. Routing keys are recorded as written. The orchestrator publishes to `skyscanner-make` on the default exchange, while the Maker binds `make` on the configured exchange. The model does not check that a message can reach its consumer.
- Sleeps and clocks are left out (`API_WAIT_TIME`, `API_REFRESH_TIME`, `POLLER_WAIT_TIME`). Only the error counters and the number of refresh waits are modelled.
- Threads are left out. The task pool's operations are atomic steps, interleaved freely. The dispatcher iteration is split into `Take` and `Finish` around the running job. `add_task` puts the job on the queue before it adds the id to `current_tasks`. That race is not modelled: both happen in one step.
- Prices are integers; the source's prices are JSON floats.
- `uuid4()` becomes the `uuid` parameter.
- `str(date)` becomes the `dateText` parameter.
- `Result.__str__`, logging, `print`, `bot.py`, `model.py` and `main()` are left out.
- `Reducer.BestFlight`'s carriers are a set. The Poller returns them as a tuple in set order, which is unspecified.
- Gateway responses are assumed to have the `Itineraries`, `Legs` and `Carriers` keys, and every itinerary its `OutboundLegId` and `PricingOptions`. A missing one would raise `KeyError` in the source.
- A gateway that never answers, or never completes, is modelled by running out of answers (`Waiting`); the source loops forever.
- `Orchestrator.Deliver`: requires every message with the orchestrator's correlation id to be a Poller reply, since only Pollers write to its private queue. A malformed one would raise in the source.
- `Orchestrator.Await`: its own contract only bounds the messages consumed and keeps the correlation id. Its behaviour is stated by `AwaitStarved`, `AwaitFires`, `AwaitRecords` and `SearchCallsBackOnce`.
- `Poller.PollSession`: a request without `reply_to` is modelled as a `TypeError` from `basic_publish`. This is a choice; the client library's behaviour is not part of this model.
- `Maker.CreateSession` and `Sequential.CreateSession`: a transport exception escapes the retry loop and is not retried, because only `try`/`finally` surrounds the request (api/maker.py:43-54, skyscanner.py:40-50). Only the Poller catches it and skips the cycle (api/poller.py:58-63).
- `TaskPool.RemoveTask`: `remove_task` marks any id still in `current_tasks`, including a running task and one already discarded (worker.py:32-34). A mark on a running task is never consumed.
- `Sequential.Search` and `Poller.PollSession`: no contract says which session a poll addresses. `search` polls with `tokens[k]` (skyscanner.py:195-196) and the Poller with the forwarded `location` (api/poller.py:48), but the gateway model answers from a sequence that takes no key, so `Search` hands the polling loop only the number of tokens and `PollSession` does not read the location.
- The task pool runs a single dispatcher thread (worker.py:11), and the model has one dispatcher.
