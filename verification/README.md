# Verified models of FlexiQ's stores, mesh and bridges

This project models the parts of FlexiQ where correctness spans several operations or several
clients, and proves what those parts are for:

- the workflow store, once as SQL tables and once as Redis hashes with hand-kept indexes;
- the consistent-hash ring, the mesh membership that must agree with it, the work-stealing deque and
  the loop that pumps jobs through it;
- the readiness computation that drives a DAG run;
- keyed publishing, the placeholder rewrite for Postgres, the batch framing of the C interface, the
  Node batcher and the Java completion registry.

`dafny verify dfyconfig.toml` checks everything.

## How it is built

A component that updates fields in place is a class whose methods are proved equal to functions on
values; the theorems are about those functions, over every input, every sequence of calls or every
interleaving. A protocol between concurrent clients is a state machine over the steps at which
another client may come in between.

- `TableStore` is the store as SQL states it, one function per statement over three tables.
  `RedisStore` is the same operations over hashes, sorted sets and sets; `RedisClient` performs them
  as commands against a shared key space. Both take the namespace of the store that calls them.
- `Refinement` says exactly when the two backends do the same. `Refinement.Portable` is a condition on
  the table and the operation alone, so a caller could check it first.
- `TableIsolation` and `RedisIsolation` project a store onto one namespace.
- `ReadBack` tells what every operation does by what is read back afterwards, and `Listing` what a page holds, row
  by row. `Lifecycle` gives the lives the transition table allows a run.
- `PageWalk` is the keyset walk over whatever a listing shows; `StoreWalk` and `RedisWalk` run it through
  the two backends.
- `StateRace` splits a Redis state change into the reads and the commit its source performs.
- `MeshBridge.Pump`, `Batcher.TaskBatcher` and `Completion.Registry` are the imperative forms; the
  outside world (thieves, peers, the dispatcher, `enqueueMany`, Java threads) is a script that is
  universally quantified.

## Where the code and its promises part

- The comments at `crates/flexiq-workflows/src/redis_store.rs:707` and
  `crates/flexiq-workflows/src/storage.rs:46` say `by_state` is re-scored on every transition. The code
  scores by `created_at`; the model follows the code.
- The backends differ beyond the name filter, which on Redis stands for the newest version only: Redis
  deletes `error` on a successful finalize and SQL keeps it; a finalize of a node that does not exist
  answers true on Redis; completing a node without a result hash keeps the old hash on Redis; an
  unscoped setter on a missing run leaves a partial hash; a negative limit means no rows on Redis and
  all rows on SQLite; the sentinel cursor hides runs created at `i64::MAX` from SQL only; SQL refuses
  duplicate node names and node ids. `Refinement.AgreesIffPortable` is the exact condition.
- A Redis writer whose target is the state it read can take the run out of the set of its state.
- A colon in a run id makes node keys of different runs collide. `RedisStore` gives each typed key its own
  place, so the Redis theorems are about ids without colons; run ids in this repository are UUIDs, and
  `RedisKeys.FlatIsTypedIffNoClash` shows the flat key space then behaves the same.
- The comment at `crates/flexiq-workflows/src/state.rs:8-12` does not list that completed and failed runs can be
  rolled back; the code allows it, and the model follows the code.
- The bridge asks a peer only after it found its deque empty, so the steal threshold never decides anything there.
- Only `Completed` predecessors count: a node behind a cache hit is never returned as ready.
- Colliding virtual nodes make a ring depend on the order of joins.
- A fresh mesh node is on its own ring before any member entry names it.
- An upsert releases the members lock before it changes the ring, so overlapping upserts of one worker
  can leave the two out of step. This is about the public methods: in this repository one gossip task is
  the only writer (`crates/flexiq-mesh/src/swim/mod.rs:181` and `crates/flexiq-mesh/src/swim/mod.rs:365`).
- A digit directly after `?`, or after a literal `$`, changes what the rewritten SQL binds.
- Salted keys of different idempotency keys can coincide when one key contains `::`, and then one event's
  job answers for the other's. They hold no namespace, so tenants share them.
- On Redis, with a name filter, a version registered between two pages ends a keyset walk early, although
  `crates/flexiq-workflows/src/storage.rs:46-49` calls the Redis listing stable.
- A flush made by middleware inside another flush can enqueue before it.
- A batch larger than the deque's capacity loses its tail.

## Model

| member | source | states |
|---|---|---|
| `Refinement.AgreesIffPortable` | crates/flexiq-workflows/src/redis_store.rs:388-1042 | From any consistent Redis state, an operation keeps it consistent, changes it as the tables change and gives the same answer if and only if the operation is portable on the abstracted tables |
| `Refinement.RedisRefinesTable` | crates/flexiq-workflows/src/redis_store.rs:473-737 | Over every sequence of portable calls from every namespace, Redis gives the tables' answers and stays consistent: each run in `all`, in exactly the `by_state` set of its state, in its `by_def` set and in its parent's `children`, scored by creation time |
| `Refinement.EmptyIsConsistent` | crates/flexiq-workflows/src/redis_store.rs:133-141 | An empty key space is consistent and stands for empty tables |
| `Refinement.CreateRunCase` | crates/flexiq-workflows/src/redis_store.rs:450-516 | Creating a run agrees exactly when its id is fresh, or both sides refuse it: a parent out of scope, or an id of another namespace |
| `Refinement.AddRunIndexes` | crates/flexiq-workflows/src/redis_store.rs:473-515 | The pipeline of a fresh run keeps every index invariant |
| `Refinement.MoveStateIndexes` | crates/flexiq-workflows/src/redis_store.rs:549-570 | Moving a run between state sets leaves it in exactly the set of its new state, still scored by creation time |
| `Refinement.SetRunCase` | crates/flexiq-workflows/src/redis_store.rs:537-606 | The three run setters agree exactly when the run exists or the store is scoped |
| `Refinement.SetMissingRun` | crates/flexiq-workflows/src/redis_store.rs:549-570 | An unscoped setter on a missing run leaves a hash that does not decode, so the backends disagree |
| `Refinement.UpdateNodeCase` | crates/flexiq-workflows/src/redis_store.rs:159-186 | The node setters agree, refusals included, exactly when completing a node does not leave a stale result hash |
| `Refinement.FinalizeCase` | crates/flexiq-workflows/src/redis_store.rs:83-95 | Finalizing agrees exactly when the node exists or is out of scope, and a success finds no stored error |
| `Refinement.CreateNodesCase` | crates/flexiq-workflows/src/redis_store.rs:749-805 | Batches agree exactly when SQL's unique keys accept them or both refuse for scope |
| `Refinement.GetNodesCase` | crates/flexiq-workflows/src/redis_store.rs:821-845 | Reading a run's nodes through its node set gives what the table query gives |
| `Refinement.GetChildrenCase` | crates/flexiq-workflows/src/redis_store.rs:977-989 | Reading children through the parent's set gives what the table query gives |
| `Refinement.ListCase` | crates/flexiq-workflows/src/redis_store.rs:680-737 | The in-memory keyset page equals the SQL page exactly when no older version of the name, no sentinel row and no negative limit tells them apart; with no name filter and limit at least 0 only the sentinel can |
| `RedisStore.PutNodesKeepsRest` | crates/flexiq-workflows/src/redis_store.rs:1044-1092 | Writing nodes touches node hashes and node sets only |
| `RedisClient.Store.RunOutOfScope` | crates/flexiq-workflows/src/redis_store.rs:188-200 | A run is out of scope exactly when the store is scoped and the hash's namespace is not its own, absent runs included |
| `RedisClient.Store.CreateWorkflowDefinition` | crates/flexiq-workflows/src/redis_store.rs:388-408 | The commands leave the key space the specification gives, which the refinement and isolation theorems are about |
| `RedisClient.Store.HsetRun` | crates/flexiq-workflows/src/redis_store.rs:473-507 | Fields the record leaves out keep what the hash had |
| `RedisClient.Store.CreateWorkflowRun` | crates/flexiq-workflows/src/redis_store.rs:450-516 | Key space and answer are the specification's: parent check, foreign id refusal, hash and four indexes |
| `RedisClient.Store.GetWorkflowRun` | crates/flexiq-workflows/src/redis_store.rs:518-535 | Absent and foreign runs are answered alike; a partial hash is an error |
| `RedisClient.Store.UpdateWorkflowRunState` | crates/flexiq-workflows/src/redis_store.rs:537-572 | State and error are written and the run moves between state sets, or nothing happens out of scope |
| `RedisClient.Store.SetWorkflowRunStarted` | crates/flexiq-workflows/src/redis_store.rs:574-595 | Start time is written and the run moves to the running set, or nothing happens out of scope |
| `RedisClient.Store.SetWorkflowRunCompleted` | crates/flexiq-workflows/src/redis_store.rs:597-606 | Only the completion time changes |
| `RedisClient.Store.NewestDefinition` | crates/flexiq-workflows/src/redis_store.rs:689-699 | The name's highest version, ties by id, or nothing |
| `RedisClient.Store.PickIndex` | crates/flexiq-workflows/src/redis_store.rs:701-712 | The candidate ids of a listing |
| `RedisClient.Store.LoadRuns` | crates/flexiq-workflows/src/redis_store.rs:714-724 | Each visible candidate in the wanted state is loaded exactly once; one undecodable candidate fails the whole listing |
| `RedisClient.SortedPage` | crates/flexiq-workflows/src/redis_store.rs:726-736 | Sorting, filtering and cutting whatever order was loaded gives the keyset page |
| `RedisClient.Store.ListWorkflowRunsAfter` | crates/flexiq-workflows/src/redis_store.rs:680-737 | The answer is the page `Listing.RedisPage` describes row by row, or the decoding error of a candidate |
| `Listing.RedisPage` | crates/flexiq-workflows/src/redis_store.rs:680-737 | A page holds runs of the index the filters pick, of the asked namespace and state, below the cursor; newest first, ties of one millisecond by descending id, compared character by character; at most `limit`; and a run asked for that is missing comes after the last row of a full page |
| `Listing.TablePage` | crates/flexiq-workflows/src/diesel_common.rs:524-611 | The same over the tables, where a name filter takes in every version, a negative limit asks for all rows, and without a cursor only runs created at `i64::MAX` are missing |
| `Listing.CandidatesAre` | crates/flexiq-workflows/src/redis_store.rs:689-712 | A name stands for its highest version, of equal versions the one with the greatest id |
| `RedisClient.Store.GetChildWorkflowRuns` | crates/flexiq-workflows/src/redis_store.rs:977-989 | The visible children, or an error if one does not decode |
| `RedisClient.Store.SetNodeFields` | crates/flexiq-workflows/src/redis_store.rs:159-186 | Fields are written only into an existing node of a visible run; otherwise the node is reported missing and nothing changes |
| `RedisClient.Store.FinalizeFanOutParent` | crates/flexiq-workflows/src/redis_store.rs:939-963 | True exactly when the status was not finalized, with the fields the script writes |
| `RedisClient.Store.CreateWorkflowNodesBatch` | crates/flexiq-workflows/src/redis_store.rs:749-805 | One out-of-scope run refuses the whole batch before anything is written |
| `RedisClient.Store.GetWorkflowNode` | crates/flexiq-workflows/src/redis_store.rs:807-819 | Absent and out-of-scope nodes are answered alike |
| `RedisClient.Store.GetWorkflowNodes` | crates/flexiq-workflows/src/redis_store.rs:821-845 | All decodable nodes of the run's set, or an error |
| `RedisClient.StepKeepsSelfNamed` | crates/flexiq-workflows/src/redis_store.rs:473-507 | No operation makes a run hash name another run, which is all the listings require of their caller |
| `ReadBack.ReadsAreScoped` | crates/flexiq-workflows/src/diesel_common.rs:232-254 | A run is read by the unscoped store and by its own namespace, a node by whoever reads its run |
| `ReadBack.ListsAreReads` | crates/flexiq-workflows/src/diesel_common.rs:726-748 | A run's nodes and a parent's children are what reading them one by one gives |
| `ReadBack.CreatedRunReadsBack` | crates/flexiq-workflows/src/diesel_common.rs:332-370 | Refused exactly when a scoped store cannot read the parent, or else when the id is anybody's; otherwise read back by its namespace, unseen by others, every other read unchanged |
| `ReadBack.SetRunReadsBack` | crates/flexiq-workflows/src/diesel_common.rs:390-450 | A run setter never refuses; it changes the fields it names, of the run its caller reads, for every reader, and nothing else |
| `ReadBack.SetNodeReadsBack` | crates/flexiq-workflows/src/diesel_common.rs:750-895 | A node setter is refused exactly when its caller cannot read the node; otherwise each field is what that setter writes or what it was, and no other read changes |
| `ReadBack.FinalizeReadsBack` | crates/flexiq-workflows/src/diesel_common.rs:897-933 | True exactly when the caller reads the node outside completed, failed, skipped and cache hit; then status, time and error as given, the default text included |
| `ReadBack.CreatedNodesReadBack` | crates/flexiq-workflows/src/diesel_common.rs:650-698 | Refused exactly when a scoped store cannot read one of the runs, or else when a key or id is not fresh; otherwise every node is read back and no other read changes |
| `ReadBack.InsertedIffFresh` | crates/flexiq-workflows/src/diesel_common.rs:668-697 | A batch goes in if and only if its keys and ids are distinct and new |
| `ReadBack.CreatedDefinitionStays` | crates/flexiq-workflows/src/diesel_common.rs:258-282 | Refused exactly when the id, or the name with the version, is registered |
| `ReadBack.RedisSetRun` | crates/flexiq-workflows/src/redis_store.rs:537-606 | The run setters on a hash, field by field; an unscoped one also reaches a run that does not exist |
| `ReadBack.RedisMovesRun` | crates/flexiq-workflows/src/redis_store.rs:549-570 | A changed state moves the run between exactly those two sets, scored by creation time |
| `ReadBack.RedisSetNode` | crates/flexiq-workflows/src/redis_store.rs:847-937 | The node setters on a hash, field by field; completing without a result hash keeps the old one |
| `ReadBack.RedisFinalize` | crates/flexiq-workflows/src/redis_store.rs:939-963 | True exactly when the run is in reach and the status, if any, is open; a missing node counts as open and a success clears the error |
| `ReadBack.RedisCreateRun` | crates/flexiq-workflows/src/redis_store.rs:450-516 | Refusals as over the tables, except that an id of one's own namespace is written over, optional fields kept where the record has none; exactly the four index entries are added |
| `ReadBack.RedisCreateNode` | crates/flexiq-workflows/src/redis_store.rs:1044-1092 | A node is written over what its key held, optional fields kept where the record has none |
| `ReadBack.RedisBatchOneByOne` | crates/flexiq-workflows/src/redis_store.rs:749-805 | A batch is its nodes one after the other |
| `RedisKeys.KeysCollideIff` | crates/flexiq-workflows/src/redis_store.rs:44-70 | Two keys share their text if and only if they are equal, are node keys cut at different colons, or a definition id imitates a name |
| `RedisKeys.ColonFreeIdsDistinct` | crates/flexiq-workflows/src/redis_store.rs:44-70 | With run and definition ids free of colons no two keys collide |
| `RedisKeys.ColonInRunIdClashes` | crates/flexiq-workflows/src/redis_store.rs:62-64 | With a colon in a run id two nodes of different runs can share one key |
| `RedisKeys.FlatAnswersAlike` | crates/flexiq-workflows/src/redis_store.rs:44-70 | A key space addressed by text answers every sequence of commands as one addressed by typed keys does, as long as no two keys in use share a text |
| `RedisKeys.FlatIsTypedIffNoClash` | crates/flexiq-workflows/src/redis_store.rs:44-70 | Over all command sequences, it does so if and only if no two keys in use share a text |
| `TableIsolation.StepIsolated` | crates/flexiq-workflows/src/diesel_common.rs:232-1066 | One scoped operation acts on the tables as on the namespace's own projection if and only if it takes no foreign id, and never changes what others own |
| `TableIsolation.TenantIsolation` | crates/flexiq-workflows/src/diesel_common.rs:232-1066 | Over every interleaving of scoped stores with fresh ids, each namespace gets the answers and the state it would get alone |
| `TableIsolation.OthersInvisible` | crates/flexiq-workflows/src/diesel_common.rs:239-254 | Any operation of another namespace, registering a definition apart, leaves this one's projection as it was |
| `TableIsolation.StepKeepsNodesOwned` | crates/flexiq-workflows/src/diesel_common.rs:650-698 | Every node's run keeps existing |
| `TableIsolation.DefinitionsUnscoped` | crates/flexiq-workflows/src/diesel_common.rs:258-282 | Registering a definition does the same whichever store does it |
| `TableIsolation.CreateRunCommutes` | crates/flexiq-workflows/src/diesel_common.rs:332-370 | Creation is isolated exactly when the id is not another namespace's |
| `TableIsolation.CreateNodesCommutes` | crates/flexiq-workflows/src/diesel_common.rs:650-698 | A batch is isolated exactly when none of its node ids is another namespace's |
| `RedisIsolation.StepIsolated` | crates/flexiq-workflows/src/redis_store.rs:159-1042 | The same for Redis, index entries included |
| `RedisIsolation.TenantIsolation` | crates/flexiq-workflows/src/redis_store.rs:159-1042 | Over every interleaving of scoped stores with fresh ids, each namespace gets the answers and the keys it would get alone |
| `RedisIsolation.OthersInvisible` | crates/flexiq-workflows/src/redis_store.rs:188-200 | Any operation of another namespace, registering a definition apart, leaves this one's keys and index entries as they were |
| `RedisIsolation.StepKeepsAnchored` | crates/flexiq-workflows/src/redis_store.rs:749-805 | Every node hash and every index entry keeps belonging to an existing run |
| `RedisIsolation.MoveStateCommutes` | crates/flexiq-workflows/src/redis_store.rs:549-570 | Moving an own run between state sets touches no foreign entry |
| `Keyset.KeysetWalkBetween` | crates/flexiq-workflows/src/storage.rs:40-45 | Pages over sets that change but keep a base and stay within a bound: strictly descending, so none twice; the whole base read once a short page ends it; ended after at most bound / limit + 1 pages |
| `Keyset.KeysetWalk` | crates/flexiq-workflows/src/storage.rs:40-45 | In particular pages over a growing set |
| `Keyset.PageUnique` | crates/flexiq-workflows/src/diesel_common.rs:524-611 | A full descending page of keys below the cursor with everything else below it is the page |
| `Keyset.OrderedUnique` | crates/flexiq-workflows/src/redis_store.rs:726-726 | A descending listing of a set of keys is the only one |
| `Keyset.TextLessIff` | crates/flexiq-workflows/src/redis_store.rs:726-736 | Ids compare by the first character in which they differ, a prefix coming before what it starts |
| `PageWalk.ReadsBetween` | crates/flexiq-workflows/src/storage.rs:40-49 | Whatever the backend shows page by page, as long as it keeps a base and stays within a bound: rows strictly descend, the walk ends after at most bound / limit + 1 pages, and every run of the base was returned |
| `PageWalk.ReadsEverything` | crates/flexiq-workflows/src/storage.rs:40-49 | In particular while what matches only grows |
| `PageWalk.ReadIsWalk` | crates/flexiq-workflows/src/storage.rs:40-45 | The pages read with the last row's key as cursor are the keyset walk over what matched at each page |
| `StoreWalk.WalkReadsEverything` | crates/flexiq-workflows/src/diesel_common.rs:524-611 | The walk through the SQL listing, while other clients make any quiet calls between the pages, has all of that |
| `StoreWalk.KeepsKeysIffQuiet` | crates/flexiq-workflows/src/diesel_common.rs:390-430 | A call loses none of the matching runs if and only if it does not put a run it reaches, and that is listed, into another state |
| `StoreWalk.PageRead` | crates/flexiq-workflows/src/diesel_common.rs:533-605 | With timestamps below `i64::MAX` the sentinel cursor of the first page hides nothing |
| `RedisWalk.SplitWalkReadsEverything` | crates/flexiq-workflows/src/redis_store.rs:701-736 | The same with each page's index and each run's hash read in their own round trips, other clients calling at any moment in between |
| `RedisWalk.SplitKeeps` | crates/flexiq-workflows/src/redis_store.rs:712-724 | A run listed when the index is read is still shown when its own hash is |
| `RedisWalk.SplitNeverCorrupt` | crates/flexiq-workflows/src/redis_store.rs:714-724 | No candidate fails to decode at the moment it is loaded |
| `RedisWalk.SplitIsWhole` | crates/flexiq-workflows/src/redis_store.rs:680-737 | With nothing in between, the split listing is the whole one |
| `RedisWalk.WalkReadsEverything` | crates/flexiq-workflows/src/redis_store.rs:680-737 | The walk through the Redis listing, pages read in one step, has all of that too, under calls that are quiet on Redis: with a name filter, none may register a version newer than the listed one |
| `RedisWalk.KeepsKeysIffQuiet` | crates/flexiq-workflows/src/redis_store.rs:689-724 | A call loses none of the listed runs if and only if it puts none of them it reaches into another state and, under a name filter, leaves their definition the newest of its name |
| `RedisWalk.PageRead` | crates/flexiq-workflows/src/redis_store.rs:680-737 | With consistent run and definition indexes, whatever the nodes, a page is the keyset page of the newest version's runs, those at `i64::MAX` included |
| `RedisWalk.StepView` | crates/flexiq-workflows/src/redis_store.rs:388-606 | A call with fresh ids and existing runs keeps those indexes consistent and changes what they show as specified |
| `RedisWalk.NewVersionHidesRuns` | crates/flexiq-workflows/src/redis_store.rs:689-699 | After a newer version nothing has run under is registered, every page under the name is empty, at every cursor and limit |
| `RedisWalk.NewVersionEndsWalk` | crates/flexiq-workflows/src/redis_store.rs:689-699 | So registering one after the first full page ends the walk there, with runs that matched at the start unread |
| `FanOut.FinalizeOnce` | crates/flexiq-workflows/src/diesel_common.rs:897-933 | In every run of both backends, between two finalizes that answered true for a node some call wrote a status outside completed, failed, skipped and cache hit |
| `FanOut.WinnersVerdictStands` | crates/flexiq-workflows/src/redis_store.rs:939-963 | With no other writer, exactly one finalize can answer true and the stored status is its verdict at the end |
| `FanOut.OneWinner` | crates/flexiq-workflows/src/redis_store.rs:83-95 | The same on traces of statuses, whichever backend made them |
| `FanOut.BetweenTwoWins` | crates/flexiq-workflows/src/redis_store.rs:83-95 | Two wins enclose a write that reopened the node |
| `FanOut.FinalizeWinsIff` | crates/flexiq-workflows/src/redis_store.rs:939-963 | After any calls of any stores on an empty store, a finalize answers true if and only if the run is in scope and the last call that wrote the node's status left it open; only on Redis may no call have written one |
| `FanOut.FinalizedIsNarrower` | crates/flexiq-workflows/src/node.rs:68-78 | Finalized implies terminal, and the difference is exactly compensated and compensation failed |
| `FanOut.TableTraceValid` | crates/flexiq-workflows/src/diesel_common.rs:750-933 | Every run of table calls is a trace of node statuses |
| `FanOut.RedisTraceValid` | crates/flexiq-workflows/src/redis_store.rs:847-963 | Every run of Redis calls is a trace of node statuses |
| `StateRace.RunsStayIndexed` | crates/flexiq-workflows/src/redis_store.rs:549-593 | Under any interleaving of reads and commits of any number of writers whose targets differ from what they read, every run is in the set of its current state |
| `StateRace.ApplyKeepsIndexIff` | crates/flexiq-workflows/src/redis_store.rs:549-593 | One action keeps every run in the set of its state if and only if it is no commit, or its target differs from the state it read, or the run is already in the target's set |
| `StateRace.RunsStayIndexedIff` | crates/flexiq-workflows/src/redis_store.rs:549-593 | Over every interleaving: all states of the run have every run in the set of its state if and only if every commit on the way is of that kind |
| `StateRace.ListingMissesNothing` | crates/flexiq-workflows/src/redis_store.rs:701-736 | Then listing by state returns exactly the runs in that state, stale entries never showing |
| `StateRace.InterleavedListing` | crates/flexiq-workflows/src/redis_store.rs:714-724 | A listing that reads its candidates at one moment and loads each run at any later one, under any such interleaving, shows every run in the state at both moments and none that is not in it when loaded |
| `StateRace.TransitionsAreHonest` | crates/flexiq-workflows/src/state.rs:80-98 | No allowed transition leads to the state it starts from |
| `Lifecycle.LivesAre` | crates/flexiq-workflows/src/state.rs:79-98 | The sequences of states the table allows from pending are exactly: running and paused by turns; from running a cancellation, one of three verdicts that may be rolled back, or a rollback; from paused a cancellation; a rollback ends compensated or failed |
| `Lifecycle.TerminalOnlyRollsBack` | crates/flexiq-workflows/src/state.rs:67-98 | What `is_terminal` names leads nowhere but from the three verdicts into a rollback; everything else leads somewhere |
| `Lifecycle.NoStateTwiceButRunningAndPaused` | crates/flexiq-workflows/src/state.rs:79-98 | No run comes back to a state but by pausing and resuming |
| `StateRace.UninterruptedWriter` | crates/flexiq-workflows/src/redis_store.rs:537-595 | A writer nobody interrupts does what the whole operation does |
| `StateRace.SequentialIsRun` | crates/flexiq-workflows/src/redis_store.rs:537-595 | Calls made one after the other, fresh ids and existing runs given, are a run of the interleaving model |
| `StateRace.SelfTargetLosesRun` | crates/flexiq-workflows/src/redis_store.rs:549-570 | A writer to the state it read can leave the run in no set of its state |
| `StateRace.StaleEntryCanStay` | crates/flexiq-workflows/src/redis_store.rs:549-570 | Honest writers can leave the run in a second, stale set |
| `ReadyNodes.ComputeReadyNodes` | crates/flexiq-workflows/src/common.rs:21-60 | The answer is the listed nodes at strictly increasing positions, all and only those pending whose every incoming edge comes from a name whose last listing is completed; with unique names its names are exactly the startable ones |
| `ReadyNodes.Predecessors` | crates/flexiq-workflows/src/common.rs:29-41 | Under each name exactly the sources of the edges into it |
| `ReadyNodes.StatusMap` | crates/flexiq-workflows/src/common.rs:43-46 | A name maps to completed exactly when its last listing is |
| `ReadyNodes.ReadyIffStartable` | crates/flexiq-workflows/src/common.rs:43-59 | With unique names a node is returned exactly when it is pending and all its predecessors are completed nodes of the run |
| `ReadyNodes.StatusTellsHistory` | crates/flexiq-workflows/src/common.rs:43-59 | In every run a node's status tells which actions it has seen: pending none, running a start, each other status its ending, which is final |
| `ReadyNodes.NextIff` | crates/flexiq-workflows/src/common.rs:43-59 | Which action can come next, told from the actions so far alone, for each of the five kinds |
| `ReadyNodes.RunsFinish` | crates/flexiq-workflows/src/common.rs:43-59 | Every run can go on, with starts and completions alone, until nothing can start or is running |
| `ReadyNodes.RunsKeepRunInv` | crates/flexiq-workflows/src/common.rs:43-59 | In every run of starts, completions, failures, skips and cache hits, each started node has all predecessors completed, and completion order is topological |
| `ReadyNodes.MaximalRun` | crates/flexiq-workflows/src/common.rs:43-59 | Once nothing can start or is running, a node neither skipped nor a cache hit is pending if and only if it is on or behind a cycle, a missing predecessor or a halted node, and has completed or failed otherwise; no node took more than two steps |
| `ReadyNodes.MaximalSuccess` | crates/flexiq-workflows/src/common.rs:43-59 | If everything succeeds, exactly the nodes not behind a cycle or a missing predecessor complete, in two steps each and topologically |
| `ReadyNodes.DagRunCompletes` | crates/flexiq-workflows/src/common.rs:43-59 | Over an acyclic graph joining run nodes, a run in which everything succeeds is not stuck before all n nodes are completed, and that is after exactly 2n steps |
| `ReadyNodes.DagRunExtends` | crates/flexiq-workflows/src/common.rs:43-59 | And every such run extends to one that completes every node in 2n steps |
| `ReadyNodes.HeldNeverStarts` | crates/flexiq-workflows/src/common.rs:43-59 | In no run does a node behind a failed, skipped or cache-hit node, a cycle or a missing one start, or get returned |
| `ReadyNodes.HeldStays` | crates/flexiq-workflows/src/common.rs:43-59 | Once held, a node is held for the rest of every run |
| `ReadyNodes.BlockedNeverStarts` | crates/flexiq-workflows/src/common.rs:43-59 | In particular one on or behind a cycle; where everything succeeds it stays pending |
| `ReadyNodes.BlockedDownstream` | crates/flexiq-workflows/src/common.rs:43-59 | A successor of a blocked node is blocked |
| `ReadyNodes.StuckIsHeld` | crates/flexiq-workflows/src/common.rs:43-59 | When nothing can start or is running, what is pending is held |
| `ReadyNodes.StepsTaken` | crates/flexiq-workflows/src/common.rs:43-59 | Steps taken are the nodes ever started plus the nodes ended |
| `HashRing.Ring.AddWorker` | crates/flexiq-mesh/src/ring.rs:23-29 | The hash of each of the worker's virtual nodes is now its point, taking over points others held; every other point is as before |
| `HashRing.VirtualNodesDiffer` | crates/flexiq-mesh/src/ring.rs:24-27 | No two virtual nodes, of one worker or of two, share the text that is hashed |
| `HashRing.Placement.VirtualNodesCounted` | crates/flexiq-mesh/src/ring.rs:23-29 | A worker has as many points as virtual nodes if and only if no two of its texts hash alike |
| `HashRing.Ring.RemoveWorker` | crates/flexiq-mesh/src/ring.rs:32-34 | Exactly the worker's points go |
| `HashRing.Ring.FirstFrom` | crates/flexiq-mesh/src/ring.rs:43-46 | The least point at or after a position, if any |
| `HashRing.Ring.PreferredWorker` | crates/flexiq-mesh/src/ring.rs:38-49 | The worker at the least point from the key's hash on, or at the least point of all when none is left, or none on an empty ring |
| `HashRing.Ring.IsOwner` | crates/flexiq-mesh/src/ring.rs:52-54 | True exactly for that worker |
| `HashRing.OwnerIsNearest` | crates/flexiq-mesh/src/ring.rs:38-49 | The owner is the worker at the one nearest point, and exists as soon as a point does |
| `HashRing.MinimalMovementOnRemove` | crates/flexiq-mesh/src/ring.rs:32-49 | Removing workers changes a key's owner if and only if one of them owned it, and gives it to none of them |
| `HashRing.MinimalMovementOnAdd` | crates/flexiq-mesh/src/ring.rs:23-49 | Adding workers keeps a key's owner or gives it to an added one, colliding points or not |
| `HashRing.HistoryIndependentIffNoCollisions` | crates/flexiq-mesh/src/ring.rs:23-34 | Ring content depends only on the final workers, over all histories, if and only if no two workers' points collide |
| `HashRing.OwnershipAgreement` | crates/flexiq-mesh/src/ring.rs:23-54 | Histories ending with the same workers agree on every key, and exactly one of those workers owns it |
| `HashRing.JoinOrder` | crates/flexiq-mesh/src/ring.rs:23-29 | Two joins commute if and only if the workers' points are disjoint |
| `MeshState.State.constructor` | crates/flexiq-mesh/src/state.rs:51-59 | No members, and the local worker on the ring |
| `MeshState.State.IsLocalOwner` | crates/flexiq-mesh/src/state.rs:66-69 | True exactly when the ring's owner of that task name is the local worker |
| `MeshState.State.UpsertMember` | crates/flexiq-mesh/src/state.rs:72-92 | Entry replaced; the ring changes only when aliveness does; the answer says whether the member is new |
| `MeshState.State.MarkDead` | crates/flexiq-mesh/src/state.rs:95-102 | An existing entry becomes dead and the worker leaves the ring, entry or not |
| `MeshState.State.MarkLeft` | crates/flexiq-mesh/src/state.rs:105-112 | An existing entry becomes left and the worker leaves the ring |
| `MeshState.State.PruneDead` | crates/flexiq-mesh/src/state.rs:150-155 | Dead and left entries go, the ring stays, and the count is theirs |
| `MeshState.State.AlivePeers` | crates/flexiq-mesh/src/state.rs:115-124 | Every alive non-local member once, longest buffer first |
| `MeshState.State.BestStealTarget` | crates/flexiq-mesh/src/state.rs:127-131 | An alive non-local peer of maximal buffer length above the surplus, or none exactly when no peer exceeds it |
| `MeshState.MembershipAgreesWithRing` | crates/flexiq-mesh/src/state.rs:51-155 | After any operations, every non-local worker has ring points if and only if its entry is alive, and the local one does if and only if some operation announced it alive, dead or left; seats are whole |
| `MeshState.MarkedIsPruned` | crates/flexiq-mesh/src/state.rs:94-155 | Whatever follows, a worker marked dead or left owns nothing and the next pruning forgets it, unless it is announced again; nobody alive or suspected is forgotten |
| `MeshState.StepAgrees` | crates/flexiq-mesh/src/state.rs:72-155 | One operation leaves a worker in step exactly when it was or the operation announces it |
| `MeshState.NodesAgree` | crates/flexiq-mesh/src/state.rs:51-69 | Nodes that seat the same workers agree on every task's owner, who is one of them |
| `MeshState.ExactlyOneLocalOwner` | crates/flexiq-mesh/src/state.rs:51-69 | In a fleet whose nodes, each with its own history, all seat the fleet, exactly one node is the local owner of a task |
| `MeshRace.InStepIffLastLanding` | crates/flexiq-mesh/src/state.rs:72-112 | With the entry write and the ring change of an upsert as separate steps, under every interleaving of any number of writers, a worker is in step if and only if the last of its ring changes to land says what its entry says |
| `MeshRace.ActAgreesIff` | crates/flexiq-mesh/src/state.rs:72-112 | One step leaves a worker in step if and only if what can be looked up before it says so; for a landing ring change: the entry is still what it was decided on |
| `MeshRace.ConcurrentMembershipAgrees` | crates/flexiq-mesh/src/state.rs:72-112 | Hence writers that keep off workers whose change is outstanding never put a settled non-local worker out of step |
| `MeshRace.OverlappingWritersDisagree` | crates/flexiq-mesh/src/state.rs:76-91 | Two overlapping upserts of one worker can leave a dead worker on the ring |
| `MeshRace.UninterruptedUpsert` | crates/flexiq-mesh/src/state.rs:72-92 | The two steps of an upsert nobody interrupts are the whole operation |
| `MeshRace.SequentialIsInterleaving` | crates/flexiq-mesh/src/state.rs:72-155 | Operations made one after the other are an interleaving of the concurrent model |
| `LocalDeque.Deque.Push` | crates/flexiq-mesh/src/local_deque.rs:29-36 | Appended below capacity, refused at it |
| `LocalDeque.Deque.Pop` | crates/flexiq-mesh/src/local_deque.rs:39-42 | The last job, or none of an empty deque |
| `LocalDeque.Deque.Steal` | crates/flexiq-mesh/src/local_deque.rs:45-55 | The first `count` jobs in order, or all |
| `LocalDeque.Deque.PushBatch` | crates/flexiq-mesh/src/local_deque.rs:72-94 | As many jobs from the front of the batch as there is room for go behind what was there, tasks in `owned` after all others, each kind in batch order |
| `LocalDeque.SortIsPartition` | crates/flexiq-mesh/src/local_deque.rs:80-87 | The stable sort puts other workers' tasks first and keeps each kind in order |
| `LocalDeque.SortKeeps` | crates/flexiq-mesh/src/local_deque.rs:80-87 | The sort neither adds nor loses a job |
| `LocalDeque.NothingLost` | crates/flexiq-mesh/src/local_deque.rs:29-94 | Over every interleaving, within capacity, and accepted jobs are the popped, the stolen and the buffered |
| `LocalDeque.AffinityOrder` | crates/flexiq-mesh/src/local_deque.rs:39-94 | After a batch and no later push, pops run from the end and thefts from the front, nobody taking the same job; so of the batch every task in `owned` is popped before any other and stolen after all others |
| `MeshBridge.EmptyWhenBlocked` | crates/flexiq-java/src/mesh.rs:79-110 | Whenever the loop blocks on the scheduler, the deque is empty, whatever thieves did |
| `MeshBridge.Conservation` | crates/flexiq-java/src/mesh.rs:71-120 | When the scheduler closes and the dispatcher took everything, what came in went out exactly once, to the dispatcher or a thief, if and only if every batch fitted; otherwise exactly the cut tails are missing |
| `MeshBridge.RunAccounts` | crates/flexiq-java/src/mesh.rs:71-120 | At every point of every interleaving each job's copies are accounted for |
| `MeshBridge.Pump.Yield` | crates/flexiq-mesh/src/lib.rs:234-240 | Between any two steps a thief may take; without one nothing changes |
| `MeshBridge.Pump.GiveJobs` | crates/flexiq-mesh/src/lib.rs:234-240 | A thief gets the first `count` jobs in order, or all |
| `MeshBridge.Pump.PopLocal` | crates/flexiq-mesh/src/lib.rs:143-149 | The last job moves to the sender, or the drain is over on an empty deque |
| `MeshBridge.Pump.SendToDispatcher` | crates/flexiq-java/src/mesh.rs:81-86 | An accepted job is sent; a refusal ends the loop |
| `MeshBridge.Pump.DrainDeque` | crates/flexiq-java/src/mesh.rs:81-86 | Ends with the deque empty, or with the dispatcher gone; where no thief comes, the deque is sent from its end to its front |
| `MeshBridge.Pump.PumpOnce` | crates/flexiq-java/src/mesh.rs:79-97 | Up to the next wait for the scheduler; a peer is asked if and only if stealing is enabled, since the deque is empty by then and the threshold never holds it back |
| `MeshBridge.NeverAsksWhenDisabled` | crates/flexiq-mesh/src/lib.rs:243-245 | With stealing disabled no interleaving ever asks a peer or takes a job in |
| `MeshBridge.Pump.PrefetchBatch` | crates/flexiq-mesh/src/lib.rs:154-167 | A batch goes in as the deque sorts and cuts it |
| `MeshBridge.Pump.TrySteal` | crates/flexiq-mesh/src/lib.rs:95-122 | What a peer gave is prefetched, nothing included |
| `MeshBridge.Pump.ReceiveAndPrefetch` | crates/flexiq-java/src/mesh.rs:100-109 | A received batch is prefetched and draining starts again |
| `MeshBridge.Pump.Run` | crates/flexiq-node/src/worker.rs:362-414 | The loop ends for every script, each execution is a run of the state machine, and on a close the accounts balance as above |
| `Framing.RoundTripIffFits` | crates/flexiq-java/src/ffi_c.rs:92-122 | For every tail, decoding a frame followed by it gives the elements back if and only if the count and lengths are below 2^32 |
| `Framing.UnframeIffFramePrefix` | crates/flexiq-java/src/ffi_c.rs:104-122 | A buffer decodes to elements if and only if their frame is a prefix of it |
| `Framing.UnframeSound` | crates/flexiq-java/src/ffi_c.rs:104-122 | Whenever decoding succeeds, the frame of the result is a prefix of the buffer |
| `Framing.FrameLoop` | crates/flexiq-java/src/ffi_c.rs:92-101 | The loop writes the frame `Framing.FrameLayout` lays out |
| `Framing.FrameLayout` | crates/flexiq-java/src/ffi_c.rs:90-101 | The frame byte by byte: count, then each element at its place behind its length, numbers in four bytes, least significant first, and nothing else |
| `Framing.TruncatedFrame` | crates/flexiq-java/src/ffi_c.rs:104-122 | Every frame cut short is an error: a truncated element if the cut is inside one, else a truncated header |
| `Framing.UnframeLoop` | crates/flexiq-java/src/ffi_c.rs:104-122 | The loop ends, stays inside the buffer and decodes as specified, truncation errors included |
| `Framing.TakeU32` | crates/flexiq-java/src/ffi_c.rs:106-111 | Four bytes little-endian, or a truncated header |
| `PgRewrite.PgRewriteSql` | crates/flexiq-workflows/src/diesel_common.rs:42-56 | The loop's answer binds every full argument list to the same text as the input if and only if no `?` and no `$` stands before a digit |
| `PgRewrite.RewritePreservesMeaningIffClean` | crates/flexiq-workflows/src/diesel_common.rs:42-56 | Every full argument list binds to the same text before and after the rewrite if and only if no `?` and no `$` stands before a digit |
| `PgRewrite.CleanBinds` | crates/flexiq-workflows/src/diesel_common.rs:42-56 | On clean SQL the numbered reading of the rewrite is the positional reading |
| `PgRewrite.DigitAfterPlaceholder` | crates/flexiq-workflows/src/diesel_common.rs:42-56 | `?5` becomes `$15`, which does not mean the same |
| `Decimal.FormatDigits` | crates/flexiq-workflows/src/diesel_common.rs:47-50 | A number's text has its decimal digits, most significant first |
| `PubSub.SaltedKeyInjective` | crates/flexiq-core/src/pubsub.rs:142-148 | For one idempotency key, salted keys are equal exactly for the same topic and subscription, whatever characters they hold |
| `PubSub.SaltedKeysOfUnrelatedEvents` | crates/flexiq-core/src/pubsub.rs:142-148 | Under idempotency keys of different length, salted keys are equal if and only if the longer key continues the shorter with `::` and the start of the shorter's salt, the rest of which is the longer's own |
| `PubSub.SaltedKeysEqualIff` | crates/flexiq-core/src/pubsub.rs:142-148 | All collisions there are, for any two keys, topics and names |
| `PubSub.SaltedKeysCanCollide` | crates/flexiq-core/src/pubsub.rs:142-148 | They really can |
| `PubSub.FindLive` | crates/flexiq-core/src/storage/diesel_common/jobs.rs:687-792 | A live job holding the key if there is one |
| `PubSub.JobStore.UniqueBatch` | crates/flexiq-core/src/storage/diesel_common/jobs.rs:687-792 | Each job is inserted unless a live job holds its key, earlier jobs of the batch included, and the holder is returned |
| `PubSub.JobStore.Batch` | crates/flexiq-core/src/storage/diesel_common/jobs.rs:286-398 | Every job is inserted |
| `PubSub.JobStore.PublishToTopic` | crates/flexiq-core/src/pubsub.rs:89-137 | One job per fan-out subscription, in order. Unkeyed, each is new, at the end, with the subscription's queue and task and the request's payload and namespace. Keyed, a live holder of the subscription's key is returned in its place, and only the others are new |
| `PubSub.UniqueBatchKeepsIndex` | crates/flexiq-core/src/storage/diesel_common/jobs.rs:687-792 | No two live jobs come to hold one key, and no live job is lost |
| `PubSub.UniqueBatchCovers` | crates/flexiq-core/src/storage/diesel_common/jobs.rs:687-792 | Every keyed job of the batch has a live holder, the one returned |
| `PubSub.KeyHeldOnce` | crates/flexiq-core/src/pubsub.rs:89-137 | On any table, the key of a keyed delivery is held by exactly one live job, the one returned, for as long as that job is live |
| `PubSub.DeliveredIffUnclaimed` | crates/flexiq-core/src/pubsub.rs:89-137 | The job a keyed publish returns for a subscription is that subscription's own delivery if and only if no live job with another content held its key |
| `PubSub.KeyedEventDeliveredOnce` | crates/flexiq-core/src/pubsub.rs:89-137 | After any history whose keys do not clash with the event's, a fan-out subscription gets its own delivery, and whatever follows, that is the one live job for the event until it finishes |
| `PubSub.ClashStarvesSubscription` | crates/flexiq-core/src/pubsub.rs:142-148 | A clash in action: while the other event's job is live, the subscription gets no job |
| `PubSub.TenantsShareKeys` | crates/flexiq-core/src/storage/diesel_common/jobs.rs:706-725 | The key holds no namespace: while one tenant's deliveries are live, the same keyed publish of another makes no job and returns theirs |
| `PubSub.RepeatedPublishChangesNothing` | crates/flexiq-core/src/pubsub.rs:89-137 | Publishing the event again while its deliveries are live changes nothing |
| `PubSub.RepeatedPublishReturnsDeliveries` | crates/flexiq-core/src/pubsub.rs:89-137 | And it returns the jobs the first publish returned |
| `PubSub.RepublishAfterFinish` | crates/flexiq-core/src/pubsub.rs:89-137 | Once the job that held the key finished, publishing again makes a new delivery with the subscription's queue and task |
| `PubSub.EnqueuedHoldsKey` | crates/flexiq-core/src/storage/diesel_common/jobs.rs:687-792 | Enqueueing a keyed job leaves exactly one live holder: the one there was, or this one |
| `PubSub.SubscriptionsNotMerged` | crates/flexiq-core/src/pubsub.rs:142-148 | Deliveries of one event to different subscriptions never share a job |
| `Batcher.TaskBatcher.FlushBuffer` | sdks/node/src/batching.ts:125-143 | Timer off, entries taken out, callbacks run, and on a throw the entries put back in front |
| `Batcher.TaskBatcher.Invoke` | sdks/node/src/batching.ts:108-155 | `add`, `flush` and `close` as specified, re-entrant calls included |
| `Batcher.TaskBatcher.FlushOnTimer` | sdks/node/src/batching.ts:162-202 | A failed timed flush is reported and the timer re-armed while open and non-empty |
| `Batcher.NothingLost` | sdks/node/src/batching.ts:108-202 | Over every run, failures and re-entrancy included, each accepted entry is enqueued or buffered exactly once |
| `Batcher.SubmissionOrder` | sdks/node/src/batching.ts:125-143 | Distinct entries are enqueued and buffered in the order accepted if and only if no flush of the run starts with entries to enqueue while an outer flush's batch still waits, and goes through; an armed timer means an open batcher with entries |
| `Batcher.EventsOvertakeIff` | sdks/node/src/batching.ts:125-143 | That guard, tested where each flush starts, tells exactly whether some batch overtakes another |
| `Batcher.OrderUnderQuietHooks` | sdks/node/src/batching.ts:125-143 | If `enqueueMany` calls back only after enqueueing, order always holds |
| `Batcher.HooksCanOvertake` | sdks/node/src/batching.ts:125-143 | A hook that fills the buffer again gets its entry enqueued first |
| `Batcher.StrandedOnlyAfterThrow` | sdks/node/src/batching.ts:162-202 | From any reachable state, an event leaves an open batcher holding entries without a timer only if a flush threw to its caller during it |
| `Batcher.EventsKeep` | sdks/node/src/batching.ts:108-202 | Every run keeps order and timer invariants, and logs only grow |
| `Batcher.WhatFlushes` | sdks/node/src/batching.ts:108-202 | The timer, a flush, a close and the add that fills the buffer enqueue the whole buffer as one batch if `enqueueMany` accepts it; a rejected add, flush or close leaves the batch in front of the buffer and throws |
| `Batcher.ClosedTakesNothing` | sdks/node/src/batching.ts:108-155 | Once closed, nothing is taken in, whatever is called, and what was left is enqueued all at once or not at all |
| `Batcher.CloseFlushes` | sdks/node/src/batching.ts:146-155 | Closing enqueues everything buffered, whatever callbacks try, or keeps it and throws; a later flush that goes through enqueues it after all |
| `Batcher.AddAccepts` | sdks/node/src/batching.ts:108-118 | An open batcher accepts every entry behind those before it and arms the timer below the limit; a closed one stays as it is |
| `Batcher.BufferBounded` | sdks/node/src/batching.ts:108-118 | While `enqueueMany` accepts, no event leaves `maxSize` entries buffered, re-entrant calls or not |
| `Completion.Registry.Register` | crates/flexiq-java/src/dispatcher.rs:43-48 | A fresh token becomes pending |
| `Completion.Registry.Forget` | crates/flexiq-java/src/dispatcher.rs:50-52 | The token is no longer pending |
| `Completion.Registry.Complete` | crates/flexiq-java/src/dispatcher.rs:55-59 | A pending token's channel is filled; any other completion changes nothing |
| `Completion.Registry.RunOne` | crates/flexiq-java/src/dispatcher.rs:162-218 | A refusal to submit is a retryable failure with its text; else the first outcome for the token decides: success with its bytes, cancelled, a failure under a cancel request cancelled too, any other failure with its text and retryability; else the timeout, if there is one; and the token is gone unless there is no result |
| `Completion.DeliveredAtMostOnce` | crates/flexiq-java/src/dispatcher.rs:37-60 | Under every interleaving of any number of tasks and completing threads: one delivery and one result per token at most, no timeout once an outcome was delivered, never a dropped channel, and a returned task's token is not pending |
| `Completion.ResultsAreOutcomes` | crates/flexiq-java/src/dispatcher.rs:192-217 | Under every interleaving a returned task succeeded, was cancelled, timed out or failed, for good or not and with what text, if and only if what it was given says so |
| `Completion.ResultsHappened` | crates/flexiq-java/src/dispatcher.rs:162-218 | And the outcome, refusal, timeout or cancel request is one of the run's events on that token |
| `Completion.RegisteredIsTask` | crates/flexiq-java/src/dispatcher.rs:43-48 | Every registration makes a task with the next token and the job's timeout, and nothing else does |
| `Completion.ResultStays` | crates/flexiq-java/src/dispatcher.rs:162-218 | Nothing that happens later changes a returned task or what it was given |
| `Completion.LateCompletionIgnored` | crates/flexiq-java/src/dispatcher.rs:54-59 | A completion for a returned task changes nothing at all |
| `Completion.CanReturn` | crates/flexiq-java/src/dispatcher.rs:162-218 | From every reachable state a task that has not returned can, in steps on its own token |
| `Completion.TimeoutReturns` | crates/flexiq-java/src/dispatcher.rs:177-190 | With a timeout, in its own steps alone, without any completion |
| `Completion.StepSound` | crates/flexiq-java/src/dispatcher.rs:37-60 | A listening task's sender is in the registry, in a thread's hand or used, and in one place only, after every step |

## Left out

- Offset listing (`list_workflow_runs`) and prefix reads of nodes: the order of ties is open in SQL and the rest repeats the listings above.
- Approval gates and compensation of nodes in DAG runs: the other statuses start, end or hold a node back.
- Reading definitions back, step metadata and JSON decoding of the DAG: a parsed graph and a definition's id, name and version are the input.
- Number parsing of hash fields and `Vec` capacity hints: fields hold numbers, and a missing field is the only decoding error.
- Redis connections and failures in the middle of a pipeline: a pipeline and a script are one step, reads before them are separate steps in `StateRace` and `RedisWalk` only.
- Postgres collation and dollar quoting: text order is by code point, and every `$` before a digit counts as a number.
- Negative limits on Postgres, which reports an error: the tables follow SQLite.
- The checked additions in `unframe` that guard a 64-bit position: positions are unbounded.
- Priority, timeout and notes of delivery jobs, log-mode messages, and retries of a contended insert: they do not enter the key.
- `xxh3`: the hash is an arbitrary function, so nothing is said about how evenly it spreads.
- SWIM gossip, the steal server's wire protocol, the scheduler, jitter and floating-point prefetch budgets.
- Metrics counters, job ids returned by the batcher, and the text of log lines.
- Token wrap-around after 2^64 registrations.
- JNI, N-API and PyO3 glue, dashboards, migrations and build scripts.
