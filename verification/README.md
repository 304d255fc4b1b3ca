# A model of the org server's ledgers, gates and meters

The repository runs a small federation: an org server that issues signed receipts and drives
unattended agents, and a lean public index in which agents register. This project models the
parts of it that hold state or fold proofs, and proves what each is for. Every theorem is about
all inputs, all runs or all reachable states. `dafny verify dfyconfig.toml` checks the whole
project.

| files | component |
|---|---|
| `Merkle`, `MerkleCounters`, `MerkleInclusion`, `MerkleRange`, `MerkleConsistency` | RFC 6962 trees; the shifting-counter loops that check inclusion and consistency proofs, shown equal to the recursive definitions for every tree size, and what they make of any claimed index |
| `Disclosure` | signed checkpoints, disclosure bundles, and the canary that checks them |
| `AttestationGate`, `Registry`, `RateLimiter` | the lean index: gate, trust-on-first-use pins, merge-updates, capacity, sliding windows |
| `GrantScope`, `Grants`, `GrantRuns` | bounded operational grants, consumed by interleaved database transactions |
| `Scheduler` | the durable oldest-first schedule with back-off and pause |
| `Authority` | per-day and per-week action budgets |
| `IssuerLog` | verified, chained, append-only receipts under racing writers |
| `MemoryStore` | expiring, bounded per-agent memory |
| `Telemetry` | the usage meter with its overflow row |
| `Conversations` | two limited queries merged, deduplicated and cut |
| `Streaming` | snapshot-and-delta event streams, and their frame printer and parser |
| `Surfaces`, `SurfaceBuilders`, `CardBuilders` | component lists, and when one is a tree |
| `Common`, `Text`, `Json` | shared types; Python's `strip`, truth value and integer test |

Objects that the code updates in place are classes whose methods are proved equal to a
specification function of the old state; the theorems over runs are about those functions.
Hashes are free constructors, so two digests are equal only if they hash the same thing; a proof
may also carry digests that nobody computed. Signatures, canonical JSON, the retry policy's
answers and the SQL row the planner happens to pick are parameters, and the theorems hold for all
of them.

## Where the code and its documentation differ

The model follows the code. Each of these is a theorem, with the exact condition.

- `server/bounded_grants.py:21-51` says a retry of a charged action never charges again. The SQL
  function selects only grants with units left, so a repeat after the last unit is refused or
  charged to another grant. A retry is sure to be free exactly while its grant has room and no
  other the query could pick expires as early (`RetryFreeIffRoom`, with `OneActionChargedTwice`).
  Within one grant the rule does hold (`GrantsConserved`).
- The scope mirror in `server/bounded_grants.py:116-122` reads `%`, `_` and `\` literally, and SQL
  `LIKE` does not; the scope `%*` is accepted and covers every action (`MirrorAgreesIff`,
  `AcceptedScopeCoversAllIff`).
- The budget check fails closed when a usage read raises or returns text that is no number. A
  database failure that answers None counts as no usage, in either window
  (`QuietFailureBypassesIff`).
- An accepted inclusion proof is evidence of membership, whatever index and size are claimed
  (`AcceptedIsMember`), but not always of a position. The canary checks no index range, and
  `server/merkle.py:64`, like its copy in `agent/community_member/_merkle/__init__.py:72`, only the
  upper end. An index outside the tree passes exactly when its low bits name a leaf at full depth,
  for that leaf (`AnyIndexExact`, `VerifyInclusionExact`): in a tree of two leaves 3 passes the
  canary and -1 passes all of them (`OutOfRangeIndexCanPass`). `agent/community_member/checkpoint.py:106-108`
  also takes the tree size from the peer, not from the signed checkpoint: index 1 of a claimed size
  2 passes in a tree of three leaves, for the third (`FalseSizeCanPass`; exactly when, for any
  claimed integers, `AnyClaimExact`, and for an index inside the claimed size, `InSizeExact`).
- A refused write may have committed a pin: exactly when the gate pinned it and the handler then
  found the id taken or the table full (`RefusedPinsIff`).
- Two things may start an agent less than five seconds after its last start: an operator's resume
  while it is idle, and a finish whose record is lost (`ResumeStartsSooner`,
  `LostFinishStartsSooner`). Nothing else may (`StartsAreSpaced`). A terminal failure stops an agent
  only if it is recorded.
- A lost recording of an action leaves the budget as it was, so the same check passes again
  (`LostRecordingPermitsAgain`, `LostRecordingExceedsCap`). The actions of a window are at most its
  cap, plus the lost recordings, plus the recordings whose check read None (`BudgetsHold`).
- `remember` answers "stored" without looking at the database's answer. The entry is there exactly
  when the column takes the value, the write does not fail and a taken slot was seen
  (`StoredMeansWritten`); so a failed write, and every JSON null, is reported stored and is not
  (`FailedWriteIsReportedStored`, `NullIsReportedButNotStored`).
- A failed count lets an agent past its quota (`StepKeepsQuotaIff`), and purging can make room
  (`PurgeFreesQuotaIff`).
- Purging is not always invisible: a remember whose lookup fails is dropped while an expired row
  holds its key, and stored once the row is purged, and answers "stored" either way
  (`FailedLookupDiverges`). It changes an answer exactly when it makes a remember write, or not
  write, an entry that is still to be seen (`PurgingIsInvisibleIff`).
- A surface that changes only from 1 to true or to 1.0 is equal in Python, so the client is never
  sent the change (`ClientIsExactIff`).

## Model

| member | source | states |
|---|---|---|
| Merkle.LargestPow2Lt | server/merkle.py:30-35 | the doubling loop returns the RFC 6962 split point of every size above one |
| Merkle.FoldsTo | scripts/receipt_verify_canary.py:78-92 | the nested loops, with their two shifted counters and no early stop, decide the acceptance predicate the theorems are about |
| MerkleInclusion.InclusionExact | scripts/receipt_verify_canary.py:78-92 | for every tree and every index in it, the loop accepts exactly the leaf at that index with exactly its audit path: completeness and soundness, whatever the proof's length |
| MerkleInclusion.PathLength | server/merkle.py:49-59 | an audit path, so every accepted in-range proof, is no longer than the ceiling of log2 of the size |
| MerkleInclusion.AcceptedIsMember | agent/community_member/checkpoint.py:84-113 | for any claimed index and any claimed size, acceptance against a tree's root means the receipt is one of its leaves |
| MerkleRange.AnyIndexExact | scripts/receipt_verify_canary.py:79-92 | for every integer index the loop accepts exactly one leaf and proof, or none: the leaf named by the index's low bits, if it is the index itself or that leaf lies at full depth |
| MerkleRange.VerifyInclusionExact | server/merkle.py:62-78 | the server's verifier is exact for natural indices and lets through the negative ones whose low bits name a leaf at full depth |
| MerkleRange.OutOfRangeIndexCanPass | server/merkle.py:64-78 | in a tree of two leaves 3 passes the loop and -1 the server's verifier; in one of three leaves 3 never passes |
| MerkleRange.AnyClaimExact | agent/community_member/checkpoint.py:105-111 | for every claimed index and size, a proof passes exactly for the leaf, with that leaf's audit path, to whose place in the real tree the claimed numbers drive the counters |
| MerkleRange.InSizeExact | agent/community_member/checkpoint.py:105-111 | an index inside the claimed size passes exactly for a leaf whose turns in the real tree are some rights and then the index's turns in a tree of the claimed size |
| MerkleRange.FalseSizeCanPass | agent/community_member/checkpoint.py:105-111 | index 1 of size 2 passes against a tree of three leaves, for the third |
| MerkleConsistency.VerifyConsistency | server/merkle.py:101-136 | the in-place loop over two nodes and two counters decides the consistency predicate |
| MerkleConsistency.ConsistencyExact | server/merkle.py:81-136 | against a tree, for every old size up to its own, exactly one old root and one proof are accepted, the root of the first m leaves and the RFC 6962 consistency proof; but for old size zero any old root with an empty proof |
| MerkleConsistency.RootInjective | server/merkle.py:38-46 | equal sizes and roots mean equal leaf sequences |
| MerkleConsistency.ConsistentIffExtends | server/merkle.py:101-136 | for any two logs, some proof is accepted between them if and only if the older is a prefix of the newer |
| Disclosure.IndexById | server/receipt_publication.py:136 | an id maps to the position of the last receipt that has it, and to nothing when none has |
| Disclosure.BuildBundle | server/receipt_publication.py:114-176 | a bundle is made exactly when the last receipt of every name is this issuer's; it discloses each name in order by that last receipt, its index and audit path under the log's checkpoint, and a refusal names the first that cannot be published |
| Disclosure.CheckpointCommits | server/arp.py:379-410 | a checkpoint has its log's size, root and ids in order, and no other log has that size and root |
| Disclosure.Check | scripts/receipt_verify_canary.py:63-94 | the checker's failure list: the issuer mismatch alone, else one failure per bad signature or fold, in order |
| Disclosure.OneFailure | scripts/receipt_verify_canary.py:70-93 | one disclosure is reported for its signature, else for its proof, else not at all |
| Disclosure.VerifiedCount | scripts/receipt_verify_canary.py:93-94 | the number the canary prints as verified is the number of disclosures that are signed and fold |
| Disclosure.NoFailuresIff | scripts/receipt_verify_canary.py:70-93 | no failures means every disclosed receipt is signed and folds |
| Disclosure.CleanExactlyWhenFromLog | server/arp.py:385-415 | with indices inside the log, the disclosures under an honest checkpoint are clean exactly when every receipt is signed, in the log at its index, and carries its audit path |
| Disclosure.CleanMeansMembers | scripts/receipt_verify_canary.py:70-93 | whatever the indices claimed, clean means signed members of the log |
| AttestationGate.AllowedIff | index/attestation_gate.py:103-147 | a write passes exactly when it is unsigned for an unpinned id, or attested in time for this id by the pinned DID (any, if none) with no endpoint but the attested one |
| AttestationGate.ValidIsSigned | index/attestation_gate.py:59-100 | an attestation judged valid has the signed record, subject, DID and freshness it claims |
| AttestationGate.SignedIsValid | index/attestation_gate.py:59-100 | and every attestation with those is judged valid |
| AttestationGate.PinIsSigner | index/attestation_gate.py:124-147 | a pin is proposed only for an unpinned id and only for the DID that signed |
| AttestationGate.VerdictIs | index/attestation_gate.py:59-100 | which verdict an attestation gets: its shape first, then the key, the signature, the end of the window and its beginning |
| AttestationGate.RefusalIs | index/attestation_gate.py:103-147 | which refusal a write gets, through what its body proves: none for a pinned id, none valid, another subject, another endpoint, another DID |
| AttestationGate.ClaimedIs | index/attestation_gate.py:137-138 | an endpoint is claimed exactly by a string with more in it than white space |
| Registry.Index.GateWrite | index/main.py:196-221 | the pin, if any, is committed by the gate, before the handler goes on |
| Registry.Index.RegisterAgent | index/main.py:261-280 | one POST: its answer and both tables after it, on every path |
| Registry.Index.UpdateAgent | index/main.py:283-304 | one PUT: merge, identity of the path, capacity for new ids only |
| Registry.Index.DeleteAgent | index/main.py:307-316 | one DELETE: the tables and the answer, as DeleteAnswers says |
| RegistryRuns.PostAnswers | index/main.py:261-280 | the exact condition of each answer to a POST, with the tables it leaves: no id, refused by the gate, taken, full, created with the body as sent |
| RegistryRuns.PutAnswers | index/main.py:283-304 | the exact condition of each answer to a PUT: no object, refused by the gate, full for a new id, updated |
| RegistryRuns.PutLeaves | index/main.py:283-304 | the tables a PUT leaves: the record is the old one overridden by the body, under the path's id, and no other record changes |
| RegistryRuns.DeleteAnswers | index/main.py:307-316 | a DELETE of a stored id removes that row alone and says so; of any other it changes nothing and is answered not found |
| RegistryRuns.StepIsAttested | index/main.py:196-221 | a step that pins an id, or stores to a pinned one, carries that DID's attestation for that id, and the endpoint it claims is the attested one |
| RegistryRuns.PinsNeverChange | index/main.py:196-221 | over every run a pin, once set, stays with the same DID, across deletes and re-registration |
| RegistryRuns.PinnedWritesAreAttested | index/main.py:196-304 | every stored write to a pinned id carries an attestation by that DID for that id, within its window at that time |
| RegistryRuns.PinsWereAttested | index/main.py:216-221 | every pin goes back to a write to that id which its DID attested |
| RegistryRuns.RefusedPinsIff | index/main.py:216-304 | for every refused request, the pins change exactly when the gate is on, the id is unpinned, the body is attested for it with no other endpoint, and the refusal is for what comes after the gate: a taken id on POST, a full table for a new one |
| RegistryRuns.RefusedWriteCanPin | index/main.py:267-280 | such a request: a POST answered 409 |
| RegistryRuns.EndpointProvenance | index/attestation_gate.py:124-147 | over every run, a non-blank endpoint of a pinned record was attested for that id by the pinned DID, or was there when the pin was made and has stayed since |
| RegistryRuns.RecordIsLastWriterWins | index/main.py:261-316 | a record is, key by key, the last accepted body to bring the key since it was created; it exists exactly when there is such a body, and is never empty |
| RegistryRuns.CapacityHolds | index/main.py:273-299 | the row count stays within the cap, refusals change no record, and only a new id is refused for capacity |
| RateLimiter.WriteLimiter.Sweep | index/main.py:80-88 | the sweep over a map of queues drops the aged times and exactly the clients left with none |
| RateLimiter.WriteLimiter.Check | index/main.py:127-145 | one check: the answer and every client's queue after it |
| RateLimiter.CheckExact | index/main.py:127-145 | the map and answer of one check in terms of what is kept of the client's queue: its end from the first recent time |
| RateLimiter.SweepLeavesActive | index/main.py:80-88 | over every run, a sweep leaves exactly the clients with an accepted write inside the window |
| RateLimiter.SlidingWindowBound | index/main.py:127-145 | in every run a client has at most the limit of accepted writes in every closed window, whatever other clients and sweeps do |
| RateLimiter.RefusedIffWindowFull | index/main.py:141-145 | a client in the map is refused exactly when its last accepted writes fill the window, or none is ever allowed |
| RateLimiter.UnknownClientRefused | index/main.py:132-140 | a client not in the map has no accepted write left in the window, and is refused exactly when as many clients as the cap have one, or none is ever allowed |
| RateLimiter.KeysBounded | index/main.py:80-140 | the map never holds more clients than its cap |
| GrantScope.MirrorAgreesIff | server/bounded_grants.py:100-122 | the Python mirror decides what SQL LIKE decides, for every key, exactly when a prefix scope has no LIKE metacharacter |
| GrantScope.ScopeAcceptedIff | server/bounded_grants.py:100-113 | a scope is accepted, without the white space around it, exactly as a literal with no star or a non-empty prefix with one star at its end |
| GrantScope.AcceptedScopeExcludesSome | server/bounded_grants.py:100-122 | an accepted scope leaves out some key, as the mirror reads it |
| GrantScope.AcceptedScopeCoversAllIff | infra/migrations/0004_bounded_operational_grants.sql:87-99 | as the database reads it, an accepted scope covers every key exactly when its prefix is all percent signs |
| GrantScope.PercentScopeCoversAll | server/bounded_grants.py:100-113 | the scope "%*" is such a scope |
| Grants.IssuedIffBounded | server/bounded_grants.py:125-190 | a grant is issued exactly with a known kind, an author, a scope, a positive whole cap and a future aware expiry; it carries just those, unspent and unrevoked, and excludes some key |
| Grants.GrantTables.Issue | server/bounded_grants.py:125-190 | an issue adds the one row, or nothing |
| Grants.GrantTables.Consume | infra/migrations/0004_bounded_operational_grants.sql:70-149 | a consume nothing interrupts: both tables and the answer when nothing matches, when the key is a retry and when it is charged |
| Grants.ConsumeExact | infra/migrations/0004_bounded_operational_grants.sql:70-149 | what that consume does, through the grants alone: the grant used is live, has room, covers the action and expires first; it spends one unit exactly for a key not charged to it; none is found exactly when there is none |
| Grants.ChargeExact | infra/migrations/0004_bounded_operational_grants.sql:124-147 | each answer of the charging step, which others may have run before: spent, rolled back on a key charged meanwhile, or nothing left to update |
| GrantRuns.StepsAreConsume | infra/migrations/0004_bounded_operational_grants.sql:70-149 | the database steps of the interleaved model, run one after the other, are that uninterrupted consume |
| Grants.GrantTables.Revoke | server/bounded_grants.py:252-273 | a revocation that persists applies RevokeStamps' change; one that does not says so and changes nothing |
| GrantRuns.RevokeStamps | server/bounded_grants.py:252-273 | a first revocation changes that row alone, and in it only the stamp; a repeat, or an unknown id, changes nothing |
| GrantRuns.RevokeStops | server/bounded_grants.py:252-273 | in every run, from a revocation event on the row is revoked and its charged keys are those of that moment |
| GrantRuns.StepKeepsInv | infra/migrations/0004_bounded_operational_grants.sql:70-149 | every event, in any interleaving, keeps all counters equal to their charged rows and takes no charge away |
| GrantRuns.GrantsConserved | server/bounded_grants.py:21-51 | in every reachable state the counter is the number of distinct charged keys, one charged row each, within the cap, and covers every key ever authorized by the grant |
| GrantRuns.ChargeOnlyWhenLive | infra/migrations/0004_bounded_operational_grants.sql:124-147 | only a commit spends, for a key new to the grant, while it is unrevoked, unexpired at the request's time and has room |
| GrantRuns.RevokedIsFrozen | server/bounded_grants.py:252-273 | after a revocation no key is charged, not even by a consume already in flight |
| GrantRuns.RetryFreeIffRoom | server/bounded_grants.py:21-51 | a retry of a charged key is free under its grant, however ties fall, exactly while that grant has units left and every other eligible grant expires later |
| GrantRuns.OneActionChargedTwice | infra/migrations/0004_bounded_operational_grants.sql:87-99 | one action is charged to two grants of one unit each, then refused |
| Scheduler.JitteredBounds | server/agent_scheduler.py:118-127 | any interval and draw stay at or above the floor, and within 15 percent above it |
| Scheduler.Schedule.Record | server/agent_scheduler.py:218-252 | a recording updates the one row, or nothing when the write fails |
| Scheduler.Schedule.Resume | server/agent_scheduler.py:255-275 | a resume clears pause and failures and makes the row due, or nothing |
| Scheduler.BatchExists | server/agent_scheduler.py:184-215 | every table has a batch of due rows, oldest first, as the query promises |
| SchedulerRuns.FinishedBacksOff | server/agent_scheduler.py:144-169 | after any end of a run the agent is paused or held for the minimum interval, whatever the retry policy says |
| SchedulerRuns.FinishedRow | server/agent_scheduler.py:118-175 | the exact row after each kind of finish: the next run at the floor or the interval (for a failure the back-off of one more) scaled by 0.85 to 1.15 with the clamped draw; a terminal failure keeps its time and pauses |
| SchedulerRuns.ResumedRow | server/agent_scheduler.py:255-275 | a resume makes the row due now with no failures and no pause, and changes no other |
| SchedulerRuns.PassedOver | server/agent_scheduler.py:184-215 | a tick that passes a due agent over moves a full batch from ahead of it to behind it |
| SchedulerRuns.BoundedWaiting | server/agent_scheduler.py:184-252 | a due agent with k unpaused others at or ahead of it is picked within k / limit + 1 ticks, however ties fall |
| SchedulerRuns.StartsAreSpaced | server/agent_scheduler.py:118-252 | consecutive starts of an agent are at least five seconds apart unless the finish between them is not recorded, or a resume follows it before the next start |
| SchedulerRuns.StartsInSpan | server/agent_scheduler.py:118-252 | so a span of length T with no such resume and no lost record inside it holds at most T / 5 + 1 starts |
| SchedulerRuns.TerminalStops | server/agent_scheduler.py:150-169 | after a recorded terminal failure the agent is due at no time, and starts never, until resumed |
| SchedulerRuns.FailuresAreCounted | server/agent_scheduler.py:144-252 | the stored failure count is the recorded failures since the last recorded success or resume, for callers that count on from the stored row |
| SchedulerRuns.ResumeStartsSooner | server/agent_scheduler.py:255-275 | every run that leaves the agent idle can go on with a resume and a start at any later instant |
| SchedulerRuns.LostFinishStartsSooner | server/agent_scheduler.py:218-252 | every run that leaves the agent in flight can go on with a finish whose record is lost, a terminal failure included, and a start at the same instant |
| Authority.WindowContains | server/authority.py:149-158 | a window start is the day's or the ISO week's first instant at or before now |
| Authority.ConstraintsExact | server/authority.py:166-224 | an attempt is denied for the first violated of the caps, the type, the length and the hours, and passes exactly when none is |
| Authority.AuthorityAnswers | server/authority.py:232-308 | the exact condition of every decision of the gate, with every read failing or not |
| Authority.QuietFailureBypassesIff | server/authority.py:115-146 | in either window, a usage read that answers None turns a cap denial into a permission exactly when the cap is positive and nothing else denies |
| Authority.UsageTable.Record | server/authority.py:311-361 | a recording adds one to each capped window's counter it reaches and touches no other, whichever reads and writes fail |
| AuthorityRuns.CountsAreActions | server/authority.py:311-361 | each stored count is the number of recordings that landed in its window |
| AuthorityRuns.BudgetsHold | server/authority.py:232-361 | in every sequential run, with any database call failing, what landed in a window is at most its cap plus the recordings whose check read None, and its actions are what landed and what was lost, even when the clock crosses into the next window between check and recording |
| AuthorityRuns.FaultlessBudgets | server/authority.py:232-361 | with no failure, a window's actions are counted one by one and never pass its cap |
| AuthorityRuns.LostRecordingPermitsAgain | server/authority.py:311-361 | every run whose last recording left no trace can go on with any later round that asks the same in the same windows |
| AuthorityRuns.LostRecordingExceedsCap | server/authority.py:360-361 | two actions on a day with a cap of one |
| AuthorityRuns.WeekIsSumOfDays | server/authority.py:149-158 | an ISO week's actions are those of its seven days |
| AuthorityRuns.WeekCounterIsSumOfDayCounters | server/authority.py:311-361 | with both caps configured and one instant per recording, the stored week is the sum of its stored days exactly when as many recordings reached only the week's counter as only the day's |
| IssuerLog.Log.LookupPrior | server/arp.py:661-684 | the lookup finds a receipt with that hash by that issuer exactly when there is one |
| IssuerLog.Log.Emit | server/arp.py:704-826 | one emit nothing interrupts: the log and the stage answered, on every path |
| IssuerLog.EmitAnswers | server/arp.py:704-826 | the exact condition of each stage answered: ill formed, own without its prior, another principal than required, already recorded, or accepted, and only that appends |
| IssuerLogRuns.StepsAreEmit | server/arp.py:704-826 | the three calls of the racing model, run one after the other, are that emit; a failed look for a duplicate does not stop it, a failed insert leaves the log |
| IssuerLogRuns.RowsWereVouchedFor | server/arp.py:746-752 | over every run, each row was offered by a call whose required principal, if any, was the receipt's |
| IssuerLogRuns.StepKeepsInv | server/arp.py:704-826 | every database call of every racing emit keeps the log unique, chained and a prefix of what follows |
| IssuerLogRuns.LogIsAppendOnly | server/arp.py:704-826 | rows are only appended: none is altered, moved or removed |
| IssuerLogRuns.LogIntegrity | server/arp.py:704-826 | no two rows share issuer and id, every row passed the checks, and an own receipt's prior precedes it |
| IssuerLogRuns.ChainsEnd | server/_arp_verify/__init__.py:376-384 | following previous hashes in any log meets no receipt twice, in whatever order they arrived |
| IssuerLogRuns.OwnChainReachesStart | server/arp.py:718-745 | every own receipt's chain is held back to one without a previous hash |
| IssuerLogRuns.ForeignOutOfOrder | server/arp.py:732-745 | a foreign receipt is accepted before its prior |
| MemoryStore.Memory.RememberEntry | server/agent_memory_store.py:174-232 | one remember: the reply and the table after it, with any of its three database calls failing |
| MemoryStore.ValidateExact | server/agent_memory_store.py:123-158 | which fault a request is refused for, and that a request passes exactly with a named agent, one of three types, a key of 1 to 256 characters between white space and a value of at most 8192 bytes |
| MemoryStore.RememberAnswers | server/agent_memory_store.py:174-232 | the exact condition of every answer: the fault, the quota (5000 counted entries and a key not found with a value), or stored |
| MemoryStore.SameSlotIff | server/agent_memory_store.py:206-210 | two requests share an entry exactly when agent and type agree and the keys do but for white space around them |
| MemoryStore.Memory.RecallEntry | server/agent_memory_store.py:235-266 | one recall by a raw key: refused for a blank agent, else what the row under the stripped key says |
| MemoryStore.RecallExact | server/agent_memory_store.py:253-266 | a value is read exactly from a row that holds it, no null, and is not past its expiry unless expired rows are asked for |
| MemoryStore.Memory.RecallAll | server/agent_memory_store.py:269-282 | the live rows of the agent and type, each once, newest first and in the query's order; none when the query fails, a refusal for a blank agent |
| MemoryStore.Memory.ForgetEntry | server/agent_memory_store.py:285-299 | the one row under the stripped key is gone, if it was there |
| MemoryStore.Memory.ForgetAll | server/agent_memory_store.py:302-318 | the agent's rows are gone and no others |
| MemoryStore.Memory.PurgeExpired | server/agent_memory_store.py:321-328 | exactly the rows past a non-null expiry are gone |
| MemoryStore.StoredMeansWritten | server/agent_memory_store.py:198-232 | after a reply of stored, whichever database calls failed, the table has the new entry exactly when the column takes the value, the write did not fail and a taken slot was seen with a value; otherwise it is unchanged |
| MemoryStore.FailedWriteIsReportedStored | server/agent_memory_store.py:216-232 | any valid value is answered as stored when the write fails |
| MemoryStore.RememberThenRecall | server/agent_memory_store.py:174-266 | what landed is recalled exactly when the column keeps it and its lifetime (30 days for a dedup key, none for zero) has not passed; what did not land leaves the earlier answer |
| MemoryStore.NullIsReportedButNotStored | server/agent_memory_store.py:198-232 | a null changes nothing and is answered as stored |
| MemoryStore.PurgeFreesQuotaIff | server/agent_memory_store.py:199-204 | a remember refused for quota passes after a purge exactly when the agent's rows less its expired ones are below the cap |
| MemoryRuns.StepKeepsQuotaIff | server/agent_memory_store.py:161-204 | an operation keeps every agent within 5000 rows unless it inserts at the cap on a failed count |
| MemoryRuns.QuotaHolds | server/agent_memory_store.py:161-204 | so with counts that succeed no run exceeds the quota |
| MemoryRuns.AgentsAreIsolated | server/agent_memory_store.py:161-328 | an agent's rows and recalls after any run are those of its own operations and the purges alone |
| MemoryRuns.TableIsRegisters | server/agent_memory_store.py:174-328 | over every run from every table, each key holds what its own last landed write left, unless deleted since; keys share nothing but the quota refusals the run answers |
| MemoryRuns.PurgingIsInvisibleIff | server/agent_memory_store.py:174-328 | for every run and every failure, purges anywhere change no answer at any point exactly when no remember is written with them and not without, or the reverse, with an entry that has not already expired |
| MemoryRuns.SmoothNeverDiverges | server/agent_memory_store.py:174-328 | that is so for runs whose lookups and counts succeed, that store no null and refuse nothing for quota |
| MemoryRuns.FailedLookupDiverges | server/agent_memory_store.py:198-232 | after a failed lookup a purge of the expired row decides whether the value is recalled |
| Telemetry.NormIsNormal | server/agent_telemetry.py:79-84 | key fields are never empty and normalising twice changes nothing |
| Telemetry.NormIs | server/agent_telemetry.py:79-84 | a key field is kept but for the white space around it, and becomes "unknown" when nothing is left |
| Telemetry.FigureExact | server/agent_telemetry.py:146-155 | a reported figure adds the whole part of a non-negative number, a boolean being one, and nothing otherwise |
| Telemetry.CallExact | server/agent_telemetry.py:120-155 | the meter after one call: which row, every figure of it, and whether it was folded |
| Telemetry.SkipExact | server/agent_telemetry.py:157-181 | the meter after one skip, likewise |
| Telemetry.AgentTelemetry.Bucket | server/agent_telemetry.py:86-104 | a series keeps its row, gets one while there is room, and else shares the overflow row and is counted as folded |
| Telemetry.AgentTelemetry.RecordLlm | server/agent_telemetry.py:120-155 | a call adds one, and its reported tokens or one call without usage, to its row only |
| Telemetry.AgentTelemetry.RecordLlmSkip | server/agent_telemetry.py:157-181 | a skip adds one to the skips and to its reason in its row only |
| Telemetry.AgentTelemetry.GetLlmSpend | server/agent_telemetry.py:183-229 | a snapshot holds every series once with its row, in order; every total, each skip reason among them, is the sum over the rows |
| TelemetryRuns.TotalsAreConserved | server/agent_telemetry.py:120-229 | every total equals the exact sum over the recordings, before and after overflow, for any bound |
| TelemetryRuns.RowsAreSound | server/agent_telemetry.py:157-181 | in every row the reasons add up to the skips |
| TelemetryRuns.SeriesAreBounded | server/agent_telemetry.py:86-104 | there is at most one row past the bound, and then the overflow row is there |
| TelemetryRuns.FoldsIffTooMany | server/agent_telemetry.py:86-104 | over every run nothing is folded exactly while the distinct series number no more than the bound, and then each has its own row |
| TelemetryRuns.RowsAreTheirSeries | server/agent_telemetry.py:86-104 | a series with a row has all its recordings in it, and the overflow row has all those of the others |
| TelemetryRuns.FoldedIsExact | server/agent_telemetry.py:86-104 | the folded count is the number of recordings of series without a row, give or take one caller that names the overflow series |
| Conversations.SortNewestFirst | server/agent_conversations.py:157-158 | the in-place sort is the stable one |
| Conversations.SortedIsStable | server/agent_conversations.py:157-158 | that sort is newest first, a permutation, and keeps the order of equal times |
| Conversations.Deduplicated | server/agent_conversations.py:160-169 | the loop keeps the first thread of each id, in order |
| Conversations.FirstOfEachIs | server/agent_conversations.py:160-169 | what it keeps of a sorted list is newest first with one of each id, and no thread is lost |
| Conversations.TopOfTops | server/agent_conversations.py:132-169 | pushing the limit into both queries loses nothing: the cut of the merge is a top of the union |
| Conversations.GetThreads | server/agent_conversations.py:132-169 | the result has min(limit, union size) distinct threads, newest first, and leaves out none that is newer, with ties, self-addressed threads and a failed query included |
| Streaming.DiffIsAPatch | server/agui_streaming.py:109-122 | the patch is empty exactly for equal surfaces and otherwise takes the old one to the new |
| Streaming.StreamSurfaceUpdates | server/agui_streaming.py:131-185 | the events of any sequence of fetches, and when the stream ends: the first failure or the iteration limit |
| Streaming.PyEqualExact | server/agui_streaming.py:109-122 | when two surfaces are equal: numbers by value whatever their kind, all else by kind and part by part |
| Streaming.EventPerChange | server/agui_streaming.py:161-174 | what each fetch adds: an error with the first 500 characters, the first surface, nothing for an equal one, a whole replacement otherwise |
| Streaming.StopsWhere | server/agui_streaming.py:157-185 | how many fetches are awaited and whether the stream has ended, from the first failure and the limit alone |
| Streaming.SentBounds | server/agui_streaming.py:151-185 | the opening event's run and thread, and the closing one |
| Streaming.StreamIsWellShaped | server/agui_streaming.py:131-185 | whatever the driver sends is a start, then at most one snapshot, deltas and at most one error, then a finish exactly when it has ended |
| Streaming.ClientHoldsLatest | server/agui_streaming.py:131-185 | after every fetch a client that applies the events holds the latest surface, as Python compares them |
| Streaming.ClientIsExactIff | server/agui_streaming.py:109-122 | it holds that very surface exactly unless only the kind of a number changed |
| Streaming.UpdatesArePrefixes | server/agui_streaming.py:131-185 | what was sent by then stays the beginning of any longer run |
| EventFrames.ParseEvents | server/agui_streaming.py:188-201 | the two parsing loops, with malformed payloads |
| EventFrames.ChunksExact | server/agui_streaming.py:191-193 | the text is cut at every first blank line: the pieces give it back and hold none |
| EventFrames.SplitLinesExact | server/agui_streaming.py:197 | the lines are unbroken and give the chunk back with what ended them |
| EventFrames.ParseExact | server/agui_streaming.py:188-201 | parsing succeeds exactly when every data line's payload does, gives one event for each in order, and passes over every other line |
| EventFrames.RoundTrip | server/agui_streaming.py:50-201 | parsing the concatenated frames of any events gives back exactly those events |
| Surfaces.TreeIsWellFormed | server/a2ui_helpers.py:46-56 | any arrangement of a tree's components with distinct ids has one parent per component, no dangling child, and everything reachable from the declared root |
| Surfaces.NumberedInjective | server/a2ui_helpers.py:403-415 | numbered names with suffixes never collide |
| SurfaceBuilders.AppendLeaves | server/a2ui_helpers.py:348-364 | the numbering loop's ids and components agree |
| SurfaceBuilders.MemberIsShown | server/a2ui_helpers.py:344-366 | every member is shown, in order, under its own id |
| SurfaceBuilders.BuildMemberCards | server/a2ui_helpers.py:344-366 | a well-formed surface, or none for no members |
| SurfaceBuilders.BuildFederationCards | server/a2ui_helpers.py:397-420 | a well-formed surface of seven components per chapter, or none |
| SurfaceBuilders.ChapterIsShown | server/a2ui_helpers.py:397-420 | chapter i is shown in its own seven components, in order, with its name or id, status, focus and member count |
| CardBuilders.BuildThoughtCard | server/a2ui_helpers.py:423-491 | a well-formed surface though avatars precede the row that holds them, with at most four targets |
| CardBuilders.TargetIsShown | server/a2ui_helpers.py:459-466 | each of the first four targets is shown in order under its own id, and no more are |
| CardBuilders.ThoughtIsShown | server/a2ui_helpers.py:423-491 | whatever the targets, the list opens with the fixed components and closes with the two buttons |
| CardBuilders.BuildIntroductionCard | server/a2ui_helpers.py:494-520 | a well-formed surface with the first six messages in order |
| CardBuilders.MessageIsShown | server/a2ui_helpers.py:508-517 | each of the first six messages is shown in order after the fixed components, and no more are |
| CardBuilders.BuildInsightCard | server/a2ui_helpers.py:523-539 | a well-formed surface, with a divider and a list of the first five points only for some data points |
| CardBuilders.InsightIsShown | server/a2ui_helpers.py:523-539 | the components of the card, with the divider and the first five points exactly when there are some |

## Left out

- Cryptography and encodings: Ed25519, did:key, SHA-256, RFC 8785 and JSON text are abstract predicates, free constructors or injective functions. Timestamps of events and digests of the wrong length on the wire are not modelled.
- HTTP, sockets, sqlite and PostgreSQL plumbing: tables are maps or sequences, and database calls may fail where the code handles it. Body size caps, write tokens and the rate check before a handler are not part of a handler's step.
- Time: clocks are integers or reals that do not go back where a theorem says so; floating-point rounding of times is not modelled. A memory operation reads the clock once, where `recall_all` reads it for each row.
- MerkleConsistency.VerifyConsistency: the power-of-two test is modelled by its meaning, not by its bit trick, and claimed sizes are natural numbers; the code does not refuse a negative old size.
- Registry.Index.DeleteAgent: the handler is one atomic step, although it runs in a worker thread.
- RateLimiter.WriteLimiter.Check: the key is the socket peer, a given string.
- Grants.GrantTables.Consume: the parsing of the governance call's response is left out; answers are the SQL function's own.
- Scheduler.Schedule.Record: the retry policy's classification and back-off, and the failure count the caller passes, are arbitrary; the theorems hold for all of them but where a row says otherwise.
- SchedulerRuns.BoundedWaiting: ticks in which every picked agent finishes and is recorded before the next.
- MemoryStore.Memory.RememberEntry: a sequence of operations, not racing ones (the count and the insert are separate calls, so racing inserts could pass the quota together). Values that are not JSON, and what PostgreSQL makes of a bare number, string or boolean in a jsonb column, are left to a parameter.
- Telemetry.AgentTelemetry.RecordLlm: an infinite reported figure, on which the code raises, is left out; so are latency and error metrics.
- Conversations.GetThreads: the table does not change between the two queries; timestamps are never null, and are compared as instants where the code compares their ISO texts; a negative limit, which the database refuses, is left out.
- Streaming.StreamSurfaceUpdates: a consumer that disconnects mid-stream, and the waits between fetches, are not modelled. Surfaces are values: a fetcher that changes its one dict in place, which the code then compares with itself and never sends, is not modelled.
- Surfaces.TreeIsWellFormed: of a component's display fields only the main text is kept; colours, badges' variants, actions and the fixed chapter-information card are left out.
- The issuer log's offline SQLite mode, whose replace-by-id rule differs from the online path.
- Grant listings, scope administration, activity picking, compliance credentials, exports, key sealing and the agent launchers: field copying or thin wrappers.
