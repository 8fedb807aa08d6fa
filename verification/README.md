# Verification of the LXMF group hub

A Dafny model of the parts of the hub that promise something over whole runs, with the
proofs of those promises. Four parts share the SQLite tables:

* **Merkle anti-entropy** (`wrappers`, `sorting`, `bytestrings`, `merkle`, `walk`, `epochs`,
  `federation`, `hub`). The bottom-up tree refines a digest defined from the root down. The
  level-by-level walk finds exactly what only the peer holds, even though the peer rebuilds
  its tree for every request and may change in between. A clean pull makes the hub hold
  the peer's window, and a pull each way makes the two agree. SHA-256 is a parameter; the
  proofs that need it carry "no two of the inputs these trees hash collide, and none
  hashes to the empty marker" as a premise, never injectivity.
* **Persona merge** (`personas`, `convergence`, `mesh`, `devices`, `linking`,
  `registry`). Rows, the
  version order, the rule for two claims of one name and the unique index, as functions;
  class methods over the two tables are proved to compute those functions; then
  idempotence and convergence of two hubs in three merges. `mesh` takes a merge apart into
  its store calls: for any number of hubs and any interleaving of those calls with claims
  and renames, it proves the safety of names and of the earliest claim. `linking` does the
  same for device rows, with the store calls of an unlink.
* **Durable egress** (`queues`, `store`, `tokenbucket`, `delivery`, `sending`,
  `scheduler`). `delivery` is a state machine whose steps are the commit points of a send,
  the router's callbacks, enqueueing, pruning and a crash at any point; its invariants give
  row conservation, the attempt budget and "no second copy". `scheduler` is the class with
  the token bucket and the in-flight table; every send and every tick is proved to be a path
  of the machine's steps, so what holds of every run holds of it, and `sending` shows that a
  path cut short by a crash is a run.
* **Failover** (`failover`). Three-valued liveness, adoption and hand-back over restarts,
  notices, isolation. A ghost trail records every commit, and the theorem about trails
  holds after each of them.

An object the source updates in place is a class here and a loop in the source is a
loop here, proved against a function or a relation; an exception is a result value. The
clock, the network, the router's reaction, the point where the database raises and what a
peer holds at each request are parameters.

Run `dafny verify dfyconfig.toml` in this directory.

## What is false of the code, and exactly when it holds

* `epoch_hashes` and `populated_epochs` place a message in the same epoch if and only if
  its timestamp is not negative or sits on an epoch boundary
  (`Epochs.ListedWhereHashed`; a counterexample is `Epochs.NegativeTimestampMislaid`).
* The store is locked for one call at a time, and merging a row takes several. A claim on
  the same hub can fall between the lookup of a name and the write: the merged row is
  refused if and only if its name was taken in between (`Mesh.RefusedIffNameTakenSince`,
  with the run of `Mesh.ClaimInBetweenRefuses`). A rename can fall between the test of the
  version and the write: a persona goes back to an older version if and only if the row
  written is older than the one it replaces (`Mesh.VersionDropsIffReverts`, with the run of
  `Mesh.RenameInBetweenIsLost`). A rename can fall between the lookup and the clearing: a
  name that is not contested is taken if and only if its holder was renamed in between
  (`Mesh.TakesOtherIffHolderRenamed`, with the run of `Mesh.RenamedHolderIsCleared`). Merges
  that nobody interrupts do what `personas` and
  `convergence` say of them (`Mesh.UninterruptedIsMergeRow`).
* The same holds of devices. A tombstone is undone by an older row when an unlink falls
  between a merge's test and its write: a merge puts a row in place of one at least as
  recent only if that one was written in between (`Linking.RecedesIff`,
  `Linking.OverwrittenMeansWrittenSince`, with the run of `Linking.UnlinkInBetweenIsUndone`).
  "Never the last device" fails when the others go between the count and the update, and
  only then (`Linking.EmptiesIffOthersGone`, with the run of
  `Linking.TombstoneInBetweenEmpties`). Uninterrupted, both hold
  (`Linking.UninterruptedIsMergeDevice`, `Linking.UninterruptedIsUnlink`).
* Even uninterrupted, a row is refused if and only if it is named by the empty string and
  another row holds that name (`Personas.RaisesIffEmptyNameTaken`,
  `Personas.EmptyNameRaises`).
* Two hubs agree on device rows after one merge each way if and only if equal versions of a
  device were equal rows (`Devices.DevicesConverge`); an unlink on a hub whose clock is
  behind breaks it (`Devices.UnlinkBehindTheClockDiverges`).
* README.md:221 of the repository says that a pruned hub does not download again what it
  deleted. From a peer that still holds the message it does, if and only if the message is
  of the epoch that retention cuts through and neither hub has moved past that epoch (`Federation.RefetchedIff`; the message of
  `Federation.PrunedMessageIsRefetched` comes back).
* The bound burst + rate * length on client traffic holds of when tokens are taken. Of when
  messages are handed over it holds too, unless the first send of the window took its
  token before it began; then one more can be handed over, and no more than one
  (`TokenBuckets.HandoffBound`; at every rate and burst there is such a run,
  `TokenBuckets.OneOverTheBurst`).

## Model

| member | source | states |
|---|---|---|
| `ByteStrings.LeqMeansComesFirst` | lxmf_hub/personas.py:68-74 | byte strings are ordered by their first difference, a proper prefix first |
| `Merkle.BucketAppendsBit` | lxmf_hub/merkle.py:25-32 | a bucket number is read off the item bit by bit, from the highest bit of its first byte |
| `Merkle.PrefixMerkleTree.constructor` | lxmf_hub/merkle.py:53-67 | level k of the reversed lists has 2^k nodes and node (k, i) is the digest of exactly the items whose first k bits are i |
| `Merkle.PrefixMerkleTree.NodeHashes` | lxmf_hub/merkle.py:76-87 | answers exactly the indices inside the level, with the right digests; a level outside the tree is an error |
| `Merkle.PrefixMerkleTree.BucketMembers` | lxmf_hub/merkle.py:80-81 | the sorted items under a leaf |
| `Merkle.EmptyNodeMeansEmpty` | lxmf_hub/merkle.py:35-47 | without collisions a node reads as empty if and only if no item falls under it |
| `Merkle.SameItemsSameDigest` | lxmf_hub/merkle.py:35-67 | a node depends on nothing but the items under it, in any arrival order |
| `Merkle.NodesAgreeIffSameItems` | lxmf_hub/merkle.py:50-67 | without collisions two trees agree at a node if and only if they hold the same items under it |
| `Merkle.LeafOfTwo` | lxmf_hub/merkle.py:35-41 | two items of one bucket are hashed together, in order |
| `Merkle.RootOfTwoBuckets` | lxmf_hub/merkle.py:44-67 | the root over two items in different buckets hashes the left leaf before the right |
| `Walk.ChildrenOf` | lxmf_hub/merkle.py:89-95 | both children of each node, each once and in the order of the nodes |
| `Walk.DivergingNodes` | lxmf_hub/merkle.py:98-107 | exactly the nodes where the peer has something and it is not what we have, in order |
| `Walk.ServeTree` | lxmf_hub/federation.py:211-216 | a level query is answered from the table as it is at that moment |
| `Walk.ServeBucket` | lxmf_hub/federation.py:218-225 | a bucket query is answered from the table as it is at that moment, at most 64 buckets |
| `Walk.DescendLevel` | lxmf_hub/federation.py:467-476 | one level keeps every hash the peer held throughout under a diverging node, and at each diverging node the peer as it answered differs from us |
| `Walk.MissingInEpoch` | lxmf_hub/federation.py:463-486 | against a changing peer: no duplicates, nothing we hold, nothing it never showed, everything it held throughout; against a steady one exactly the set difference |
| `Walk.DifferingNodesBounded` | lxmf_hub/merkle.py:44-47 | no level has more differing nodes than there are differing leaf buckets |
| `Walk.CheapTotal` | lxmf_hub/federation.py:467-476 | at most 2d nodes asked per level are at most 2 * d * depth over the descent |
| `Epochs.ListedWhereHashed` | lxmf_hub/store.py:685-704 | an epoch listed for a message is the one whose hashes include it if and only if the timestamp is not negative or on a boundary |
| `Epochs.NegativeTimestampMislaid` | lxmf_hub/store.py:685-704 | a message half an epoch before zero is listed under one epoch and hashed under another |
| `Epochs.PopulatedPartition` | lxmf_hub/store.py:685-704 | populated epochs partition the group's messages since the aligned cutoff |
| `Epochs.PruneSparesNewerEpochs` | lxmf_hub/hub.py:466-470 | pruning removes nothing from an epoch newer than the oldest reconciled one |
| `Epochs.SkippedEpochsArePruned` | lxmf_hub/federation.py:447-449 | an epoch reconciliation skips is wholly past retention |
| `Federation.RefetchedIff` | lxmf_hub/federation.py:447-449 | a pull brings back a pruned message if and only if it is of the boundary epoch, the same one when pruned and now, and the peer has not moved past it |
| `Federation.PrunedMessageIsRefetched` | lxmf_hub/hub.py:466-470 | a message that is pruned and comes back with the next pull |
| `Federation.EpochRoots` | lxmf_hub/federation.py:589-597 | the newest populated epochs, at most 512, each with the root of its hashes |
| `Federation.ServedAreOfTheGroup` | lxmf_hub/federation.py:227-258 | a fetch serves exactly what was wanted, is held and belongs to the group |
| `Federation.IngestGains` | lxmf_hub/federation.py:227-258 | serving a fetch and ingesting the answer stores each wanted message under the peer's own hash |
| `Federation.Fetch` | lxmf_hub/federation.py:488-501 | fetching in batches gains what one big batch would |
| `Federation.ReconcileEpoch` | lxmf_hub/federation.py:442-486 | the epoch gains exactly what only the peer holds, and exactly that is asked for; nothing is when it lacks nothing |
| `Federation.ReconcileGroup` | lxmf_hub/federation.py:442-461 | every offered epoch inside the window is gained and nothing else; nothing is fetched when nothing is missing |
| `Federation.Pull` | lxmf_hub/federation.py:442-519 | one clean pull leaves the table a function of the two tables says |
| `Federation.PullHoldsEverything` | lxmf_hub/federation.py:442-519 | after a clean pull every epoch of the window holds all the peer holds in it |
| `Federation.PullOfKnownIsIdle` | lxmf_hub/federation.py:442-461 | a pull from a peer with nothing new changes nothing |
| `Federation.PullsEachWayAgree` | lxmf_hub/federation.py:313-378 | after a pull each way the two hubs hold the same hashes in every epoch of the window, and no later round changes a table or asks for a hash |
| `Tables.SameHashSameContents` | lxmf_hub/store.py:371-378 | where SHA-256 does not collide on two records' concatenated fields nor on their group ids, equal message hashes mean equal group, sender, timestamp and payload |
| `Tables.UnlikeAnyStoredIsUnknown` | lxmf_hub/store.py:371-378 | a record that differs in any of these from every stored one is not known |
| `Stores.FanOutCovers` | lxmf_hub/store.py:612-665 | fanning out a message no row refers to leaves exactly one row per recipient |
| `Stores.FanOutKeepsTables` | lxmf_hub/store.py:612-665 | a fan-out keeps: rows refer to stored messages, one row ever per recipient and incarnation of a message, no row lost |
| `Stores.PruneKeepsTables` | lxmf_hub/store.py:1426-1440 | pruning keeps the same, and removes with a message every row that refers to it |
| `Stores.Store.StoreAndEnqueue` | lxmf_hub/store.py:612-665 | both the message and its rows or neither; known messages change nothing |
| `Stores.Store.PruneMessages` | lxmf_hub/store.py:1426-1440 | keeps exactly the messages not older than the cutoff and the rows that still have one |
| `Stores.Store.DueRows` | lxmf_hub/store.py:730-748 | the rows of one queue whose time has come, by time and then id, and fewer than the limit only when there are no more |
| `Stores.Store.Defer` | lxmf_hub/store.py:1382-1395 | the row is due at the given time; a counted deferral adds an attempt and clears the graces, an uncounted one adds a grace and no attempt; nothing else changes, and a row that is gone stays gone |
| `Stores.Store.Enqueue` | lxmf_hub/store.py:942-958 | one row with a fresh id; a notice identical to a pending one is ignored |
| `Hub.GroupHub.Recipients` | lxmf_hub/hub.py:352-370 | local members and adopted ones, each once, nobody banned here |
| `Hub.GroupHub.StoreAndFanOut` | lxmf_hub/hub.py:372-386 | a new message has exactly one row for every recipient but its author; a known one adds none; other rows stay |
| `Hub.GroupHub.Authorise` | lxmf_hub/hub.py:211-239 | a role decides, a ban first, then peer membership, then the ACL; only an unknown sender of a public group is enrolled |
| `Hub.GroupHub.Post` | lxmf_hub/hub.py:181-209 | a verified post is stored if and only if it is allowed and new, as any is that differs from every stored record, and reaches everyone but its sender |
| `Hub.GroupHub.IngestFederated` | lxmf_hub/hub.py:328-348 | hashes are computed here, unknown groups skipped, known messages ignored; each message stored has exactly one row for everyone entitled here but its author, nobody banned; an exception leaves the records before it |
| `Hub.BannedAreNeverServed` | lxmf_hub/hub.py:352-370 | whatever relays adds no row for a hash banned from a message's group, adopted or not, exactly one for every other member and every adopted client without a role here but the author, and none for anybody else |
| `Hub.IngestedAreHosted` | lxmf_hub/hub.py:328-348 | ingesting adds exactly the records of hosted groups, under the hashes computed here, and changes none |
| `Hub.GroupHub.Prune` | lxmf_hub/hub.py:466-470 | drops what is older than the retention window, nothing when retention is off |
| `Personas.EarlierClaimKeepsName` | lxmf_hub/personas.py:243-267 | told in claim times and ids: the earlier claim keeps a contested name, and at equal times the id that comes first; the other row stands without it, cleared and reported if it was the local one |
| `Personas.UncontestedRowIsWritten` | lxmf_hub/personas.py:225-241 | told in revisions and times: without a contest a newer row is written as it is and any other changes nothing |
| `Personas.RaisesIffEmptyNameTaken` | lxmf_hub/personas.py:243-267 | merged without interruption, a row is refused exactly for a taken empty name |
| `Personas.EmptyNameRaises` | lxmf_hub/personas.py:248-249 | two personas named by the empty string make a merge raise |
| `Personas.ProperNamesNeverRaise` | lxmf_hub/personas.py:225-267 | an uninterrupted merge of rows with non-empty names never reaches the index with a conflict |
| `Personas.MergeKeepsValid` | lxmf_hub/personas.py:225-241 | name uniqueness survives every merge, one that raises included |
| `Personas.MergeAdvances` | lxmf_hub/personas.py:225-241 | an uninterrupted merge takes no persona to an older version, loses none, and covers every merged row |
| `Registry.MergeAgainChangesNothing` | lxmf_hub/personas.py:225-241 | merging the same persona and device lists again, repeats included, changes no row of either table and reports no loser; a merge the index stopped is stopped again |
| `Convergence.ThreeMergesConverge` | lxmf_hub/personas.py:202-267 | two hubs with disjoint personas hold identical tables after three merges, each contested name at the earlier claim time, or at equal times the id that comes first |
| `Mesh.UninterruptedIsMergeRow` | lxmf_hub/personas.py:236-267 | the steps of merging one row, with no other in between, leave the table and the refusal of the merge rule |
| `Mesh.NamesUniqueAndClaimsFixed` | lxmf_hub/personas.py:93-118 | over any run of claims, renames and store calls of merges, names are unique on each hub and a persona's claim time is the same everywhere and always |
| `Mesh.RefusedIffNameTakenSince` | lxmf_hub/personas.py:246-266 | in any run the index refuses a merged row if and only if its name was taken on that hub between the lookup and the write |
| `Mesh.ClaimInBetweenRefuses` | lxmf_hub/personas.py:246-266 | a run in which a local claim falls between them and the earlier claim is refused |
| `Mesh.ClaimRefusedIffNameTakenSince` | lxmf_hub/personas.py:93-118 | a claim that found its name free is refused at its commit if and only if another persona took it since |
| `Mesh.VersionDropsIffReverts` | lxmf_hub/personas.py:236-240 | in any run a persona goes to an older version if and only if a merge writes back a row older than the one it replaces |
| `Mesh.OutdatedMeansWrittenSince` | lxmf_hub/personas.py:236-240 | that happens only to a persona written since its version was tested |
| `Mesh.RenameInBetweenIsLost` | lxmf_hub/personas.py:236-266 | a run in which a local rename falls between the test and the write and is lost |
| `Mesh.TakesOtherIffHolderRenamed` | lxmf_hub/personas.py:228-263 | a merge takes a name other than the arriving row's if and only if the holder was renamed since the lookup |
| `Mesh.WithoutRenameOnlyContestedAreTaken` | lxmf_hub/personas.py:228-263 | where nobody is renamed only contested names are taken, however store calls interleave |
| `Mesh.RenamedHolderIsCleared` | lxmf_hub/personas.py:256-263 | a run in which a renamed holder loses a name nobody else claims |
| `Mesh.EarliestClaimPrevails` | lxmf_hub/personas.py:68-74 | without renames the least claim time for a name, ties by id, is never cleared or nulled on any hub or in transit, however store calls interleave, and every hub that has it resolves the name to it |
| `Devices.TombstoneStands` | lxmf_hub/personas.py:269-277 | no uninterrupted merge undoes a tombstone by a row of the same or an older version |
| `Devices.MergeIsJoin` | lxmf_hub/personas.py:269-277 | merging a snapshot in any order computes the join of the two tables |
| `Devices.DevicesConverge` | lxmf_hub/personas.py:269-277 | one merge each way gives identical device rows if and only if equal versions were equal rows |
| `Devices.UnlinkBehindTheClockDiverges` | lxmf_hub/store.py:322-336 | an unlink on a hub whose clock is behind leaves two hubs with different rows of equal version |
| `Devices.UnlinkReplicatesIff` | lxmf_hub/store.py:1250-1260 | an unlink's tombstone replaces the active row elsewhere if and only if its time is past the linking and zero |
| `Linking.UninterruptedIsMergeDevice` | lxmf_hub/personas.py:269-277 | the steps of merging one device row, with no other in between, have the effect of the merge rule |
| `Linking.UninterruptedIsUnlink` | lxmf_hub/personas.py:180-195 | the steps of an unlink, with no other in between, go through exactly when it may and leave another device |
| `Linking.RecedesIff` | lxmf_hub/personas.py:269-277 | over any run of links, unlinks and store calls of merges, a device's row gives way to one no more recent if and only if a merge overwrites a row at least as recent as its own, or a member links or unlinks at a reading of the clock not past the row |
| `Linking.OverwrittenMeansWrittenSince` | lxmf_hub/personas.py:269-277 | a merge overwrites such a row only if it was written since the merge tested it |
| `Linking.UnlinkInBetweenIsUndone` | lxmf_hub/personas.py:269-277 | a run in which an unlink falls between test and write and its tombstone is undone |
| `Linking.EmptiesIffOthersGone` | lxmf_hub/personas.py:180-195 | in any run an unlink leaves its persona without a device if and only if the target is still there and the others went between the count and the update |
| `Linking.EmptiesOtherIffMoved` | lxmf_hub/personas.py:180-195 | it leaves another persona empty if and only if the target moved to it, as its only device, since it was checked |
| `Linking.TombstoneInBetweenEmpties` | lxmf_hub/personas.py:180-195 | a run in which a peer's tombstone falls between the count and the update and no device is left |
| `Registry.PersonaStore.SetPersonaName` | lxmf_hub/store.py:1183-1210 | a new name bumps the revision; a taken one is refused and changes nothing |
| `Registry.PersonaStore.UpsertPersona` | lxmf_hub/store.py:1212-1232 | the row is written as it came, unless the index refuses it |
| `Registry.PersonaStore.CreatePersona` | lxmf_hub/store.py:1091-1133 | the persona and its first device, or neither |
| `Registry.ValidNameInAscii` | lxmf_hub/personas.py:48-61 | the usernames accepted, told in lengths and ASCII codes |
| `Registry.PersonaRegistry.Claim` | lxmf_hub/personas.py:93-118 | afterwards device and name resolve to one persona, whose claim time stays; no other row moves; refusals change nothing |
| `Registry.PersonaRegistry.AdoptRow` | lxmf_hub/personas.py:243-267 | the in-place steps compute the rule for one row, losers and refusal included |
| `Registry.PersonaRegistry.Merge` | lxmf_hub/personas.py:225-241 | the in-place loops compute the merge of both tables |
| `Registry.PersonaRegistry.Unlink` | lxmf_hub/personas.py:180-195 | uninterrupted, an active device of the caller's own persona becomes a tombstone, and another active one is left |
| `TokenBuckets.TokenBucket.Consume` | lxmf_hub/egress.py:52-60 | refills up to the burst, then takes a token exactly if there is one |
| `TokenBuckets.TokenBucket.Refund` | lxmf_hub/egress.py:62-70 | gives a token back without exceeding the burst |
| `TokenBuckets.TokenBucket.TimeUntil` | lxmf_hub/egress.py:72-77 | with a positive rate a consume after this wait succeeds; at its end the bucket holds exactly one token |
| `TokenBuckets.ReplayValid` | lxmf_hub/egress.py:42-77 | tokens stay between zero and the burst through any paced sequence, refunds included |
| `TokenBuckets.HandoffBound` | lxmf_hub/egress.py:42-77 | in any window the messages handed over number at most burst + rate * length, and one more only if the first took its token before the window |
| `TokenBuckets.WindowBound` | lxmf_hub/egress.py:42-77 | in any window the messages whose tokens are taken in it number at most burst + rate * length |
| `TokenBuckets.OneOverTheBurst` | lxmf_hub/egress.py:158-195 | at every positive rate and every burst a slow first send lets one more than the burst go out at one instant |
| `Delivery.RunKeepsInv` | lxmf_hub/egress.py:197-301 | the invariants of accounting, budget and in-flight tracking hold after every step of every run |
| `Delivery.RowsConserved` | lxmf_hub/store.py:1382-1440 | a row once created is queued, or left for the recorded reason: delivered, attempts spent, message pruned, channel off |
| `Delivery.RunningChannelKeepsRows` | lxmf_hub/egress.py:419-427 | a row whose channel runs throughout never ends as obsolete |
| `Delivery.NoSecondCopy` | lxmf_hub/egress.py:197-301 | no row is handed over while an earlier copy of it is unresolved and inside its timeout or with the router |
| `Delivery.HandoffBudget` | lxmf_hub/egress.py:246-301 | across any crashes a row is handed over at most max_attempts times, never more often than its committed attempts |
| `Sending.SendPath` | lxmf_hub/egress.py:235-301 | every send, whatever it finds, is a path of single commits of the machine |
| `Sending.InterruptedPathIsRun` | lxmf_hub/egress.py:281-301 | a run that dies part-way through a send or a tick is a run of the machine |
| `Sending.HandedIff` | lxmf_hub/egress.py:235-301 | the router is given a message exactly when the row is neither still out nor over, its group attached, its recipient known, its message built and seeded |
| `Sending.RowAfterSend` | lxmf_hub/egress.py:235-301 | what a send leaves of its row, in attempts, graces and times: dropped exactly when over, put off by a grace without a group or a path, by an attempt otherwise |
| `Sending.PutOffIsNotDue` | lxmf_hub/store.py:730-748 | a row put off by a send is not due before the time it was put off to |
| `Sending.BackoffDoubles` | lxmf_hub/egress.py:550-552 | waits after failed attempts double up to the ceiling |
| `Sending.GraceDoubles` | lxmf_hub/egress.py:554-562 | waits for a path double up to the ceiling, sixteen times at most |
| `Scheduler.EgressScheduler.InFlight` | lxmf_hub/egress.py:199-216 | the check says busy exactly for an entry inside its timeout or with the router, renews the latter and drops a lost one |
| `Scheduler.EgressScheduler.Send` | lxmf_hub/egress.py:235-301 | the in-place branches compute the outcome of the send function and keep the tables sound |
| `Scheduler.EgressScheduler.SendPaced` | lxmf_hub/egress.py:158-195 | a send to a client happens exactly on a token, later than the token is taken, and gives it back when nothing went on air |
| `Scheduler.EgressScheduler.Tick` | lxmf_hub/egress.py:133-195 | a whole tick is a path of the machine; it stops dry, with a sufficient wait, or has tried its whole batch, which below the limit leaves out no client row due when it began |
| `Scheduler.EgressScheduler.OnCallback` | lxmf_hub/egress.py:496-545 | a callback releases its row, and completes it if delivered: the machine's callback step, and the tables stay sound |
| `Scheduler.ClientsPaced` | lxmf_hub/egress.py:133-195 | whatever was given to the router for clients since some attempt is at most burst + rate * elapsed, and one more if the first straddles the start |
| `Scheduler.FanOutIsEnqueue` | lxmf_hub/store.py:612-665 | the fan-out transaction is one enqueue step of the machine |
| `Scheduler.WritingIsEnqueue` | lxmf_hub/store.py:942-958 | queueing a notice or an answer is one enqueue step of the machine |
| `Scheduler.PruneIsStep` | lxmf_hub/store.py:1426-1440 | the prune transaction is one prune step of the machine |
| `Failover.SteadyPeerNeverAdopted` | lxmf_hub/failover.py:52-78 | over any lifetime of checks nobody is adopted from a peer that answers at least every two sync intervals from startup |
| `Failover.ChecksFollowSilence` | lxmf_hub/failover.py:106-151 | over any lifetime, in the configured timeout and sync interval: adoption follows long silence, hand-back a recent answer, and nothing changes too early after startup |
| `Failover.AdoptionsAlternate` | lxmf_hub/failover.py:155-206 | after every commit of every run adoption and hand-back alternate for each client, each announced at most once, and the table holds those last adopted |
| `Failover.FailoverEngine.Adopt` | lxmf_hub/store.py:885-899 | one commit adds these clients and returns exactly the new ones |
| `Failover.FailoverEngine.Announce` | lxmf_hub/store.py:942-958 | a notice queued is told once for one event; one already pending is not queued again |
| `Failover.FailoverEngine.AdoptPeer` | lxmf_hub/failover.py:155-186 | adopts exactly the peer's members of hosted groups that are no member here, each with its notice pending, nobody else touched |
| `Failover.FailoverEngine.Release` | lxmf_hub/failover.py:188-206 | hands back exactly the peer's adoptions, each with its notice pending, nobody else touched |
| `Failover.FailoverEngine.Check` | lxmf_hub/failover.py:140-151 | told in times: whoever can be adopted from a peer gone silent is, nobody from one heard lately, and others are as they were; the hub is isolated exactly when every peer has gone silent, and judged only when none is too early to tell |
| `Failover.FailoverEngine.CheckIsolation` | lxmf_hub/failover.py:208-241 | members are told on a change of isolation only, all of them and nobody else |
| `Failover.FailoverEngine.CheckDue` | lxmf_hub/failover.py:132-138 | checks at most once an interval and otherwise changes nothing |
| `Failover.UnknownChangesNothing` | lxmf_hub/failover.py:106-151 | a check changes nothing about an unknown peer, adopts only from stale ones and releases only from live ones |
| `Failover.IsolatedWhenAllStale` | lxmf_hub/failover.py:208-220 | with peers listed once each, isolated means every peer is stale |

## Left out

- Walk.MissingInEpoch: completeness is stated for depth up to 10. Beyond that the candidate list is cut at 1024 nodes (lxmf_hub/federation.py:470) and only the other clauses are claimed.
- Federation.Pull: the peer's table does not change during a pull, no request fails and no fan-out raises; `Walk.MissingInEpoch` and `Hub.GroupHub.IngestFederated` cover a changing peer and failures one operation at a time.
- Scheduler.EgressScheduler.Tick: callbacks do not land between the due query and the sends of one tick. The stop flag is not modelled; what has happened when it stops a tick is a prefix of the tick's path.
- Registry.PersonaRegistry.Merge: the method is one that nobody interrupts; what falls between its store calls is the subject of `Mesh` and `Linking`.
- Registry.PersonaRegistry.Unlink: likewise; what falls between its store calls is the subject of `Linking`.
- Linking.Link: minting a persona writes it and its first device in one transaction; here they are two steps, which only allows more interleavings.
- Mesh.Mint: the lookups a claim makes before its commit are not steps, since the index decides at the commit.
- Scheduler.EgressScheduler.SendPaced: one reading of the clock serves a whole send, its handoff included, after the one that serves the token.
- Scheduler.ClientsPaced: the bound is for one daemon lifetime, since the bucket starts full again after a restart.
- Failover.FailoverEngine.AdoptPeer: exactly-once notices are not claimed. A crash between the adoption and its notice loses the notice, because they are separate commits.
- Stores.Store.Enqueue: one id counter serves all four queue tables; the source has one per table. The text columns of notices, answers and directory replies are one field.
- Registry.PersonaRegistry.Claim: the name arrives stripped of surrounding blanks, and nobody else is at the store between the lookups and the commit; `Mesh.ClaimRefusedIffNameTakenSince` says what may have happened by then.
- Persona convergence under renames is not stated, because it is false: a losing row is stored nameless at its own version, and a later release of the name is not repaired by merging.
- `join`, link and unlink codes: a code is text with an expiry and `join` promises nothing about the persona a device leaves.
- Snapshot truncation: a table of more than 4096 rows is sent only in part; a snapshot here is the whole table.
- The case folding of names, the UTF-8 and double encodings and SHA-256 are parameters of which nothing is assumed.
- `fan_out` and `enqueue_egress`: the daemon stores and enqueues in one transaction instead.
- Unverified messages held for a later retry, user commands, operator commands, the directory and the status texts: each ends in an operation modelled here.
- RNS links, resources, identities and announces, LXMF routing and msgpack: the router holds a message, calls back once, drops it or raises; a request is answered from the peer's current table.
- At-rest encryption: it changes how columns are stored and not which rows there are.
- IEEE rounding: timestamps and tokens are exact reals, so the rounding of a division at an epoch edge is not covered.
- Fairness: a due row in flight is skipped without being deferred and can hold up later rows of a full batch.
- Notice texts are functions of peer and group; the addresses and ages printed in them are not modelled.
