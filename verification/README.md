# Verified model of zuku's resharding and data-effect tracking

zuku moves sharded arrays between device meshes without a central coordinator and orders tasks by
the data they use. This project models three of its layers in Dafny and proves what they promise.

* **Reshard plans.** Every processor computes its own half of a plan from the two shardings. The
  model covers mixed-radix shard indexing with permuted dims, tile rectangles, slices cut for
  partial replicas, the gather, scatter and scatter-gather plans, and the binomial broadcast tree.
* **Rendezvous protocol.** `ReshardManager` pairs the sends and receives of one key with two
  queues on each side, two phase-numbered barriers, user events and name messages. The model is a
  state machine over sends, receives, message deliveries and event firings in any interleaving; a
  second machine covers both sides in one address space.
* **Data-effect tracking.** `Store`, `View` and `Task` turn reads and writes into events. The model
  proves that the resulting order is enough for every execution to compute what program order
  computes.

`EndToEnd.ReshardDelivers` and `BroadcastData.BroadcastDelivers` join all three: however often the
same stores are resharded and used by tasks in between, and however calls, messages, firings and copies
interleave, a destination tile holds the round's data as soon as the events its receiver waits for have
fired. `ReshardCompletion.ReshardCompletes` and `BroadcastCompletion.BroadcastCompletes` add that these
events do fire, and `Halves.WorksIff` says for which pairs of shardings the plans are right at all.

## How the model is built

* An event is the set of elementary events merged into it (`Realm.Event`); merging is union, and
  `NO_EVENT` is the empty set. `Realm.Justified` says that everything that fired was enabled by
  what fired before. The runtime itself is a log of copies, triggers and barrier arrivals, with a
  `fault` flag that a failed assert, a second trigger or a second arrival sets.
* Code that updates state in place is imperative: the loops of `tiled_array.cc`, `shape.h` and the
  reshard files are methods over arrays and sequences, and `PointToPointReshard`, `Store`, `View`
  and `Task` are classes. Each method is proved equal to a specification function or predicate,
  and the theorems are about those.
* `History.Log` lists finished copies in the order in which they finish, over all keys, and
  `History.After` says what they leave in the instances. The two sides of an exchange are tied to the
  plans separately: senders by `Halves.Announced`, receivers by `Halves.Expected`.
* The precondition of a receive is that of the destination store (`EndToEnd.StoreAt`,
  `BroadcastData.StoreAt`): each round makes the store ready after the events of its receives, a
  broadcast also hands out a view for the leaves, and in between tasks and open-ended handles use the
  store or the program blocks on it (`StoreUses.Use`). Events of receives and views are known to other
  exchanges by name (`Upkeep.name`, `Cast.release`); a named event is over only after what it stands
  for, and a task's completion only after what its argument waits for. That rounds come in order is
  derived from this (`EndToEnd.RoundsBefore`, `BroadcastData.StoresMakeWait`).
* A nested task is a task like any other: it waits for the preconditions of the handles it takes, its
  body starts after it, and a handle counts as dropped when the task is done. `NestedPrograms` numbers
  a task right before its body.
* `TileRect`, `TileIndex`, `Sent`, `Received`, `FromSource`, `ToTarget`, `OnNames`, `Submitted`
  and `ChildOf` are the specification functions; the methods in the table connect them to the code's
  loops and updates.
* A configuration is tied to the device that computes it: `Shape.DeviceList.Places` says which shard a
  device holds, and the configuration methods state for every device what it announces.
* `NestedWaits.TaskUse` says how a task uses a store, by its arguments alone. What tasks wait for is
  characterised twice: by the events of the stores, and in program order (`NestedNeedsExactly`).
* Moving from an engaged `std::optional` leaves it engaged, so `child` copies `child_rw_event_` to
  the child and keeps it in the parent (src/zuku/store.h:166).

### What callers have to respect

`Shape.WellFormed` collects what the code needs of a sharding: `permutation` is a permutation of the
dim positions, the sharding of each real dim divides its size, at most one dim is a replica dim
(size 1, sharding above 1), and the product of the shardings is the number of devices (enforced at
src/zuku/tiled_array.cc:452). A change along one dim also needs one sharding to divide the other
there, the replica dim in last place (src/zuku/reshard_scatter_gather.cc:27 reads the index of the
box dim), and divided dims that the permutation leaves in order, because `ComputeTileShard` ignores
the permutation. `ScatterGatherPlan.PlansAgreeIff`, `TileBoxes.BoxIsTileIff` and
`TilePermutation.TileShardInvertsIff` say what each of the three is needed for, and
`Dispatch.ScatterGatherWorksIff` that wherever the strategy is chosen for two shardings of one array,
all of them together are what it takes. `Halves.Permitted` collects the conditions of all strategies;
`Halves.WorksIff` shows that they are exact.

### Where the code does less than one would expect

* `ComputeTileShard` undoes `ComputeTileIndex` only when the divided dims keep their order
  (`TileShardInvertsIff`).
* Scatter-gather halves agree only when one number of shards divides the other and the permutation
  leaves the divided dims in order (`PlansAgreeIff`, `ThreeToTwo`, `SwappedHalvesDisagree`), and its
  boxes are tiles only when the replica dim is last (`BoxIsTileIff`, `ReplicaFirstMisplaces`).
* The scatter halves agree only when the number of sources divides the number of destinations
  (`ScatterHalvesAgreeIff`).
* The broadcast child loop stops at the first child outside the group, so only groups of
  2^k - 2^j + 1 leaves are fed completely (`BroadcastCompleteIff`, `AllDeliveredIff`); a group of
  six leaves rank 5 without data.
* A broadcast source without a group returns early and drops its own target half, so a destination
  shard on its device is not fed (`SurplusSourceUnfed`, `AllDeliveredIff`). A shard that lists such a
  leaf never gets past its first round, because the view for its leaves is never released
  (`UnfedLeafStalls`).
* Name messages carry no sequence number; if one overtakes another, copies go to the wrong receive
  (`OvertakenNamesMispair`).
* The destructor of an open-ended child store looks at writers only, so a reader of the child can be
  overtaken (`ReaderOvertaken`, `WriterOvertakesNestedReader`); `ReadersAwaitedIff` says exactly when it
  can not. For programs of tasks, `LeadsIff` and `RaceFreeIff` say exactly which orders survive: readers
  that a child has inherited are awaited, through the task that takes the child
  (`InheritedReaderAwaited`), readers of the body are not (`ReaderLost`, `WriterFollowsIff`).

## Model

| member | source | states |
|---|---|---|
| `EndToEnd.ReshardDelivers` | src/zuku/reshard.cc:164-225 | for every strategy other than the broadcast, any number of rounds under the same keys, every mixture of local and remote exchanges and every interleaving, with each side calling by its own configuration and every receive waiting for what its store waits for: once the events of destination `d` in round `k` have fired, and until a later round's copy into it finishes, its tile equals the round-`k` array on its bounds and nothing beyond the tile has changed |
| `EndToEnd.RoundsBefore` | src/zuku/store.h:100-237 | when the precondition of a receive has fired, its destination has been released from all earlier rounds, whatever tasks, open-ended handles and waits of the program have used the store in between |
| `EndToEnd.EarlierRoundsFirst` | src/zuku/reshard_gather_shards.cc:23-47 | before a copy of a later round into a destination finishes, every copy of the earlier rounds into it has finished |
| `EndToEnd.NoEarlierRoundAfter` | src/zuku/reshard_scatter_gather.cc:193-215 | the copies into one destination finish round by round, however their keys interleave |
| `EndToEnd.EntryFollows` | src/zuku/reshard_manager.cc:261-282 | every finished copy is a planned transfer between the instances of its shards, although the two sides configured themselves separately |
| `BroadcastData.BroadcastDelivers` | src/zuku/reshard_broadcast.cc:110-182 | for any group sizes and device lists, any number of rounds and every interleaving, with receives and sends waiting for what their stores and views wait for: once a shard has been released from round `k`, and until a later round's copy into it finishes, its tile holds what the source of its group held in round `k`, however deep in the tree it sits |
| `BroadcastData.StoresMakeWait` | src/zuku/reshard_broadcast.cc:129-181 | because of the store and of the view for the leaves, a receive waits for the shard's earlier rounds and for the sends of these rounds to its leaves, and a send down the tree for the sender's own receive of the round |
| `BroadcastData.UnfedLeafStalls` | src/zuku/reshard_broadcast.cc:165-181 | in no run can a shard that lists a leaf without a target half start a second round |
| `ReshardCompletion.ReshardCompletes` | src/zuku/reshard_manager.cc:158-391 | once the first rounds have been called on both sides, all names have been delivered and what the sources wait for has fired, firing events alone releases every destination from all these rounds, and no event of a receive fires under another key before that receive has been released |
| `ReshardCompletion.PreconditionFrom` | src/zuku/store.h:113-237 | in each round a destination waits for nothing but its earlier rounds and the events of others that its store has been given |
| `BroadcastCompletion.BroadcastCompletes` | src/zuku/reshard_broadcast.cc:110-182 | when every shard is fed, the same for all shards of all trees, where a view is released only after the sends through it |
| `BroadcastCompletion.LeafWaits` | src/zuku/reshard_broadcast.cc:50-70 | a shard that is listed as a leaf and is fed gets its data from the shard that lists it |
| `Completion.Finish` | src/zuku/reshard_manager.cc:158-391 | under any key, in one address space or across two: after the earlier rounds, and when what both sides still wait for may fire, firing completes round `k` on both sides and changes no other exchange |
| `BroadcastData.ParentUndisturbed` | src/zuku/reshard_broadcast.cc:165-180 | between the copy into a parent and the same round's copy to one of its leaves, nothing is copied into the parent |
| `BroadcastData.CopyBrings` | src/zuku/reshard_broadcast.cc:129-182 | right after its copy of round `k`, a shard holds its group source's round-`k` data |
| `BroadcastData.HopStaysInGroup` | src/zuku/reshard_broadcast.cc:94-104 | a shard receives from the source of its group, or from an earlier shard of its group |
| `Halves.HalvesAgree` | src/zuku/reshard.cc:164-194 | under every permitted strategy a transfer is expected by some receiver exactly when some sender announces it to an existing shard |
| `Halves.OneRectPerKey` | src/zuku/reshard.cc:164-194 | source and destination shard of an announced transfer determine its bounds |
| `Halves.ChosenPlanDelivers` | src/zuku/reshard.cc:164-194 | whatever receivers expect under the chosen strategy lies inside source and destination tiles and covers every destination tile |
| `Halves.WorksIff` | src/zuku/reshard.cc:164-194 | whatever strategy is chosen for two shardings of one array: the halves agree and what receivers expect fills every destination tile from tiles that hold it, exactly when the strategy is permitted |
| `Exchanges.ReleasedMeansFinished` | src/zuku/reshard_manager.cc:313-391 | when the event that receive `k` got has fired, copy `k` has finished, after the preconditions of both sides, in one address space or across two |
| `Exchanges.SentMeansFinished` | src/zuku/reshard_manager.cc:210-289 | the same for send `k` |
| `Exchanges.StartsAfterBoth` | src/zuku/reshard_manager.cc:116-135 | copy `k` cannot finish before the preconditions of send `k` and receive `k` have fired |
| `Exchanges.CopyOfRound` | src/zuku/reshard_manager.cc:116-135 | copy `k` goes between the instances of send `k` and receive `k`, within the bounds on which the calls agree |
| `RemoteRuns.RemotePairing` | src/zuku/reshard_manager.cc:116-176 | in every run copy k goes from the instance of send k to that of receive k, after ready phase k and send k's precondition; receive k's precondition is the one arrival on ready phase k and copy k the one arrival on ack phase k; send k returns its copy and receive k ack phase k, directly or through a triggered user event, and calls not yet served return an untriggered one |
| `RemoteRuns.RemoteNeverFaults` | src/zuku/reshard_manager.cc:129-173 | in no run does an assert fail, a user event get triggered twice or a barrier phase get a second arrival |
| `RemoteRuns.RecvCausality` | src/zuku/reshard_manager.cc:371-390 | in every firing schedule, once the event returned to receive k has fired, copy k was issued and has finished and the preconditions of both sides had fired |
| `RemoteRuns.SendCausality` | src/zuku/reshard_manager.cc:246-281 | the same for the event returned to send k |
| `RemoteRuns.RemoteConservation` | src/zuku/reshard_manager.cc:142-174 | sends = copies + queued sources, receives = copies + queued offers + offers in flight; with no offer in flight copies = min(sends, receives); no target waiter is queued once the ack barrier is known |
| `RemoteRuns.PairCompletes` | src/zuku/reshard_manager.cc:158-174 | no completion is lost: with nothing in flight and the preconditions of the first k + 1 pairs fired, firing events of the exchange alone completes send k and receive k |
| `RemoteRuns.OvertakenNamesMispair` | src/zuku/reshard_manager.cc:356-360 | in any state with a waiting send and two offers in flight, delivering the second offer first sends the next copy to the wrong receive, so in-order delivery is needed |
| `RemoteSteps.NextPreserves` | src/zuku/reshard_manager.cc:137-391 | every send, receive, delivery and firing keeps the protocol invariant, from any state that satisfies it |
| `RemoteSteps.SendPreserves` | src/zuku/reshard_manager.cc:210-289 | a send keeps the invariant, whether it waits or is matched at once, and whether or not it announces the ack barrier |
| `RemoteSteps.RecvPreserves` | src/zuku/reshard_manager.cc:313-391 | a receive keeps the invariant, with the ack barrier known or not |
| `RemoteSteps.OfferPreserves` | src/zuku/reshard_manager.cc:142-157 | the delivery of an instance name at the source keeps the invariant |
| `RemoteSteps.AckPreserves` | src/zuku/reshard_manager.cc:158-174 | the delivery of the ack barrier at the target, with its drain loop, keeps the invariant |
| `RemoteSteps.DrainServes` | src/zuku/reshard_manager.cc:162-173 | the drain loop empties the queue and advances the ack barrier by one phase for each waiter |
| `RemoteSteps.ServedFacts` | src/zuku/reshard_manager.cc:162-173 | draining triggers waiter i with ack phase i, triggers nothing else and takes nothing back |
| `LocalProtocol.LocalRefinesZip` | src/zuku/reshard_manager.cc:261-281 | in one address space the copies equal the pairwise zip of sends and receives in every run; both calls of a pair return that pair's copy or a user event triggered with it; one queue is empty; nothing faults |
| `LocalProtocol.LocalCausality` | src/zuku/reshard_manager.cc:331-347 | the event a local call returned fires only after its own copy and both preconditions |
| `LocalProtocol.LocalPairCompletes` | src/zuku/reshard_manager.cc:331-347 | in one address space, firing completes both calls of a pair once both preconditions have fired |
| `LocalProtocol.LocalBounds` | src/zuku/reshard_manager.cc:223-228 | the bounds of an entry are those of one of the first calls |
| `Rendezvous.PointToPointReshard.RemoteCopyNextPendingToTarget` | src/zuku/reshard_manager.cc:116-135 | the mutable entry and the runtime end as `RemoteCopy` says |
| `Rendezvous.PointToPointReshard.ReceivePointToPointNames` | src/zuku/reshard_manager.cc:137-176 | the mutable entry and the runtime end as `OnNames` says, for instance names and for barrier names |
| `Rendezvous.PointToPointReshard.ReshardFromLocalSource` | src/zuku/reshard_manager.cc:210-289 | entry, runtime, spawned tasks and returned event are those of `FromSource` |
| `Rendezvous.PointToPointReshard.ReshardToLocalTarget` | src/zuku/reshard_manager.cc:313-391 | entry, runtime, spawned tasks and returned event are those of `ToTarget` |
| `Rendezvous.PointToPointReshard.constructor` | src/zuku/reshard_manager.h:90-105 | a new entry has no barriers, empty queues and no shape |
| `Dispatch.DetermineShardingConfig` | src/zuku/reshard.cc:164-194 | for well-formed shardings, when each strategy is chosen in terms of the dims: which side has a replica dim, which side keeps all real dims whole, on which dims they differ |
| `Dispatch.OutcomeByDims` | src/zuku/reshard.cc:164-194 | the ordered case distinction on device counts amounts to that distinction on dims |
| `Dispatch.DetermineScatterGather` | src/zuku/reshard.cc:67-101 | chooses dim j exactly when j is the only dim on which the shardings differ, and is unsupported otherwise |
| `Dispatch.ScatterGatherBoxesIff` | src/zuku/reshard.cc:67-101 | wherever scatter-gather is chosen for two shardings of one array, its configuration is defined, and the boxes of the finer side are its tiles exactly when no dim comes behind the replica dim |
| `Dispatch.ScatterGatherWorksIff` | src/zuku/reshard.cc:67-101 | wherever scatter-gather is chosen for two shardings of one array: the halves agree and fill the destination exactly when one number of shards divides the other, the divided dims keep their order and the replica dim is last |
| `Dispatch.SameSizeAt` | src/zuku/reshard.cc:67-101 | shardings of one array that differ on one dim give it the same size, replica dims included |
| `ScatterGatherPlan.SamePermutation` | src/zuku/reshard.cc:72-77 | shardings that differ on one dim only have the same permutation there too |
| `Delivery.DeliveredTile` | src/zuku/reshard_manager.cc:90-114 | running copies of a delivering plan in any order, once the copies into a tile have all run, leaves the global array in the tile and the rest unchanged |
| `Delivery.ElementAfter` | src/zuku/reshard_manager.cc:90-114 | what one destination element holds after any sequence of copies |
| `GatherShards.GetGatherShardsConfig` | src/zuku/reshard_gather_shards.cc:84-108 | each device, by its number: it announces as sender exactly the tile of the shard it holds, to every destination shard, and as receiver exactly the tiles of all sources, for the shard it holds |
| `GatherShards.SentByHolder` | src/zuku/reshard_gather_shards.cc:42-65 | for any pieces: the holder of a source shard announces that shard's piece to every destination shard, and no other device announces it |
| `GatherShards.ReceivedByHolder` | src/zuku/reshard_gather_shards.cc:17-40 | the holder of a destination shard announces the piece of every source shard, and no other device does |
| `GatherShards.GatherShardsFromLocalSource` | src/zuku/reshard_gather_shards.cc:42-65 | the keys and bounds a sender announces |
| `GatherShards.GatherShardsToLocalTarget` | src/zuku/reshard_gather_shards.cc:17-40 | the keys and bounds a receiver announces |
| `GatherShards.GatherHalvesAgree` | src/zuku/reshard_gather_shards.cc:17-65 | for every transfer and every device: the device announces it as sender exactly when it is in the global plan and the device holds its source shard, and as receiver exactly when the device holds its destination shard |
| `GatherShards.GatherShardsDelivers` | src/zuku/reshard_gather_shards.cc:84-108 | gathering whole tiles fills every tile of a replicated destination |
| `ScatterShards.ScatterShardsFromLocalSource` | src/zuku/reshard_scatter_shards.cc:52-83 | the keys and bounds of the destination shards dealt to a source |
| `ScatterShards.ScatterShardsToLocalTarget` | src/zuku/reshard_scatter_shards.cc:20-50 | the key and bounds a destination shard expects |
| `ScatterShards.ReshardScatterShards` | src/zuku/reshard_scatter_shards.cc:94-103 | a device sends and expects exactly the transfers of the shards it holds |
| `ScatterShards.DealtOut` | src/zuku/reshard_scatter_shards.cc:25-61 | by the numbers of shards alone: source shard `s` sends to, and is named by, exactly the destination shards `each * s` up to `each * s + each - 1` |
| `ScatterShards.ScatterHalvesAgreeIff` | src/zuku/reshard_scatter_shards.cc:27-66 | the two halves announce the same transfers exactly when the number of sources divides the number of destinations |
| `ScatterShards.ScatterShardsDelivers` | src/zuku/reshard_scatter_shards.cc:52-83 | when they agree, scattering fills every destination tile |
| `PartialReplication.FindReplicaDim` | src/zuku/reshard.cc:106-115 | finds the replica dim of a partially replicated sharding |
| `PartialReplication.FindSliceDim` | src/zuku/reshard.cc:118-132 | finds the first real dim that can be cut once more for each copy, or reports that there is none |
| `PartialReplication.SliceOfShard` | src/zuku/reshard.cc:149-154 | cuts from a shard's tile the slice with the shard's copy number |
| `PartialReplication.SlicesOfAllShards` | src/zuku/reshard.cc:146-155 | the slices of all source shards |
| `PartialReplication.DeterminePartialToReplicatedConfig` | src/zuku/reshard.cc:103-162 | unsupported exactly when no dim can be cut; otherwise each device announces as sender exactly the slice of the shard it holds, and as receiver exactly the slices of all sources for the shard it holds |
| `TileNumbering.SlicesInOrder` | src/zuku/reshard.cc:21-30 | the copies of a tile send their slices in the order of their copy numbers along the dim that is cut |
| `TileNumbering.SlicesEqual` | src/zuku/reshard.cc:21-30 | all slices are equally thick there |
| `PartialReplication.SliceHolds` | src/zuku/reshard.cc:19-29 | a shard's slice holds an element exactly when its tile does and its copy number is the element's slice number |
| `PartialReplication.SlicesPartitionArray` | src/zuku/reshard.cc:116-155 | over all shards, for any permutation and wherever the replica dim sits, every element lies in exactly one slice |
| `PartialReplication.SliceInsideTile` | src/zuku/reshard.cc:136-144 | a slice lies inside the sender's own tile |
| `PartialReplication.PartialToReplicatedDelivers` | src/zuku/reshard.cc:103-162 | the slices fill every tile of a replicated destination |
| `Pairwise.DetermineFullyReplicated` | src/zuku/reshard.cc:49-65 | broadcast exactly for more destinations than sources; otherwise only devices without a part stand idle, and every device with a part pairs up |
| `Pairwise.ReshardPointToPoint` | src/zuku/reshard_point_to_point.cc:68-87 | a device sends exactly the tile of the source shard it holds, and expects exactly that of the destination shard it holds, under the same number |
| `ScatterGatherPlan.GetScatterGatherConfig` | src/zuku/reshard_scatter_gather.cc:65-143 | both halves of a device's configuration, in both directions, for any two shardings whose numbers of shards differ on the dim |
| `ScatterGatherPlan.ConfigureDevice` | src/zuku/reshard.cc:79-98 | a device lists exactly the transfers sent by the source shard it holds and those expected by the destination shard it holds |
| `ScatterGatherPlan.CoarseSlices` | src/zuku/reshard_scatter_gather.cc:92-107 | the loop that overwrites `index[dim]` lists one piece for each fine shard below the coarse one |
| `ScatterGatherPlan.FineSlice` | src/zuku/reshard_scatter_gather.cc:80-90 | the fine side's whole tile and the coarse shard above it |
| `TileBoxes.MakeTileBoxN` | src/zuku/reshard_scatter_gather.cc:18-33 | for any position of the replica dim, box dim `b` gets the tile that digit `b` of the index names on real dim `b` |
| `TileBoxes.BoxIsTileIff` | src/zuku/reshard_scatter_gather.cc:18-33 | the boxes of all shards are their tiles exactly when no dim comes behind the replica dim |
| `TileBoxes.BoxMisplaced` | src/zuku/reshard_scatter_gather.cc:24-30 | otherwise the second copy of the first tile gets a box with an element outside its tile |
| `TileBoxes.ReplicaFirstMisplaces` | src/zuku/reshard_scatter_gather.cc:24-30 | with two copies of four tiles of eight elements, shard 1 gets elements 0 and 1 instead of 2 and 3 |
| `TileBoxes.MakeTileBox` | src/zuku/reshard_scatter_gather.cc:37-63 | the result is that box when the number of box dims is the number of real dims |
| `ScatterGatherPlan.PlansAgree` | src/zuku/reshard_scatter_gather.cc:76-141 | when one number of shards divides the other and the divided dims keep their order, the transfers sent over all shards are exactly the transfers expected, in both directions, without duplicates on either side |
| `ScatterGatherPlan.PlansAgreeIff` | src/zuku/reshard_scatter_gather.cc:76-141 | for any two shardings that differ on one dim only: the same transfers are sent and expected exactly then |
| `ScatterGatherPlan.LeftOver` | src/zuku/reshard_scatter_gather.cc:83-85 | when the numbers do not divide, some fine shard names a coarse shard that does not count it among its pieces |
| `ScatterGatherPlan.Unlisted` | src/zuku/reshard_scatter_gather.cc:76-107 | when the divided dims are out of order, there is such a shard too, whether or not the numbers divide |
| `ScatterGatherPlan.SwappedHalvesDisagree` | src/zuku/reshard_scatter_gather.cc:76-107 | two dims swapped by the permutation, from 2 x 4 to 2 x 2 tiles: source shard 1 sends to destination shard 2, while destination shard 0 expects from source shard 1 |
| `ScatterGatherPlan.ThreeToTwo` | src/zuku/reshard_scatter_gather.cc:77-90 | from three tiles to two, source shard 2 sends to destination shard 2, which does not exist |
| `ScatterGatherPlan.ScatterGatherDelivers` | src/zuku/reshard_scatter_gather.cc:65-143 | the plan fills every destination tile, whichever side is finer |
| `ScatterGather.GatherAgreement` | src/zuku/reshard_scatter_gather.cc:76-107 | gather direction: a transfer is sent exactly when it is expected |
| `ScatterGather.ScatterAgreement` | src/zuku/reshard_scatter_gather.cc:108-141 | scatter direction: the same |
| `ScatterGather.NoTransferTwice` | src/zuku/reshard_scatter_gather.cc:97-106 | the pieces of a coarse shard are pairwise different transfers |
| `ScatterGather.ParentChild` | src/zuku/reshard_scatter_gather.cc:81-85 | dividing one coordinate of a fine shard's index lands on a valid coarse shard, of which the fine shard is a child |
| `ScatterGather.ChildParent` | src/zuku/reshard_scatter_gather.cc:95-101 | multiplying it back lands on valid fine shards, whose parent is the coarse shard |
| `ScatterGather.ChildHolds` | src/zuku/reshard_scatter_gather.cc:76-90 | a fine tile lies inside the tile of its parent when a real dim changes |
| `ScatterGather.ChildrenPartitionTile` | src/zuku/reshard_scatter_gather.cc:92-107 | when a real dim changes, each element of a coarse tile lies in the tile of exactly one child |
| `Broadcast.FindCover` | src/zuku/reshard_broadcast.cc:31-37 | the smallest power of two that covers the group |
| `Broadcast.FindBlock` | src/zuku/reshard_broadcast.cc:39-48 | the split search terminates with the largest power of two that divides the rank, or the covering power for rank 0 |
| `Broadcast.ListLeaves` | src/zuku/reshard_broadcast.cc:52-59 | the child loop lists the children down from the largest offset until the first one outside the group |
| `Broadcast.GetTargetConfig` | src/zuku/reshard_broadcast.cc:20-70 | what a rank waits on and sends to, for odd and even ranks |
| `Broadcast.ListedWaitsOnLister` | src/zuku/reshard_broadcast.cc:50-59 | every listed child is inside the group and waits on the rank that lists it, for every group size |
| `Broadcast.ListedIffFirstFits` | src/zuku/reshard_broadcast.cc:55-59 | a parent lists its child exactly when its first child is inside the group |
| `Broadcast.ChildrenHalve` | src/zuku/reshard_broadcast.cc:52-59 | the first child is one offset away, and each further one at half the offset of the one before |
| `Broadcast.BroadcastCompleteIff` | src/zuku/reshard_broadcast.cc:23-59 | every non-root rank is listed by the parent it waits on exactly when the group has 2^k - 2^j + 1 leaves |
| `Broadcast.AllReachedIff` | src/zuku/reshard_broadcast.cc:23-59 | all ranks of a group are reached from its root exactly for those sizes |
| `Broadcast.DepthBound` | src/zuku/reshard_broadcast.cc:28-50 | parent chains end at the root after at most log2 of the covering power of two hops |
| `BroadcastGroups.GetBroadcastConfig` | src/zuku/reshard_broadcast.cc:74-108 | a device's source and target halves, with the early return for a source without a group; source `s` names destination `s * n`, for the least group size `n` with which the sources are enough |
| `BroadcastGroups.LeavesBounds` | src/zuku/reshard_broadcast.cc:77-78 | the groups are large enough for all destinations, and no larger |
| `BroadcastGroups.PlaceByCounts` | src/zuku/reshard_broadcast.cc:95-100 | group, rank and group size of a destination shard, by the numbers of sources and destinations alone |
| `BroadcastGroups.EvenGroups` | src/zuku/reshard_broadcast.cc:77-100 | when the sources divide the destinations, every source feeds exactly its share, a block of `targets / sources` shards |
| `BroadcastGroups.GetTarget` | src/zuku/reshard_broadcast.cc:94-104 | the target half of a destination shard is that of its place in its group |
| `BroadcastGroups.GroupFacts` | src/zuku/reshard_broadcast.cc:77-100 | the groups partition the destination shards, each rank is inside its group and each group's number is that of a source |
| `BroadcastGroups.RootsMatch` | src/zuku/reshard_broadcast.cc:85-103 | a shard's configuration names the source that names the shard as its root, and only that one |
| `BroadcastGroups.AllDeliveredIff` | src/zuku/reshard_broadcast.cc:74-108 | by the configurations the devices really compute: every destination shard is fed exactly when every group has 2^k - 2^j + 1 leaves and no source without a group sits on a destination device |
| `BroadcastGroups.SurplusSourceUnfed` | src/zuku/reshard_broadcast.cc:86-89 | four sources and five destinations on devices 0 to 4: all groups are of good size, and destination shard 3 is never fed |
| `BroadcastGroups.DeliveredIsReached` | src/zuku/reshard_broadcast.cc:81-104 | a shard is fed only if the tree of its group reaches it and it does not sit on a source without a group |
| `TiledArray.ComputeTileIndex` | src/zuku/tiled_array.cc:183-207 | the loops compute `TileIndex`, for any permutation |
| `TiledArray.Unpermute` | src/zuku/tiled_array.cc:185-191 | extents in permuted order, and for each position the dim it came from |
| `TiledArray.PlaceDigits` | src/zuku/tiled_array.cc:193-206 | the stride loop puts each mixed-radix digit at its dim |
| `TiledArray.TileIndexBijection` | src/zuku/tiled_array.cc:183-207 | shards and valid tile indices correspond one to one, in every number of dims and for every permutation |
| `TileNumbering.NextTile` | src/zuku/tiled_array.cc:183-207 | the next tile along a dim belongs to the shard whose number is larger by the number of tiles of all dims with a larger permutation |
| `TileNumbering.FirstTile` | src/zuku/tiled_array.cc:183-207 | shard 0 holds the first tile of every dim |
| `TiledArray.ComputeTileShard` | src/zuku/tiled_array.cc:170-181 | the mixed-radix value of the index over the unpermuted shardings; 0 for no dims |
| `TilePermutation.TileShardIsShardAt` | src/zuku/tiled_array.cc:170-207 | when the divided dims keep their order, it is the shard with that tile index |
| `TilePermutation.TileShardInvertsIff` | src/zuku/tiled_array.cc:170-207 | `ComputeTileShard` undoes `ComputeTileIndex` on every shard exactly when the permutation keeps the order of the divided dims |
| `ScatterGather.IndexRoundTrip` | src/zuku/tiled_array.cc:170-207 | from a shard to its index and back |
| `ScatterGather.ShardRoundTrip` | src/zuku/tiled_array.cc:170-207 | from a valid index to its shard and back |
| `TiledArray.ComputeTileBounds` | src/zuku/tiled_array.cc:209-231 | the rectangle of a shard, including arrays without real dims |
| `TiledArray.FillTileRect` | src/zuku/tiled_array.cc:59-73 | the loop skips the replica dim and fills one rectangle dim for each real dim |
| `TileCoverage.TileCoverageCount` | src/zuku/tiled_array.cc:40-74 | over all shards every array element lies in exactly as many tiles as there are copies |
| `TileCoverage.HolderUnique` | src/zuku/tiled_array.cc:40-74 | a tile holds an element exactly when its shard is the holder of the element for its copy number |
| `TileCoverage.TileHolds` | src/zuku/tiled_array.cc:40-74 | a tile holds an element exactly when its real tile index is the grid cell of the element |
| `TileCoverage.TileInArray` | src/zuku/tiled_array.cc:40-74 | tiles lie inside the array |
| `TileNumbering.TilesInOrder` | src/zuku/tiled_array.cc:40-74 | along each dim of the array, tiles lie in the order of their indices |
| `TileCoverage.TileVolume` | src/zuku/shape.h:142-151 | the volume of every tile equals the product of the local extents, which `NumLocalElements` and `ShardElements` compute |
| `TileCoverage.ComputeRealmShapeSize` | src/zuku/tiled_array.cc:76-83 | the loop computes the volume of a rectangle |
| `Shape.NumLocalElements` | src/zuku/shape.h:142-151 | dividing before multiplying gives the product of the local extents |
| `Shape.ShardElements` | src/zuku/shape.h:217-227 | dividing after multiplying gives the same |
| `Shape.TotalSharding` | src/zuku/shape.h:120-129 | the product of the shardings of the dims larger than 1 |
| `Shape.NumRealDims` | src/zuku/shape.h:133-140 | the number of dims that are not replica dims |
| `Shape.ShardsTimesReplicas` | src/zuku/shape.h:153-160 | shards times copies is the number of devices |
| `Shape.ReplicationClasses` | src/zuku/shape.h:153-160 | how the three replication predicates relate to the number of copies |
| `Determinacy.Determinate` | src/zuku/store.h:121-204 | for any program of tasks with any read and write sets, and waits, every execution that respects the preconditions shows each task the values of program order, and ends with its final stores |
| `Determinacy.RaceFree` | src/zuku/store.h:159-239 | a task never starts before an earlier task it conflicts with is done |
| `Determinacy.OrderedDone` | src/zuku/store.h:159-239 | RAW, WAR and WAW pairs are ordered, directly or through other operations |
| `Determinacy.NeedsExactly` | src/zuku/task.h:228-251 | an operation waits, on account of a store, for exactly the earlier writers and, if it writes or waits, the readers since the last write |
| `Determinacy.StateContents` | src/zuku/store.h:191-237 | `child_rw_event_` holds exactly the writers since the last wait and `war_precondition_` exactly the readers since the last write or wait |
| `Determinacy.Progress` | src/zuku/task_base.h:42-56 | preconditions never deadlock: until all is done, some operation can start or finish |
| `NestedPrograms.NestedDeterminate` | src/zuku/store.h:159-253 | for tasks nested to any depth, which submit through the open-ended stores and views they were given: if the program is free of races, every execution that respects the preconditions shows each task the values of program order and ends with its final values |
| `NestedPrograms.RaceFreeIff` | src/zuku/task.h:228-251 | no two conflicting tasks overlap or swap in any execution exactly when all that tasks would wait for with bodies written in place comes before them |
| `NestedPrograms.LeadsIff` | src/zuku/defer.h:349-422 | in all executions task i is done when task j starts, exactly when a chain of waits and enclosing tasks leads from j to i |
| `NestedPrograms.OverlapIff` | src/zuku/defer.h:349-422 | two tasks run at the same time in some execution exactly when no such chain leads from the later to the earlier one |
| `NestedWaits.NestedNeedsExactly` | src/zuku/task.h:228-251 | for tasks nested to any depth: on account of a store, a task waits for exactly the earlier tasks that write it or take a child of it and do not enclose the task, and, if it writes or takes a child, for the earlier readers and viewers within the same child that no writer in between has waited for |
| `NestedWaits.ReadersDoNotWait` | src/zuku/store.h:226-253 | two tasks that only read or view a store never wait for each other on account of it |
| `NestedWaits.ReadersOverlap` | src/zuku/store.h:226-253 | in a program that only reads and views its stores, any two tasks run at the same time in some execution |
| `NestedWaits.ViewerDoesNotWait` | src/zuku/store.h:241-253 | a task that takes a view does not wait for an earlier reader, and some execution overlaps them |
| `NestedPrograms.NestedProgress` | src/zuku/defer.h:349-422 | nested programs never deadlock |
| `NestedOrder.TidyKeepsOrder` | src/zuku/store.h:296-316 | if no child store is dropped with tasks of its own body left as readers, all that tasks would wait for in place comes before them, so the program is free of races |
| `NestedOrder.WriterFollowsIff` | src/zuku/store.h:68-74 | a writer after a task that takes a child follows all it would follow in place exactly when the child is dropped with none of the body's tasks left as a reader |
| `NestedOrder.ReaderLost` | src/zuku/store.h:68-74 | in any program and position, a task of the body that is left as a reader on a dropped child is lost: what the store's next writer waits for neither contains it nor leads to it |
| `NestedOrder.InheritedReaderAwaited` | src/zuku/store.h:296-305 | a reader before the task that takes the child is awaited by the next writer, through that task |
| `NestedOrder.WriterOvertakesNestedReader` | src/zuku/store.h:68-74 | a body that only reads, followed by a writer: the read need not be done when the writer starts |
| `NestedOrder.NestedViewWaits` | src/zuku/future.h:256-267 | a read through nested views waits for the writers the first view started with |
| `NestedOrder.ViewWaits` | src/zuku/store.h:241-253 | and so does the same read written in place |
| `Stores.Store.Precondition` | src/zuku/store.h:113-134 | both events merged, and present exactly when one of them is |
| `Stores.Store.MakeReadyAfter` | src/zuku/store.h:191-202 | merges the writer and forgets the readers |
| `StoreUses.EarlierOver` | src/zuku/store.h:100-237 | whoever waits for a store later thereby waits for all that it would have waited for earlier, whatever tasks, handles and waits come in between |
| `StoreUses.ReadyAfterStays` | src/zuku/store.h:191-237 | what a store has been made ready after stays in its precondition, whatever tasks use it in between |
| `StoreUses.OnlyFromUses` | src/zuku/store.h:100-237 | a store waits for nothing but what it waited for before, or was given by the uses |
| `Stores.Store.ChildUntil` | src/zuku/store.h:159-172 | the child starts with what the parent waited for, and the parent waits for the child's event |
| `Stores.Store.OpenChild` | src/zuku/store.h:176-189 | the same with a fresh event, which the child holds for notification and the parent waits for |
| `Stores.Store.ViewUntil` | src/zuku/store.h:226-237 | the view waits for the writers, and later writers wait for the view's event |
| `Stores.Store.OpenView` | src/zuku/store.h:241-253 | the view holds a user event that did not exist before, waits for the writers only, and the store's readers gain exactly that event |
| `Stores.Store.Wait` | src/zuku/store.h:100-109 | waits for both events and forgets them |
| `Stores.Store.Destroy` | src/zuku/store.h:68-74 | notifies the parent after the child's writers |
| `Stores.View.SubView` | src/zuku/future.h:256-262 | an open-ended subview, whose event the view remembers |
| `Stores.View.SubViewUntil` | src/zuku/future.h:264-267 | a subview with a given event, which the view remembers |
| `Stores.View.DoneAfter` | src/zuku/future.h:269-272 | counts the event as one more subview |
| `Stores.View.Release` | src/zuku/future.h:203-221 | triggers the release event after exactly what any of the remembered events waits for; at once when there is none |
| `Stores.MergeAll` | src/zuku/future.h:205-210 | the merge of some events waits for what any of them waits for, and for nothing else |
| `Stores.Task.constructor` | src/zuku/task.h:172-185 | every store argument is updated as its access demands, and the merged precondition is exactly that of the arguments' preconditions |
| `Stores.Task.AddTaskDependencies` | src/zuku/task.h:228-251 | collects the preconditions of the arguments that have one |
| `Stores.Task.MergePreconditions` | src/zuku/task_base.h:42-56 | merges and clears the collected events, is empty if there are none, and is an error the second time |
| `Release.NestedRelease` | src/zuku/future.h:203-272 | in every run, once the event of an open-ended view or child has fired, every handle below it has been destroyed and released and every event added to any of them has fired |
| `Release.NextKeeps` | src/zuku/store.h:68-253 | opening subviews and children, opening views of stores, adding, reading, waiting, destroying, firing and anything the rest of the program does keep the invariant of the handles |
| `ReleaseProgress.ReleaseFires` | src/zuku/future.h:203-272 | the converse of `NestedRelease`: once a handle and all below it are destroyed and what was added to them has fired, firing the events of these handles alone fires its own |
| `ReleaseProgress.WaiterReleased` | src/zuku/store.h:226-253 | whoever waits for writers and readers that are done, or are handles gone with all below them, is released by firing events of handles alone |
| `ReleaseProgress.RunReleases` | src/zuku/store.h:113-134 | in every run, this holds for the precondition of every store |
| `ReleaseProgress.LookIsReader` | src/zuku/store.h:241-253 | a view of a store is one more reader of the store, through the event that the view holds |
| `Release.ReaderOvertaken` | src/zuku/store.h:68-74 | a run in which the parent of a child store is notified although a reader of the child is not done |
| `ReaderRelease.ReadersAwaitedIff` | src/zuku/store.h:68-74 | in every state, with whatever is still open below the child: the parent can never overtake a reader of the child exactly when each reader is done or the child's event has no derivation, through triggers, barriers, copies and open handles, that avoids the reader |
| `ReaderRelease.WritersAwaited` | src/zuku/store.h:68-74 | in particular, readers that are also among the pending writers are never overtaken |
| `ReaderRelease.FiredWithout` | src/zuku/store.h:68-74 | whatever a continuation fires without the reader has a derivation without it |
| `ReaderRelease.FireWithout` | src/zuku/store.h:68-74 | and every derivation without the reader is a continuation that fires the event without it |

## Left out

- RemotePairing: assumes that messages in one direction are delivered in order; `OvertakenNamesMispair` shows that the code needs this.
- ReshardDelivers: takes the contents of the source tiles in each round as given; that tasks refill them only between rounds is the subject of `RaceFree` and `NestedRelease`.
- BroadcastDelivers: says what a fed shard holds; which shards are fed is `AllDeliveredIff`.
- ScatterGatherDelivers: needs the conditions under "What callers have to respect"; `ScatterGatherWorksIff` shows that they are exact.
- ScatterShardsToLocalTarget: more sources than destinations divide by zero in the code and are excluded.
- NestedRelease: covers writers below a child store, not readers of it; `ReadersAwaitedIff` gives the exact condition for those.
- RunReleases: events added to handles are those of the rest of the program or exist when they are added; no step waits for a user event that nobody has created yet.
- ReadersAwaitedIff: what has not been issued or arrived yet is taken to be able to happen at any time, and completions of tasks to be independent of each other.
- ComputeTileBounds: more real dims than the runtime supports raise an error in the code; the model has no such limit.
- GetBroadcastConfig: is modelled for more destinations than sources, the only case in which it is called.
- Stores.Task.constructor: the same store passed twice to one task is excluded.
- Determinate: programs are flat, and stores start without a pending creation event; tasks that submit through open-ended stores and views are `NestedDeterminate`.
- NestedDeterminate: bodies of nested tasks do not block on a store; the events of handles are replaced by what they wait for, which `NestedRelease` justifies.
- LeadsIff: speaks of order, not of values; a program whose order is not kept may still compute the right values by chance.
- ReshardCompletes: takes the sources to be ready and the events of tasks and of other arrays to be able to fire at any time; progress of tasks is `Progress` and `NestedProgress`.
- BroadcastCompletes: needs every shard to be fed, which `AllDeliveredIff` decides; `UnfedLeafStalls` shows what happens otherwise.
- Integers are unbounded; overflow of 64-bit indices and sizes is not modelled.
- Each manager call is one atomic step, because it runs under the manager's lock.
- The data type, memory layout and size of elements; a copy moves one value for each element.
- The stream half of a precondition, stream-ordered control events and GPU tasks.
- Promises and futures, and the life time of the values that stores and views share.
- Moving a view forgets its subviews (src/zuku/future.h:196-201); handles are never moved in the model.
- The eager protocol, which is never selected.
- Tile caches, allocation failure, global ids, profiling, logging, hashing and initialisation.
