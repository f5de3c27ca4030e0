# nl6: a verified model of the simulator's stateful core

nl6 simulates network devices. This project models the parts of it that carry whole-run promises, and proves those
promises for every input and every interleaving. `dafny verify dfyconfig.toml` checks everything.

* **Counters** (`HoldLedger`, `Seqlock`, `HoldHooks`, `Hierarchy`, `CounterRollup`). Interface counters follow a
  time-driven dial. A ledger freezes them while an interface is not up; children read a share of what their parent
  serves, aggregates the sum of what their members serve. Readers run lock-free against serialised writers under a
  seqlock. The central results: no poll of any slot ever goes backwards, the underflow guard is dead code, the hooks
  that open and close holds converge on the engine's state in any order, children never sum to more than their parent,
  and an aggregate is its members' sum.
* **Interface state** (`StateEngine`, `StateWord`, `Mutators`, `MutatorRuns`, `OnChange`). Link, admin and last-change
  are stored, oper-status is derived (sections 3.1.13, 3.1.14 and 6 of RFC 2863). Over every run the reported
  transitions are an unbroken chain, last-change is the stamp of the latest one, and stored values are the last ones
  set. Interleaved mutators amount to a sequential run, the packed word survives any number of threads retrying
  compare-and-swap, and an ON_CHANGE client ends up with the engine's state, with one exception that is delimited
  exactly.
* **Flow export** (`Wire`, `Ipfix`, `IpfixEncoder`, `FlowTick`, `FlowCollector`, `FlowCache`). From the cache through
  the tick's pagination to IPFIX bytes (RFC 7011) and back: a collector that knows only the templates it was sent reads
  every record once, in order, with sequence numbers that count Data Records.
* **SNMP walks** (`NextOid`). The column scan and bisection of GETNEXT agree with the plain sorted table (section 4.2.2
  of RFC 3416), except in one gap, which is delimited exactly.
* **gNMI catalogue** (`CatalogGuard`, `JsonFold`). The load guard is sound for what is rendered later; the JSON_IETF
  fold keeps every leaf (section 5.4 of RFC 7951) and fails exactly on a clash, so that a Get reads back what was told.
* **Smaller machines** (`FlapScheduler`, `DnsLabel`, `DnsZone`, `Fidelity`, `Decimal`, `Sorting`). The indexed event
  heap, DNS naming and reverse zones, and the silence switch with its stale timer callbacks.

Imperative code is modelled imperatively: classes with `modifies` clauses and loops proved against specification
functions. Concurrent code is modelled as a system of steps, one atomic access per step, and proved over all runs. The
dial is an arbitrary non-decreasing function of time; random draws, clocks and write outcomes are arbitrary inputs.

## Findings

* A held *child* or *aggregate* can rise while it is held: when its parent or a member comes up again, every earlier
  reading of that interface is lifted to what it served as its own hold began (`HoldLedger.CloseLiftsThePast`,
  `HoldLedger.HeldChildCanRise`, `HoldLedger.BounceLiftsAggregate`). It stays flat if and only if no such hold ends, or
  the lift does not show through the share or the sum (`HoldLedger.ChildFlatExactly`, `HoldLedger.AggregateFlatExactly`,
  `HoldLedger.GrandchildFlatExactly`); in particular when the other interface went down first
  (`HoldLedger.HeldChildFlat`). Over a whole hold, whatever is written meanwhile, it stays flat if and only if every
  single write leaves it so (`HoldLedger.HoldFlatExactly`), and it does when nothing it depends on falls in that time
  (`HoldLedger.HoldStaysFlat`). Standalone holds are always flat.
* Oper-status of a child takes two loads, its own word and then its parent's, although the accessor's comment speaks of
  a single one. Between them a child can be given the link lowerLayerDown, unseen beneath a down parent, and the parent
  can rise, unfelt by the child. The reader then reports up, and an ON_CHANGE client keeps that (`OnChange.TornRun`). A
  leaf is always right once the stream is quiet if and only if it is not the oper-status of a child that may be given
  the link lowerLayerDown (`OnChange.ViewRightExactly`).
* The hold hook reads the same two loads, so its comment's promise that hooks run out of order converge fails the same
  way: a hook can end the hold of a child that is at lowerLayerDown, with no further hook to come (`HoldHooks.TornRun`).
  With every hook finished, an interface is held exactly while it is not up if and only if it is not a child that may be
  given the link lowerLayerDown (`HoldHooks.HoldsConvergeExactly`).
* The nested-parent check visits named interfaces only, so the parent table is one level deep if and only if no unnamed
  stacked interface rests on one that hangs below another (`Hierarchy.OneLevelExactly`); the comment above the code
  promises one level unconditionally, `Hierarchy.UnnamedCycleSurvives` shows an input where it is not.
* GETNEXT answers "end of walk" for an identifier between ifTable and ifXTable although ifXTable rows follow
  (`NextOid.GapExists`); everywhere else it is exact (`NextOid.NextDynamicOid`).
* Filters disjoint by ifType admit two rows of one name and different types, so two subtrees of an accepted catalogue
  can render one entry (`CatalogGuard.SharedNameSlipsPast`). The guard keeps subtrees apart on a device if and only if
  its same-named rows agree on their ifType, rows without one aside (`CatalogGuard.GuardSoundExactly`).
* The comment on the last-change accessor says "oper or admin" transitions stamp it; the code stamps on derived oper
  changes only (`StateEngine.LastChangeIsLatestMove`). An admin move stamps exactly when it moves the derived value
  (`StateEngine.AdminMoveStamp`); taking an interface down over a down link does not
  (`StateEngine.AdminDownOverDownLink`).
* The lowest address that asks for a DNS label can lose it to a device renamed into that label, where the comment
  promises the lowest address keeps it: with 10.0.0.1 "r", 10.0.0.2 "r" and 10.0.0.3 "r-0-2" the second device gets
  "r-0-2" and the third does not (`DnsZone.LowestLosesLabel`). A device keeps the label it asks for if and only if the
  lower addresses do not use that label up, a condition on names and addresses alone (`DnsZone.KeepsLabelExactly`).

## Model

| member | source | states |
|---|---|---|
| `HoldLedger.ServedMono` | go/nl6/if_counter_rollup.go:187-207 | for standalone, child and aggregate slots alike, what is served never falls as time passes under one ledger |
| `HoldLedger.ServedOfDeps` | go/nl6/if_counter_rollup.go:187-207 | a served value depends on the ledger entries of its own slot, its parent and its members and on nothing else |
| `HoldLedger.GuardNeverTaken` | go/nl6/if_counter_hold.go:97-111 | in a consistent ledger the raw value is at least the skipped total at every clamped instant, so the underflow guard is unreachable |
| `HoldLedger.ServedRaised` | go/nl6/if_counter_hold.go:83-158 | a ledger write at instant T lowers no slot's served value at any time up to T, lifted through parents and members |
| `HoldLedger.ReconcileKeepsOk` | go/nl6/if_counter_hold.go:122-158 | every write keeps the ledger consistent for every slot, including those that read the written one |
| `HoldLedger.NoJumpAtTransition` | go/nl6/if_counter_hold.go:139-157 | opening or closing a hold does not move the written slot's value at the instant it happens |
| `HoldLedger.SeededOk` | go/nl6/if_counter_hold.go:165-176 | the ledger seeded for interfaces that start down is consistent |
| `HoldLedger.StandaloneServesUpTraffic` | go/nl6/if_counter_hold.go:83-158 | over any writes to any slots a standalone slot serves exactly the dial's growth during its own up intervals |
| `HoldLedger.GrowthSince` | go/nl6/if_counter_hold.go:83-112 | between writes any slot grows by what its raw reading grows while up and not at all while held |
| `HoldLedger.ChildServesShare` | go/nl6/if_counter_rollup.go:187-207 | at every instant a child that was never held serves its share of what its parent serves, less than one octet short of it |
| `HoldLedger.HeldChildServesShare` | go/nl6/if_counter_hold.go:83-112 | a child with a ledger entry serves, plus what its holds skipped, the whole part of its share of the parent at the instant its own count last ran |
| `HoldLedger.ChildGrowthIsShare` | go/nl6/if_counter_rollup.go:187-207 | while up a child grows by the difference of two such whole parts, within one octet of its share of the parent's growth |
| `HoldLedger.CloseLiftsThePast` | go/nl6/if_counter_hold.go:91-157 | a write that ends a hold makes the slot serve, at every instant up to it, what it served as the hold began; no other write moves a reading of the past |
| `HoldLedger.ChildFlatExactly` | go/nl6/if_counter_hold.go:83-158 | a write to a child's parent, standalone or aggregate, leaves the child's reading alone if and only if it ends no hold or the share cannot tell the two parent readings apart |
| `HoldLedger.AggregateFlatExactly` | go/nl6/if_counter_hold.go:83-158 | a write to a member leaves an aggregate's reading alone if and only if it ends no hold or lifts the member's reading by nothing |
| `HoldLedger.GrandchildFlatExactly` | go/nl6/if_counter_rollup.go:187-207 | the same for a child of an aggregate and a write to one of the members, through both clamps and the share |
| `HoldLedger.HeldChildFlat` | go/nl6/if_counter_hold.go:83-158 | a child keeps its reading when its parent, down since before the instant the child reads, comes up |
| `HoldLedger.HeldReadsThePast` | go/nl6/if_counter_hold.go:91-96 | a held slot always reads an instant no later than its hold's start, so the conditions cover every hold |
| `HoldLedger.HoldFlatExactly` | go/nl6/if_counter_hold.go:83-158 | over any writes to any slots during a hold the held reading never falls, and stays if and only if each write leaves it undisturbed by a condition on the ledger before it |
| `HoldLedger.HoldStaysFlat` | go/nl6/if_counter_hold.go:83-158 | a hold is flat throughout when no slot its reading depends on falls meanwhile and those that are down were down at the instant read |
| `HoldLedger.HeldChildCanRise` | go/nl6/if_counter_hold.go:91-96 | a concrete hierarchy and run in which a child's value rises while it is held |
| `HoldLedger.BounceLiftsAggregate` | go/nl6/if_counter_hold.go:91-157 | how far a held aggregate rises when a member bounces: by all the member counted since the instant read, once per listing |
| `HoldLedger.Cycler.constructor` | go/nl6/if_counter_hold.go:165-176 | a cycler starts with no hold open |
| `HoldLedger.Cycler.SeedHolds` | go/nl6/if_counter_hold.go:170-176 | opens a hold at time zero for exactly the known interfaces that are not up |
| `HoldLedger.Cycler.ReconcileHoldAt` | go/nl6/if_counter_hold.go:122-158 | in place: the ledger transition, nothing for unknown or out-of-range interfaces or without a state engine, and the sequence counter even again |
| `HoldLedger.Cycler.HeldDeltasAt` | go/nl6/if_counter_hold.go:64-112 | an uncontended read returns the served values of both directions |
| `Seqlock.NoPollGoesBackwards` | go/nl6/if_counter_hold.go:64-158 | in every interleaving of readers and writers, a read that completes before another samples its time returns no more than the later one, in both directions and for every slot |
| `Seqlock.GuardUnreachable` | go/nl6/if_counter_hold.go:97-111 | in every reachable state no slot at any time takes the underflow guard |
| `Seqlock.CompletedReadIsAtomic` | go/nl6/if_counter_hold.go:69-80 | a read whose bracket closes returned the values of one ledger the system really held |
| `Seqlock.ReaderCanFinish` | go/nl6/if_counter_hold.go:64-112 | from every reachable state in which no writer holds the lock a reader's own steps complete its poll, even out of a spoilt bracket; the poll serves the ledger as it stands at the instant sampled |
| `Seqlock.WriterCanFinish` | go/nl6/if_counter_hold.go:122-158 | a writer that finds the lock free gets through and leaves the ledger reconciled at the instant it read after making the counter odd, the counter even again |
| `Seqlock.NextInv` | go/nl6/if_counter_hold.go:64-158 | every step of every reader, writer and clock keeps the protocol invariant |
| `HoldHooks.StoredVerdict` | go/nl6/if_counter_hold.go:136-157 | a hook leaves its interface held exactly when it found it not up, and touches no other |
| `HoldHooks.NextInv` | go/nl6/if_counter_hold.go:114-163 | every step of every mutator and hook, events broadcast in any order, keeps the ledger or the hook at work in agreement with the engine or a further hook to come |
| `HoldHooks.HoldsConverge` | go/nl6/if_counter_hold.go:114-163 | in every interleaving, with every hook finished, the open holds are exactly the known interfaces that are not up, exposed children aside |
| `HoldHooks.TornRun` | go/nl6/interface_state.go:443-450 | for every engine with a child, a run whose hook ends the hold of a child at lowerLayerDown with no hook left to run |
| `HoldHooks.HoldsConvergeExactly` | go/nl6/if_counter_hold.go:114-121 | hooks converge for an interface on every run if and only if it is not a child that may be given the link lowerLayerDown |
| `Hierarchy.ReadStackLayers` | go/nl6/interface_hierarchy.go:67-108 | one resolvable row makes a parent, two or more make an aggregate in row order, markers, self rows, repeats and unknown layers count as the rule says |
| `Hierarchy.InterfaceParents` | go/nl6/interface_hierarchy.go:128-168 | names win over stack rows, stack rows fill what names leave open, and exactly the named interfaces whose parent has a parent are dropped |
| `Hierarchy.FullTableUnique` | go/nl6/interface_hierarchy.go:128-150 | names and stack rows determine the table before nested children are dropped |
| `Hierarchy.OneLevelExactly` | go/nl6/interface_hierarchy.go:128-168 | the table is one level deep if and only if no unnamed stacked interface rests on one that hangs below another, in terms of names and stack rows |
| `Hierarchy.AllNamedOneLevel` | go/nl6/interface_hierarchy.go:128-168 | with every stacked interface named there is no child whose parent is a child |
| `Hierarchy.UnnamedCycleSurvives` | go/nl6/interface_hierarchy.go:156-167 | two unnamed interfaces stacked on each other stay each other's parent |
| `Hierarchy.SplitName` | go/nl6/interface_hierarchy.go:26-36 | the parent of a name that is parent, dot and a canonical unit without a dot; nothing if and only if the name splits in no such way |
| `Hierarchy.UnitsAreNumbers` | go/nl6/interface_hierarchy.go:26-36 | a unit is canonical if and only if it is the decimal spelling of a number below 2^32 |
| `CounterRollup.BuildRollup` | go/nl6/if_counter_rollup.go:53-116 | a one-level table yields a hierarchy whose rank makes the reads terminate; each aggregate, in ascending order, sums what its list offers that lower ones, children and aggregates left, if that is two or more; children are seeded with their share and ports in no sum keep their bases |
| `CounterRollup.RankedByConstruction` | go/nl6/if_counter_rollup.go:53-116 | members are standalone and a child's parent is standalone or an aggregate, so ranks fall along every read |
| `CounterRollup.SeedAggregate` | go/nl6/if_counter_rollup.go:120-149 | members take the aggregate's profile and the aggregate's bases become the sums of theirs |
| `CounterRollup.SeededPortsOk` | go/nl6/if_counter_rollup.go:120-149 | after seeding, the aggregate relation holds and no other port moved |
| `CounterRollup.SumAggregates` | go/nl6/if_counter_rollup.go:59-96 | each aggregate takes exactly the usable members lower aggregates left it, or none when fewer than two; members follow its profiles, every aggregate is seeded, and ports in no sum stay as they were |
| `CounterRollup.CountSiblings` | go/nl6/if_counter_rollup.go:98-108 | each parent's sibling count is the number of its children |
| `CounterRollup.ShareOut` | go/nl6/if_counter_rollup.go:98-115 | every child gets its parent, its share and its parent's scaled bases |
| `CounterRollup.ChildShare` | go/nl6/if_counter_rollup.go:43-51 | n times a share is 0.8 plus 0.16 of the draw, so a share is non-negative and n of them claim at most 0.96 of the parent |
| `CounterRollup.ChildServedWithinShare` | go/nl6/if_counter_rollup.go:187-207 | at any time no earlier than every recorded transition a child serves at most its share of what its parent serves, as a real number and as whole octets; `HoldLedger.ChildServesShare` has the lower bound |
| `CounterRollup.CounterInValues` | go/nl6/if_counters.go:520-543 | what a poll of each column means: base plus served octets, plus the whole packets of a kind in them, or plus the per-million part of all whole packets; a packet size that is not positive counts as 500 |
| `CounterRollup.ReseededInValues` | go/nl6/if_counter_rollup.go:165-181 | a member's recomputed bases: whole packets in its octets, the whole part of each kind of them, the per-million errors and discards |
| `CounterRollup.ChildrenWithinParent` | go/nl6/if_counter_rollup.go:35-207 | on every counter column the children of a parent, summed, stay at or below the parent |
| `CounterRollup.AggregateIsMemberSum` | go/nl6/if_counter_rollup.go:120-203 | an aggregate that was never held equals its members' sum exactly on octets, is never below it, and exceeds it by at most members - 1 on each packet column |
| `CounterRollup.AggregateColumn` | go/nl6/if_counters.go:835-883 | aggregate and member sum share one base and differ only by the growth of a sum against a sum of growths |
| `CounterRollup.PacketGrowthOfSumNear` | go/nl6/if_counters.go:845-883 | packets of a sum exceed the sum of packets by at most the number of summands less one |
| `CounterRollup.GrowthsBelowGrowthOfSum` | go/nl6/if_counters.go:845-883 | splitting octets over interfaces never adds packets, errors or discards |
| `StateEngine.ApplyExact` | go/nl6/interface_state.go:544-728 | of every interface, an operation reports the derived oper change exactly once, with old and new value, and stamps last-change if and only if there is one |
| `StateEngine.CascadeExact` | go/nl6/interface_state.go:683-728 | the cascade stamps and reports exactly the listed children whose derived value moved, once each, and touches nothing else |
| `StateEngine.ApplyStored` | go/nl6/interface_state.go:544-672 | only a valid setter naming an interface changes its stored link or admin value |
| `StateEngine.OperEventsChain` | go/nl6/interface_state.go:544-766 | over every run the oper events of an interface chain, without a gap and each a real change, from its seeded derived value to its current one |
| `StateEngine.LastChangeIsLatestMove` | go/nl6/interface_state.go:562-672 | last-change is the stamp of the latest derived change, found independently by comparing the value before and after each operation |
| `StateEngine.AdminMoveStamp` | go/nl6/interface_state.go:611-672 | an admin move is stored and stamps last-change exactly when it moves the derived oper-status |
| `StateEngine.AdminDownOverDownLink` | go/nl6/interface_state.go:455-496 | admin down over a down link changes admin and leaves last-change alone |
| `StateEngine.StoredIsLastSet` | go/nl6/interface_state.go:544-728 | no admin sequence, cascade or parent bounce alters a stored link, no link sequence an admin value |
| `StateEngine.OperForgetsHistory` | go/nl6/interface_state.go:744-766 | after any run oper-status is a function of the last values set on the interface and its parent alone; `StateEngine.OperInValues` says which |
| `StateEngine.OperInValues` | go/nl6/interface_state.go:744-766 | over every run: last admin 2 reads 2, last admin 3 reads 3, last admin 1 reads the last link set, or 7 when that is 1 and the parent's oper is not 1; an unseeded word starts at link 4 and admin 1 |
| `StateEngine.LastEventTellsOper` | go/nl6/interface_state.go:553-735 | over every run the last oper event of an interface carries its current oper-status, and without one it is the seeded one |
| `StateEngine.ReportedIffVisible` | go/nl6/interface_state.go:562-598 | a link move reports something exactly when its own derived value moved |
| `StateEngine.InterfaceState.SetLinkState` | go/nl6/interface_state.go:544-601 | in place: the transition, and an outcome that is unchanged, masked or visible exactly when the state, or the derived value, says so |
| `StateEngine.InterfaceState.SetAdminLeaf` | go/nl6/interface_state.go:614-672 | in place: the transition, one admin event first, and no event exactly when nothing changed |
| `StateEngine.InterfaceState.CascadeChildren` | go/nl6/interface_state.go:683-728 | the loop over the child list is the cascade |
| `StateEngine.InterfaceState.ReadParentOper` | go/nl6/interface_state.go:355-362 | the parent's derived value, up for a top-level interface |
| `StateEngine.InterfaceState.constructor` | go/nl6/interface_state.go:196-274 | unseeded words over the family tables of a parent map; a one-level map gives a valid engine |
| `StateEngine.InterfaceState.Seed` | go/nl6/interface_state.go:233-247 | stores a seed in place, refusing an index or value out of range, without a stamp |
| `StateEngine.SetParents` | go/nl6/interface_state.go:254-274 | parent table and child lists agree, children ascend, entries out of range are ignored |
| `StateEngine.TablesFit` | go/nl6/interface_state.go:254-274 | the tables meet the engine's one-level assumption if and only if no interface in range hangs below one that does too |
| `StateEngine.TablesInValues` | go/nl6/interface_state.go:254-275 | the parent table is the map restricted to interfaces the device has, the child lists are that table read backwards, rising |
| `StateEngine.OneLevelFits` | go/nl6/interface_state.go:348-362 | the hierarchy's one-level map gives a valid engine |
| `StateWord.UnpackPack` | go/nl6/interface_state.go:1034-1045 | the fields come back from a packed word if and only if they fit their widths |
| `StateWord.PackUnpack` | go/nl6/interface_state.go:1034-1045 | every 64-bit word is the packing of its own fields |
| `StateWord.StampExact` | go/nl6/interface_state.go:1012-1032 | the stamp reads back as the right time if and only if the clock is at or after boot and short of the rewind mark; before boot it is the mark, all 58 bits set |
| `StateWord.AfterIsEngineStep` | go/nl6/interface_state.go:553-672 | the successor a thread computes is the engine's transition of a one-interface device |
| `StateWord.AfterFields` | go/nl6/interface_state.go:562-672 | a successor moves its own leaf and, on a visible change, last-change; nothing else |
| `StateWord.EverySuccessIsSequential` | go/nl6/interface_state.go:553-672 | in every interleaving of any number of threads the word and every return are those of running the returned calls one at a time, masked and recurring words included |
| `StateWord.EveryCallAnswered` | go/nl6/interface_state.go:553-672 | in every interleaving the calls a thread has begun are those the log answers it, in that order, and the one it is in |
| `StateWord.AloneReturns` | go/nl6/interface_state.go:553-672 | a thread left alone returns after one load, or after a clock reading and a swap with its value in force, stamped with that reading if the derived value moved |
| `StateWord.LastChangeIsSampled` | go/nl6/interface_state.go:553-672 | last-change moves exactly when the derived value does, and then to an instant the clock showed earlier in the run |
| `StateWord.NoUpdateLost` | go/nl6/interface_state.go:553-672 | link and admin hold the last value asked for, whichever leaf the racing calls were for |
| `StateWord.LastChangeNeverDecreases` | go/nl6/interface_state.go:583-645 | last-change never falls along any run with a non-decreasing clock in range |
| `Mutators.MovedIsAnnounced` | go/nl6/gnmi_subscribe_onchange.go:491-502 | every leaf whose value an operation moves is matched by one of its events |
| `Mutators.MixedValue` | go/nl6/interface_state.go:683-728 | part-way through a family mutation's writes every leaf of the family shows its old or its new value |
| `Mutators.AgreesKept` | go/nl6/interface_state.go:355-450 | writes that do not announce a leaf, on a child never given the link lowerLayerDown, spoil no word already loaded for it |
| `Mutators.ActLeaf` | go/nl6/interface_state.go:286-450 | any step of any mutator, family or standalone: an announcement is not taken back, and without one a leaf's value and every word loaded for it stand |
| `Mutators.TornLeads` | go/nl6/interface_state.go:544-600 | over every family table, a child's link moved beneath its down parent and the parent's rise are two mutations that report the parent alone |
| `OnChange.NextInv` | go/nl6/gnmi_subscribe_onchange.go:150-273 | every family write, standalone compare-and-swap, broadcast, load and delivery keeps each covered leaf, the exposed ones aside, current or announced |
| `MutatorRuns.InterleavingIsRun` | go/nl6/interface_state.go:544-735 | every interleaving of family mutations, written slot by slot under the lock, and standalone ones gives the words and the events of the operations applied one after the other |
| `OnChange.ViewIsCurrentOrComing` | go/nl6/gnmi_subscribe_onchange.go:150-502 | after the sync, in every interleaving and while no event was dropped, the client's value of a covered leaf that is not exposed is the engine's or a matching event or update is on its way |
| `OnChange.QuietViewIsEngine` | go/nl6/gnmi_subscribe_onchange.go:150-273 | with nothing on its way the client's view of such a leaf is the engine's derived oper-status, its admin value or its last-change |
| `OnChange.ChannelBounded` | go/nl6/interface_state.go:881-940 | over every run the channel is empty until the stream registers, never holds more than 16 events, and drops its oldest only when it holds 16 |
| `OnChange.TornRun` | go/nl6/interface_state.go:443-450 | for every engine with a child, a run whose two-load read leaves the client at up and the engine at lowerLayerDown with nothing on its way |
| `OnChange.ViewRightExactly` | go/nl6/interface_state.go:355-450 | a leaf is right in every quiet state of every run if and only if it is not the oper-status of a child that may be given the link lowerLayerDown |
| `Wire.TakeFlatten` | go/nl6/ipfix.go:67-90 | a reader that knows only a template recovers any record written under it |
| `Wire.TakeAllFlatten` | go/nl6/ipfix.go:356-378 | back-to-back records come back in order and the pad comes back as the tail |
| `Wire.ReadBack` | go/nl6/ipfix.go:448-523 | a big-endian number reads back as itself when it fits its width |
| `Wire.PutBytes` | go/nl6/ipfix.go:328-342 | writing at a position changes those bytes and no others |
| `Ipfix.LayoutMatches` | go/nl6/ipfix.go:67-90 | every record has the fields, order and widths its template announces |
| `Ipfix.TemplateTotal` | go/nl6/ipfix.go:44-48 | the template's widths add up to the record size pagination budgets with |
| `Ipfix.FieldReadsBack` | go/nl6/ipfix.go:448-523 | every field reads back as octets clamped to 32 bits, absolute times, 0.0.0.0 for a foreign address, direction zero |
| `Ipfix.TemplateReadBack` | go/nl6/ipfix.go:179-201 | a collector reads the template list out of a Template Set |
| `Ipfix.OptionsTemplateReadBack` | go/nl6/ipfix.go:142-171 | and out of an Options Template Set, padding skipped |
| `Ipfix.PacketReadBack` | go/nl6/ipfix.go:283-384 | a collector holding the template, or sent it, recovers header, record list and learned templates, agreeing with both length fields |
| `Ipfix.OptionsReadBack` | go/nl6/ipfix.go:396-443 | any collector reads the interface table out of a self-contained option datagram |
| `IpfixEncoder.CapacityIsLargest` | go/nl6/ipfix.go:318-328 | the capped count is exactly the largest whose records and pad fit |
| `IpfixEncoder.PadParity` | go/nl6/ipfix.go:243-248 | an odd record count needs two pad bytes, an even one none |
| `IpfixEncoder.BuildTemplateSet` | go/nl6/ipfix.go:179-201 | the built bytes are the Template Set of the field list |
| `IpfixEncoder.BuildOptionsTemplateSet` | go/nl6/ipfix.go:142-171 | the built bytes are the padded Options Template Set of any scope and options |
| `IpfixEncoder.EncodeRecord` | go/nl6/ipfix.go:448-523 | field-by-field writes produce the record's layout and leave what precedes it |
| `IpfixEncoder.PutDataSet` | go/nl6/ipfix.go:356-378 | header, records, pad and backfilled length form one Data Set |
| `IpfixEncoder.EncodePacket` | go/nl6/ipfix.go:283-384 | refuses exactly the buffers below 20 bytes, or 104 with the template, and 56 more for the first record; otherwise writes the message for the records up to capacity |
| `IpfixEncoder.CapacityByLength` | go/nl6/ipfix.go:283-384 | the record cap is the longest list whose message, template and padding included, still fits the buffer |
| `IpfixEncoder.EncodeOptionsDatagram` | go/nl6/ipfix.go:396-443 | refuses exactly below 44 bytes and one record of 68 or 40, else consumes all or exactly the capacity and writes that message |
| `IpfixEncoder.OptionCapacityByLength` | go/nl6/ipfix.go:396-443 | the interface cap is the longest list whose option datagram still fits the buffer |
| `IpfixEncoder.PutOptionRecord` | go/nl6/ipfix.go:103-130 | both record shapes match their option templates |
| `FlowTick.FirstPage` | go/nl6/flow_exporter.go:808-837 | the tick's own batch is never truncated by the encoder and always has room |
| `FlowTick.FlowExporter.SendPage` | go/nl6/flow_exporter.go:768-894 | one iteration sends the next page under the current sequence number and advances it by the records sent |
| `FlowTick.FlowExporter.SendFlows` | go/nl6/flow_exporter.go:768-904 | the loop ends, sends every page in order, and clears the template flag after the first |
| `FlowTick.FlowExporter.SendOptions` | go/nl6/flow_exporter.go:960-988 | the option loop ends and sends the whole table, advancing by records |
| `FlowTick.FlowExporter.Tick` | go/nl6/flow_exporter.go:666-988 | everything ever handed to the socket is the datagram list of the whole history of ticks |
| `FlowTick.FlowExporter.constructor` | go/nl6/flow_exporter.go:113-134 | the payload budget plus 28 bytes of headers for an IPv4 collector, or 48 for any other, is the MTU |
| `FlowTick.SentConcat` | go/nl6/flow_exporter.go:885-894 | sequence numbers continue across ticks as if they were one |
| `FlowCollector.FlowPagesCarry` | go/nl6/flow_exporter.go:808-837 | pages carry every expired record once, in order, and fit |
| `FlowCollector.OptionPagesList` | go/nl6/flow_exporter.go:960-988 | option pages carry every interface once, in order, and fit |
| `FlowCollector.TickCarriesAll` | go/nl6/flow_exporter.go:666-988 | one tick sends its expired list and, on a refresh, the whole option table, and nothing at all when there is neither |
| `FlowCollector.RenderedFits` | go/nl6/flow_exporter.go:741-754 | no datagram exceeds its payload budget |
| `FlowCollector.StreamReads` | go/nl6/ipfix.go:231-384 | each datagram is readable with what the earlier ones taught |
| `FlowCollector.CountIsRecordsRead` | go/nl6/ipfix.go:220-233 | the sequence number counts exactly the Data Records read from earlier datagrams, option records included |
| `FlowCollector.RunCollected` | go/nl6/flow_exporter.go:624-988 | for every run of ticks at every MTU and family: budget, readability, export time in whole seconds, sequence number modulo 2^32 and the exact list of expired records |
| `FlowCollector.ExporterFitsPath` | go/nl6/flow_exporter.go:113-134 | every datagram an exporter ever sent, with its 28 or 48 bytes of headers, fits the MTU it was built for |
| `FlowCollector.RefreshCadence` | go/nl6/flow_exporter.go:678-736 | over every run a tick carries the template exactly when it is the first or the interval has passed since the latest one that did; in between a tick with nothing to export is silent |
| `FlowCollector.RecordTimes` | go/nl6/ipfix.go:301-365 | a record's start and end, as collected, are its uptimes placed on the wall clock of its datagram, never before the epoch |
| `Ipfix.RecordMeans` | go/nl6/ipfix.go:448-523 | what a collector finds under each of the nineteen information elements of a record, by element number |
| `NextOid.KeyDecides` | go/nl6/if_counters.go:654-703 | column and first instance of an identifier decide its order against every row; further sub-identifiers do not matter |
| `NextOid.RowOrder` | go/nl6/if_counters.go:73-104 | rows are ordered by column, then interface |
| `NextOid.SearchInts` | go/nl6/if_counters.go:769-773 | bisection finds the first interface at or after a value |
| `NextOid.FindColumn` | go/nl6/if_counters.go:720-743 | the scan finds the first owned column at or after the named one |
| `NextOid.NextInside` | go/nl6/if_counters.go:720-783 | inside a table the search is the least owned row strictly greater, or none when there is none |
| `NextOid.NextDynamicOid` | go/nl6/if_counters.go:583-783 | the answer is the successor if and only if the identifier is not in the gap; in the gap it is end-of-walk |
| `NextOid.GapExists` | go/nl6/if_counters.go:644-652 | the bare ifXTable prefix lies in the gap of every device with interfaces |
| `NextOid.NextOfRow` | go/nl6/if_counters.go:769-783 | from a row the walk goes to the next interface, then the next column, then ends |
| `NextOid.Walk` | go/nl6/if_counters.go:583-783 | a walk from below the first row visits the rows in order and ends |
| `NextOid.WalkIsOwnedSet` | go/nl6/if_counters.go:77-104 | that order is strictly increasing and lists every column and interface pair exactly once |
| `NextOid.ServedIsOwned` | go/nl6/if_counters.go:375-544 | a point lookup answers exactly the rows a walk visits |
| `CatalogGuard.DisjointExactly` | go/nl6/gnmi_catalog.go:223-269 | two parsed filters are called disjoint if and only if no possible interface passes both |
| `CatalogGuard.ExpandExactly` | go/nl6/gnmi_catalog_resolver.go:311-355 | the expansion renders a key tuple exactly when every position offers its value |
| `CatalogGuard.FillInjective` | go/nl6/gnmi_catalog_resolver.go:356-383 | two key tuples fill one entry path only when they are the same tuple |
| `CatalogGuard.EntryTuples` | go/nl6/gnmi_catalog.go:760-777 | the joined tuples of a load-resolvable subtree, or nothing when a source needs a device |
| `CatalogGuard.CheckSamePathInterfacePair` | go/nl6/gnmi_catalog.go:857-873 | accepts exactly on disjoint filters or a position of loaded values without a common one |
| `CatalogGuard.CheckSamePathSubtrees` | go/nl6/gnmi_catalog.go:795-845 | accepts a catalogue exactly when every pair passes |
| `CatalogGuard.GuardSound` | go/nl6/gnmi_catalog.go:779-873 | in an accepted catalogue, on every device whose same-named rows agree on their ifType, same-path subtrees both or neither keyed on interfaces never render one entry path |
| `CatalogGuard.SharedNameSlipsPast` | go/nl6/gnmi_catalog.go:230-247 | on any device with two rows of one name and different ifTypes two subtrees of an accepted catalogue render one entry |
| `CatalogGuard.GuardSoundExactly` | go/nl6/gnmi_catalog.go:779-873 | no two compared subtrees of an accepted catalogue render one entry of a device if and only if its same-named rows agree on their ifType, rows without one aside |
| `CatalogGuard.GuardExact` | go/nl6/gnmi_catalog.go:760-873 | between same-path subtrees of value lists, but for an interfaces key at one common position, a pair is rejected if and only if both render one entry of some device with well-typed names |
| `JsonFold.InsertLeaf` | go/nl6/gnmi_catalog_jsonietf.go:41-119 | one insertion leaves its value at its path, keys under new entries, and every other leaf as it was |
| `JsonFold.InsertFails` | go/nl6/gnmi_catalog_jsonietf.go:41-119 | it fails exactly when a leaf, or a key its own path implies, stands in its way |
| `JsonFold.FoldReadsBack` | go/nl6/gnmi_catalog_jsonietf.go:245-331 | reading a successful fold back gives exactly the updates and the keys no leaf restated |
| `JsonFold.FoldFails` | go/nl6/gnmi_catalog_jsonietf.go:245-331 | the fold fails exactly when some update meets an earlier leaf it duplicates, runs into, or shares a name of another kind with |
| `JsonFold.FoldListed` | go/nl6/gnmi_catalog_jsonietf.go:100-119 | in the folded value every list names each of its entries exactly once |
| `JsonFold.OrderKept` | go/nl6/gnmi_catalog_jsonietf.go:100-119 | an insertion adds at most one entry, at the end; entries keep the order they were first seen in |
| `JsonFold.FoldOrder` | go/nl6/gnmi_catalog_jsonietf.go:100-119 | in every folded value the entries of every list stand in the order the updates first mention them |
| `JsonFold.EntryIdInjective` | go/nl6/gnmi_catalog_jsonietf.go:122-141 | within one list, for key values free of NUL, equal ids mean equal keys |
| `JsonFold.SchemaIsFaithful` | go/nl6/gnmi_catalog_jsonietf.go:122-141 | paths drawn from one schema meet the identity condition the fold's results rest on |
| `JsonFold.FoldNotification` | go/nl6/gnmi_catalog_jsonietf.go:263-308 | each covered leaf goes to its own instance; uncovered ones are left out |
| `JsonFold.FoldGet` | go/nl6/gnmi_catalog_jsonietf.go:245-314 | one value per concrete instance in resolver order, each the fold of its own leaves; an error if and only if one of those folds fails |
| `JsonFold.GetReadsBack` | go/nl6/gnmi_catalog_jsonietf.go:245-331 | end to end: an answer's leaves are exactly the covered updates with their values, and the keys their paths imply where no covered update restates them; covered is said of the notifications themselves |
| `JsonFold.PlaceTells` | go/nl6/gnmi_catalog_jsonietf.go:286-304 | a leaf is placed exactly when the request is no deeper than the prefix or fits the full path by name and keys: under the origin and first steps of that path, with the rest of it and its own value |
| `FlapScheduler.FlapHeap.Swap` | go/nl6/flap_scheduler.go:105-107 | swaps two entries and keeps every back-pointer right |
| `FlapScheduler.FlapHeap.SiftUp` | go/nl6/flap_scheduler.go:102-121 | restores heap order upwards without losing an entry |
| `FlapScheduler.FlapHeap.SiftDown` | go/nl6/flap_scheduler.go:102-121 | restores heap order downwards, or reports that nothing moved |
| `FlapScheduler.FlapHeap.Push` | go/nl6/flap_scheduler.go:108-112 | adds one entry; order and back-pointers hold |
| `FlapScheduler.FlapHeap.Remove` | go/nl6/flap_scheduler.go:230-232 | takes any entry out of the middle; order and back-pointers hold |
| `FlapScheduler.FlapHeap.Pop` | go/nl6/flap_scheduler.go:113-121 | takes out an entry no later than any other |
| `FlapScheduler.Scheduler.constructor` | go/nl6/flap_scheduler.go:176-199 | a scheduler starts with nothing pending |
| `FlapScheduler.Scheduler.RegisterOne` | go/nl6/flap_scheduler.go:229-243 | re-registration replaces: exactly one pending event, a down |
| `FlapScheduler.Scheduler.Register` | go/nl6/flap_scheduler.go:206-247 | every asked interface with a link has its pending event replaced by a fresh down at the offset of its last mention, no other event moves, and a clean scenario changes nothing |
| `FlapScheduler.Scheduler.Deregister` | go/nl6/flap_scheduler.go:260-280 | removes exactly one device's events |
| `FlapScheduler.Scheduler.Fire` | go/nl6/flap_scheduler.go:380-434 | the popped entry is the earliest and is the one registered under its key, so the replaced-entry drop is unreachable; its counterpart is queued in its place, after a down within one to thirty seconds |
| `FlapScheduler.NextOffset` | go/nl6/flap_scheduler.go:396-421 | an outage lasts one second up to ten, thirty or five by scenario; the next one comes after the draw times six hours, a quarter of an hour or a minute |
| `FlapScheduler.LogFired` | go/nl6/flap_scheduler.go:396-434 | fired actions of a registration alternate down, up, down |
| `DnsLabel.SanitiseLabel` | go/nl6/dns_zone.go:75-96 | the name in lower case with other characters made hyphens, runs made one, ends trimmed and cut to 63; a valid label, empty exactly when no a-z or 0-9 survives, and the identity on clean labels of up to 63 such characters |
| `DnsLabel.CollapseRuns` | go/nl6/dns_zone.go:88-90 | the replacement loop ends with every run of hyphens made one |
| `DnsLabel.JoinValid` | go/nl6/dns_zone.go:135-145 | the joined label is valid and ends in the whole suffix |
| `DnsLabel.JoinAlwaysValid` | go/nl6/dns_zone.go:135-145 | for a suffix of any length the joined label is valid and ends in as much of the suffix as 63 octets hold; a base with room stays whole |
| `DnsLabel.NumericApart` | go/nl6/dns_zone.go:135-166 | different numeric suffixes give different labels however much of the base they cost |
| `DnsZone.Disambiguate` | go/nl6/dns_zone.go:152-166 | ends with a valid label nobody has: the short suffix if free, else the full one if free, else the first free number |
| `DnsZone.ParseReverseZone` | go/nl6/dns_zone.go:196-227 | parses exactly the names of one to four canonical octets, and the network spells the name back |
| `DnsZone.ReverseZoneFor` | go/nl6/dns_zone.go:231-242 | the most specific configured zone containing the address, none only when none does |
| `DnsZone.PtrUnderZone` | go/nl6/dns_zone.go:176-242 | a containing zone is a suffix of the address's pointer name |
| `DnsZone.AssignLabels` | go/nl6/dns_zone.go:285-306 | every device gets a valid label that no other has: the one its name asks for unless a lower address holds it, then a suffix of it; the count is of those renamed |
| `DnsZone.KeepsLabelExactly` | go/nl6/dns_zone.go:258-306 | a device keeps the label it asks for if and only if the lower addresses do not use it up, by their names and addresses alone |
| `DnsZone.HeldExactly` | go/nl6/dns_zone.go:285-306 | the labels handed out are exactly those the names and addresses use up |
| `DnsZone.LowestLosesLabel` | go/nl6/dns_zone.go:258-306 | a concrete network in which the only device that asks for a label does not get it |
| `DnsZone.ForwardResolves` | go/nl6/dns_zone.go:308-323 | both names of a device resolve to its address and to no other |
| `DnsZone.EmitRecords` | go/nl6/dns_zone.go:308-336 | forward records per device in order; each zone lists, in order, the pointers of the devices it is the most specific for; pointers emitted count the devices in reach |
| `DnsZone.PtrsDistinct` | go/nl6/dns_zone.go:308-336 | with distinct addresses no zone lists a pointer twice |
| `DnsZone.BuildZoneView` | go/nl6/dns_zone.go:263-336 | the whole view over devices with distinct addresses, in address order: labels, forward and reverse records and all four counters |
| `DnsZone.PtrRoundTrip` | go/nl6/dns_zone.go:308-336 | every pointer lies under its most specific zone and its target resolves back to that address alone |
| `FlowCache.FlowCache.constructor` | go/nl6/flow_cache.go:107-115 | a cache starts empty and cold |
| `FlowCache.FlowCache.Add` | go/nl6/flow_cache.go:140-164 | accumulates, opens or drops a packet exactly as the limit says |
| `FlowCache.BurstTotals` | go/nl6/flow_cache.go:140-164 | over every burst of packets a flow's octets and packets are the totals modulo 2^64 and 2^32, its start the first packet's, its end the last one's |
| `FlowCache.BurstFlags` | go/nl6/flow_cache.go:140-164 | a TCP flag of a flow is set exactly when some packet set it |
| `FlowCache.BurstDue` | go/nl6/flow_cache.go:140-196 | a flow is due exactly when the active timeout has passed since it opened, whatever arrived since, or the inactive one since its last packet |
| `FlowCache.KeyIsWeights` | go/nl6/flow_cache.go:200-218 | records share a flow exactly when both addresses, both ports and the protocol agree, an address that is not IPv4 counting as 0; the export order is lexicographic in them |
| `FlowCache.FlowCache.Expire` | go/nl6/flow_cache.go:168-196 | hands out exactly the due records, in strict lexicographic order of addresses, ports and protocol, and keeps the others; the active tally grows by the flows past their active deadline, the inactive one by the rest |
| `FlowCache.FlowCache.TrimTo` | go/nl6/flow_cache.go:243-258 | leaves the smaller of the population and the target and counts what it dropped |
| `FlowCache.FlowCache.GenerateFlows` | go/nl6/flow_cache.go:286-360 | the table after one draw per missing flow: each adds its flow unless the key is taken, until the cache is full, so while there is room every draw's key is present; the cache counts as warm; a new flow is due at birth if and only if its lifetime is not positive |
| `FlowCache.BornExpiredIff` | go/nl6/flow_cache.go:372-381 | a flow of a given age is due exactly when its age has reached its own lifetime |
| `FlowCache.SortByKey` | go/nl6/flow_cache.go:187-218 | the same records in strictly ascending key order |
| `Fidelity.NextInv` | go/nl6/fidelity_api.go:132-225 | generations are never reused, and the current one is armed exactly while a revert is pending |
| `Fidelity.SupersededIsInert` | go/nl6/fidelity_api.go:203-212 | after any request or cancel, a callback armed before changes nothing when it gets the lock |
| `Fidelity.OneCanAct` | go/nl6/fidelity_api.go:203-222 | at most one waiting callback can ever act, and it would restore the recorded value |
| `Fidelity.ChainKeepsTarget` | go/nl6/fidelity_api.go:171-201 | along any chain of timed requests for one value the recorded target is the value from before the chain, also when it starts inside a pending window |
| `Fidelity.ChainRestores` | go/nl6/fidelity_api.go:171-201 | a chain of same-direction timed requests, stale callbacks in between, restores the value from before its first, and one that changes direction inside a window returns to that window's value |
| `Fidelity.RequestTakesEffect` | go/nl6/fidelity_api.go:185-196 | at the end of any run a request puts its value in force at once, with a revert pending exactly when it is timed |
| `Fidelity.StandingStays` | go/nl6/fidelity_api.go:191-196 | an untimed request stays in force, with nothing pending, through every cancel and callback up to the next request |
| `Fidelity.CancelledStays` | go/nl6/fidelity_api.go:132-149 | after a cancel the value in force stays, with nothing pending, up to the next request |
| `Fidelity.TransitionsCountChanges` | go/nl6/fidelity_api.go:189-217 | the transition count is the number of changes of the value in force |
| `Fidelity.FidelitySwitch.SetFidelity` | go/nl6/fidelity_api.go:165-225 | in place: the request's transition, its value in force, a timer exactly when it is timed, and what the revert would restore |
| `Fidelity.FidelitySwitch.Revert` | go/nl6/fidelity_api.go:203-220 | in place: the callback's transition |
| `Fidelity.FidelitySwitch.CancelRevert` | go/nl6/fidelity_api.go:132-149 | in place: a cancel invalidates every armed callback |
| `Fidelity.FidelitySwitch.constructor` | go/nl6/fidelity_api.go:52-90 | the switch starts with nothing pending and the invariant holds |

## Left out

- The sine dial, its rounding and 64-bit overflow of octet totals: the dial is any non-decreasing function and totals are naturals; shares are reals.
- Counter32 shadows and value strings of the SNMP columns: they truncate and print what `CounterRollup` computes.
- HoldLedger.Cycler.HeldDeltasAt: the retry loop is not in the method; readers racing writers are the steps of `Seqlock`. The branch for a cycler built without a ledger is left out.
- CounterRollup.ReseededInValues: the code divides the octet base by the packet size as drawn, which is positive; a size that is not counts as 500 here, as it does in a poll.
- CounterRollup.BuildRollup: takes a one-level parent table, which the code does not check; `Hierarchy.OneLevelExactly` says when it gets one.
- StateEngine.InterfaceState.SetLinkState: runs alone, as under the family lock; the compare-and-swap retry of standalone interfaces is `StateWord`.
- StateEngine.InterfaceState.SetLinkState and the run theorems assume valid family tables; `StateEngine.TablesFit` says exactly when the code builds such tables.
- StateWord.LastChangeNeverDecreases: assumes a clock in range; `StateWord.StampExact` says exactly which clocks those are.
- OnChange.ViewIsCurrentOrComing: says nothing once an event was dropped from a full channel; heartbeats and per-subscription batching are reads at any time; path matching is a fixed set of covered leaves.
- Sockets, write failures and status counters of the tick: the sequence number advances whether or not a write fails, so they do not affect what is proved.
- NetFlow v5 and v9, sFlow and AVC encoders, the application table and the scenario gate inside Tick.
- IpfixEncoder.EncodeOptionsDatagram: the two option shapes are a datatype, so an unknown shape name cannot occur.
- FlowTick.FlowExporter.Tick: the expired list is an input; cache, trimming and refill are `FlowCache`.
- NextOid.NextDynamicOid: numeric identifiers of a device with a state engine; trailing dots, non-numeric sub-identifiers and the engine-less test harness are left out.
- OID, path and zone-name string syntax: identifiers, paths and names are sequences of their parts.
- CatalogGuard.GuardSound: entries repeated within one subtree are not covered; a pair keyed on interfaces on one side only is not checked by the code and not covered; filter and path parsing are represented by what they guarantee.
- JsonFold.FoldGet: instances are identified by origin and steps instead of a NUL-joined string; re-encoding of keys through their state leaf and JSON text are left out.
- JsonFold nodes are values: each node has one owner, so in-place update and replacement agree; aliasing is not modelled.
- FlapScheduler.Scheduler.Fire: says nothing about firing before the due time, since the code does not recheck it after waiting for the rate limiter.
- DnsZone.BuildZoneView: IPv4 devices only; SOA and NS records and the serial are left out.
- FlowCache.FlowCache.GenerateFlows: the random records, jitters and ages are a stream of draws in their documented ranges.
- Device creation, configuration, profile tables, HTTP, gRPC and SNMP servers, logging: plumbing without deep invariants.
