# Switch firmware state machines, modelled and proved in Dafny

The firmware of an unmanaged Ethernet switch keeps its state in small hand-linked
structures: a VLAN list with derived per-port tables and a persistent byte image, a database of
multicast groups with a leave queue linked through an array, a line editor over a growable buffer, packet
descriptors that travel between free lists, driver and applications, a timer table that
callbacks change while it is walked, and word-packed port bitmaps. This project models
these parts and proves what they promise, over every run. Where the code does not keep a
promise, the condition under which it does is proved, and a lemma shows the failure.

Each part has the same shape. A module of values and functions says what every operation
does and holds the laws: what each step keeps, what holds over whole runs, what one call
undoes. A second module holds the code's own form, classes and loops that update arrays,
links and fields in place, each proved to do exactly what the function says.

| part | values and laws | code in place |
|---|---|---|
| port lists | `Uplists`, `Words` | |
| VLAN database | `VlanTable`, `VlanLimits` | `VlanDatabase` |
| VLAN persistence | `VlanImage`, `VlanLayout` | `VlanSerializer` |
| IGMP snooping | `IgmpGroups`, `IgmpLeaves`, `IgmpMessages`, `IgmpEntries`, `IgmpReports`, `IgmpPioneers`, `IgmpAgeing`, `IgmpRouters`, `IgmpRuns`, `IgmpAgeingRun` | `IgmpSnooping` |
| line editor | `LineText`, `History`, `Completion` | `LineBuffer`, `History.Buffer`, `Completion` |
| receive and transmit | `RxCallbacks`, `RxPackets`, `TxPackets` | `PacketEngine` |
| timers | `Timers`, `TimerPolls`, `TimerAdds` | `TimerTable` |
| port bitmaps | `Words`, `PortBitmaps` | `PortBitmaps` |

`SlotLists` holds the lists that are linked by slot number through a table; the leave
queue and the receive callbacks share it. `Sequences` holds the two functions that
put one element into a sequence and take one out, and how many distinct numbers one can hold.

`dafny verify dfyconfig.toml` checks the whole project.

## What is taken as given

- The switch is behind contracts. The `soc` hooks succeed: `vlan_reset` gives every port
  the default VLAN, an open egress mask and the default port VLAN id, `vlan_create` gives
  an entry without members, `qvlan_port_set` stores members and, as tagged, those of the
  tagged ports that are members, and the multicast table ignores removals from entries it
  does not have. Memory allocation succeeds; freshly allocated memory holds anything.
- The number of user ports is any number from 1 to 64. Chip port numbers correspond one to
  one to user port numbers and are identified with them.
- Port-based VLAN ids start at 1, because the per-port index uses bit id-1, and
  `brdimpl_pvlan_port_set` runs in port-based mode only.
- The table of multicast entries is a map, and adding an entry replaces its ports. In the
  runs of `IgmpRuns` router ports do not change, and messages carry class D addresses and
  12-bit VLAN ids.
- Callbacks of applications are arguments: what a receive callback frees, which packets
  arrive while it polls, and what it answers; what a timer callback adds, removes and polls,
  and how long it takes. Receive callbacks do not register or unregister
  (`src/include/kernel.h:48`). Keys, typed characters, clock values and answers of the
  hardware are arguments as well.
- True time is unbounded and only grows; tick counts are that time modulo 2^32.

## Where code and comments disagree

- `src/src/board/brd_vlan.c:236-238`: the comment says that selecting the same type resets
  again; the code returns. The model follows the code.
- `src/src/board/brd_vlan.c:177-206`: the reset renames the head node before the switch is
  told which VLANs to forget, so the entry of a head other than the default VLAN stays
  behind (`VlanTable.ResetLeavesStaleEntry`, and the run `VlanTable.StaleEntryRun`).
- `src/src/serializers/vlan.c:65`: before the stored VLANs are created only the default
  VLAN is removed. Loading into the same VLAN type restores the saved list if and only if
  the ids that are left are a prefix of the saved ones (`VlanImage.SaveThenLoad`,
  `VlanImage.SameTypeLoadKeepsStranger`). Without a VLAN type no list is stored at all, so
  an emptied list comes back with the default VLAN (`VlanImage.EmptiedListComesBack`).
- `src/src/appl/igmpsnoop/igmpsnoop_cbk.c:259`: the comment says that the loop checks
  whether another group still uses the port; the helper at
  `src/src/appl/igmpsnoop/igmpsnoop.c:809-817` compares age bits instead. For any queue in
  which no two records that run out are for one group and port, as in every run, the tick
  keeps entry and groups in agreement exactly if no group keeps the port, nobody loses it, or
  the age bits show all that lose it and one that stays (`IgmpEntries.TickKeepsL2Exactly`).
  Two runs fail it: a leave for a known group from a port that never joined it, with every
  age bit set (`IgmpRuns.UnjoinedLeaveLosesPort`), and a leave after an ageing
  (`IgmpRuns.StaleAgeLosesPort`).
- `src/src/appl/igmpsnoop/igmpsnoop.c:365`: a new group writes its entry with its own ports,
  although pals may share it already, and their ports go (`IgmpReports.ReportKeepsL2Exactly`,
  and the run `IgmpRuns.SecondReportLosesPort`).
- `src/src/appl/igmpsnoop/igmpsnoop_int.h:123-127`: the test for a pal does not ask whether the
  slot is in use, so a group whose low 23 address bits are zero can become the follower of a
  slot that holds no group, and further ports do not reach its entry
  (`IgmpPioneers.UpdateServesExactly`, and the run `IgmpRuns.ZeroGroupLosesPort`).
- `src/src/appl/igmpsnoop/igmpsnoop.c:712-719`: the summaries look at as many router records as
  there are VLANs, the removal of a port (line 883) at all of them. A router port behind the
  first ones is kept by a strike and goes when the entry is cast, unless a pal lists it
  (`IgmpRouters.RemoveL2Everywhere`, `IgmpRouters.TickL2Everywhere`).
- `src/src/appl/igmpsnoop/igmpsnoop_cbk.c:372-386`: a pal that takes over from a silent pioneer
  is aged in the pioneer's slot. If it stands before it, it was aged already, and is left
  without a port although it has just reported (`IgmpAgeing.AgeKeepsL2Exactly`, and the run
  `IgmpAgeingRun.AgeingStrandsGroup`).
- `src/src/appl/igmpsnoop/igmpsnoop.c:580`: a slot of the leave queue is free if its address
  is zero, and the search of line 620 finds group zero once a group was removed. A leave for
  group zero is then linked in and its slot stays free; the next leave links the slot to itself
  (`IgmpSnooping.InsertedIsQueueExactly`, `IgmpSnooping.ZeroGroupIsKnown`,
  `IgmpSnooping.ZeroLeaveThenLeave`).
- `src/src/appl/igmpsnoop/igmpsnoop_cbk.c:256`: the walk does not advance over a record
  whose group is gone. At the head of the queue it ends, later it visits the record again
  and wraps its timeout. The model does the same; the law about the queue holds exactly
  when every record that runs out still finds its group
  (`IgmpLeaves.TickLeavesSurvivorsExactly`), and `IgmpLeaves.UnlistedPortStays` is a case
  outside it.
- `src/src/kernel/rx.c:160-172`: truncated and faulty packets are tested against the same
  registration flag.
- `src/src/board/brd_rxtx.c:153-154`: the callback of a send is kept in the packet, not in
  the descriptor, so sending a packet again before it came back replaces it
  (`TxPackets.ImpatientSendStealsCallback`).
- `src/src/kernel/timer.c:62-66`: after a callback the slot is compared, not searched. A
  callback that removes an earlier timer and never its own is left in progress
  (`Timers.VisitStrandsExactly`). A callback that removes and adds itself and is fired
  again by a nested poll can fire too soon once the outer call has returned
  (`Timers.StaleReturnBreaksSpacing`, and the runs `Timers.StaleReturnRun` and
  `TimerPolls.NestedPollFiresTooSoon`).

## Model

| member | source | states |
|---|---|---|
| VlanTable.EveryRunKeepsInv | src/src/board/brd_vlan.c:152-588 | In every state of every run of reset, type change, create, destroy and port setting: ids are distinct and within range, the list is no longer than its maximum, in port-based mode each port's VLAN index and egress mask are exactly what the list stands for, and in 802.1Q mode the switch knows every listed VLAN with the listed members |
| VlanTable.StepKeepsInv | src/src/board/brd_vlan.c:152-588 | Each single operation keeps that invariant |
| VlanTable.ReachabilityIsSharing | src/src/board/brd_vlan.c:419-453 | In every reachable port-based state a port's egress mask holds exactly the ports that share a VLAN with it, and so is symmetric |
| VlanTable.DestroySeparates | src/src/board/brd_vlan.c:353-387 | Destroying a VLAN separates exactly the pairs of ports that shared no other VLAN |
| VlanTable.ResetLeavesStaleEntry | src/src/board/brd_vlan.c:177-206 | From 802.1Q mode, with a switch that knew exactly the listed VLANs, a reset leaves the switch with the default VLAN alone if and only if the list was empty or led by it; otherwise it knows the default VLAN and the renamed head, and nothing else |
| VlanTable.StaleEntryRun | src/src/board/brd_vlan.c:177-206 | A run from the boot state that gets there: 802.1Q mode, create 2, destroy 1, reset; the switch still knows VLAN 2, which is no longer listed |
| VlanTable.ResetKeepsInv | src/src/board/brd_vlan.c:152-221 | After a reset one VLAN with all ports is left and all derived tables agree with it |
| VlanTable.TypeSetKeepsInv | src/src/board/brd_vlan.c:227-271 | A type change keeps the invariant, also when it is refused or changes nothing |
| VlanTable.CreateKeepsInv | src/src/board/brd_vlan.c:289-346 | A creation, or its refusal, keeps the invariant |
| VlanTable.DestroyKeepsInv | src/src/board/brd_vlan.c:353-387 | A destruction, or its refusal, keeps the invariant |
| VlanTable.PvlanPortSetKeepsInv | src/src/board/brd_vlan.c:390-500 | Setting the ports of a port-based VLAN keeps the index and all masks exact, including the early return on an equal list |
| VlanTable.QvlanPortSetKeepsInv | src/src/board/brd_vlan.c:555-588 | Setting the ports of an 802.1Q VLAN keeps list and switch in agreement |
| VlanTable.SetMember | src/src/board/brd_vlan.c:425-434 | Flipping one index bit per port gives exactly the VLANs that hold the port afterwards |
| VlanTable.SetEgress | src/src/board/brd_vlan.c:435-452 | The union over the other indexed VLANs, with the new list, is the union over all VLANs that hold the port |
| VlanTable.OthersUnionMeans | src/src/board/brd_vlan.c:438-449 | The inner walk collects exactly the ports of the other VLANs the index names |
| VlanLimits.TypeChangeLands | src/src/board/brd_vlan.c:227-271 | A change to another VLAN type, from any state, ends in that type with the default VLAN alone, every port an untagged member that forwards to every port, and every invariant in force |
| VlanLimits.TypeChangeRefused | src/src/board/brd_vlan.c:233-239 | A change to the type in force changes nothing; one to no type at all is an error and changes nothing |
| VlanLimits.CreationIn1q | src/src/board/brd_vlan.c:289-346 | In 802.1Q mode a creation is answered by the id, 1 to 4094, by the 128 VLANs there is room for, and by the ids listed; in this order |
| VlanLimits.CreationPortBased | src/src/board/brd_vlan.c:289-346 | In port-based mode exactly the ids from 1 to one more than there are ports can be created, each as long as it is not listed; a listed one is refused as existing, or as full when all are listed |
| VlanLimits.CreationNeedsType | src/src/board/brd_vlan.c:307-309 | Without a VLAN type every creation is refused |
| VlanLimits.CreatedIsLast | src/src/board/brd_vlan.c:318-345 | A created VLAN is the last one, without ports, in 802.1Q mode also for the switch; the others stay |
| VlanLimits.PortBasedHoldsExactly | src/src/board/brd_vlan.c:257-265 | After a change to port-based mode exactly the ids from 1 to one more than there are ports are listed together |
| VlanLimits.Dot1qHolds128 | src/src/board/brd_vlan.c:266-268 | After a change to 802.1Q mode 128 VLANs are listed together, and one more is refused |
| VlanLimits.ResetForgets | src/src/board/brd_vlan.c:177-206 | A reset makes the switch forget exactly the VLANs behind the head of an 802.1Q list |
| VlanLimits.PortBasedPortsSet | src/src/board/brd_vlan.c:390-500 | Setting the ports of a listed port-based VLAN sets them and no others; another id is not found and nothing changes |
| VlanLimits.Dot1qPortsSet | src/src/board/brd_vlan.c:555-588 | The same in 802.1Q mode, where the switch gets the members and, of these, the tagged ones |
| VlanLimits.Dot1qPortsNeed1q | src/src/board/brd_vlan.c:563-565 | Outside 802.1Q mode that is an error of state |
| VlanLimits.DestroyedIsGone | src/src/board/brd_vlan.c:353-387 | Destroying a listed VLAN takes out that one, from the switch too in 802.1Q mode; another id is not found and nothing changes |
| VlanLimits.DefaultsSelect1q | src/src/serializers/vlan.c:127-167 | Loading factory defaults ends in 802.1Q mode from every type, with every port VLAN id the default; from another type the default VLAN alone is left, with every port an untagged member |
| VlanDatabase.VlanDb.constructor | src/src/board/brd_vlan.c:101-112 | The boot state: an empty list, no type yet |
| VlanDatabase.VlanDb.GroupFind | src/src/board/brd_vlan.c:48-80 | The walk finds the first node with the id and the node before it, or reports that there is none |
| VlanDatabase.VlanDb.GroupTake | src/src/board/brd_vlan.c:48-80 | Lookup with deletion removes exactly that node; head, tail and count stay right and the list acyclic |
| VlanDatabase.VlanDb.Unlink | src/src/board/brd_vlan.c:59-71 | The pointer surgery at head, middle and tail leaves a well-formed list without the node |
| VlanDatabase.VlanDb.DropOthers | src/src/board/brd_vlan.c:183-200 | In 802.1Q mode the switch is told to forget every node behind the head |
| VlanDatabase.VlanDb.KeepOnlyDefault | src/src/board/brd_vlan.c:167-206 | The list part of the reset: one node, renamed, with every port |
| VlanDatabase.VlanDb.ClearPortIndex | src/src/board/brd_vlan.c:208-212 | Every port is indexed in VLAN 1 alone |
| VlanDatabase.VlanDb.Reset | src/src/board/brd_vlan.c:152-221 | The linked list and the tables after a reset are those of the reset on values |
| VlanDatabase.VlanDb.TypeSet | src/src/board/brd_vlan.c:227-271 | Status and new state of a type change, including the early returns |
| VlanDatabase.VlanDb.Append | src/src/board/brd_vlan.c:326-343 | The new node becomes the last one; tail and count follow |
| VlanDatabase.VlanDb.Create | src/src/board/brd_vlan.c:289-346 | Status and new state of a creation in every branch |
| VlanDatabase.VlanDb.Destroy | src/src/board/brd_vlan.c:353-387 | Status and new state of a destruction in every branch |
| VlanDatabase.VlanDb.UnionOthers | src/src/board/brd_vlan.c:438-449 | The walk over the other VLANs computes the union of those the index names |
| VlanDatabase.VlanDb.RebuildPort | src/src/board/brd_vlan.c:419-453 | One port's index word and egress mask are rebuilt, and no other port's |
| VlanDatabase.VlanDb.RebuildPorts | src/src/board/brd_vlan.c:419-493 | The loop rebuilds index and mask of every port |
| VlanDatabase.VlanDb.PvlanPortSet | src/src/board/brd_vlan.c:390-500 | In port-based mode: status and new state, including the early return |
| VlanDatabase.VlanDb.PvlanPortGet | src/src/board/brd_vlan.c:503-515 | The stored list of the VLAN, or not found |
| VlanDatabase.VlanDb.QvlanPortSet | src/src/board/brd_vlan.c:555-588 | Status and new state, the switch updated with the list |
| VlanDatabase.VlanDb.GetIdByIndex | src/src/board/brd_vlan.c:642-675 | The id at a position of the list, or not found |
| VlanDatabase.VlanDb.GetByIndex | src/src/board/brd_vlan.c:642-671 | Id and port lists at a position, the lists as the switch has them; not found behind the end, and the error of the switch for a VLAN it does not know |
| VlanImage.ImageReadsBack | src/src/serializers/vlan.c:96-119 | The image of any reachable database states its type and count, and in port-based and 802.1Q mode holds its VLANs in order, with members and tagged members |
| VlanImage.SaveThenLoad | src/src/serializers/vlan.c:48-125 | Saving any reachable database and loading it into any reachable state restores type, VLANs and order, and where the list is stored members and tagged members, if and only if: in port-based and 802.1Q mode, what is left after the type change and the removal of the default VLAN is a prefix of the saved ids; without a VLAN type, whose list is not stored, the list there or else the default VLAN alone has the saved ids; for the boot type, which a load cannot select, it is in force already |
| VlanImage.LoadIntoFreshRestores | src/src/serializers/vlan.c:48-125 | In particular a port-based or 802.1Q database is restored from another VLAN type, or from the same type with at most the default VLAN, and one without a VLAN type exactly if its ids are those the loading switch starts from |
| VlanImage.EmptiedListComesBack | src/src/serializers/vlan.c:48-92 | A run that is not restored: without a VLAN type the list is emptied and saved, and loading it in 802.1Q mode leaves the default VLAN |
| VlanImage.SameTypeLoadKeepsStranger | src/src/serializers/vlan.c:57-87 | Another: a load into the same type keeps a VLAN that the saved list does not start with |
| VlanImage.PvidSaveThenLoad | src/src/serializers/vlan.c:188-207 | Saving and loading the port VLAN ids restores them in 802.1Q mode and changes nothing in the others |
| VlanImage.LoadDefaultsLeavesDefaultVlan | src/src/serializers/vlan.c:127-165 | Loading defaults in 802.1Q mode leaves only the default VLAN, if it was there, with every port untagged, and every port VLAN id the default |
| VlanImage.DefaultsLoopCleans | src/src/serializers/vlan.c:144-161 | Walking the indices from last to first while deleting visits every VLAN once and deletes all but the default one |
| VlanImage.LoadRowEffect | src/src/serializers/vlan.c:68-87 | Loading one stored VLAN appends it, or overwrites the VLAN of that id, and touches no other |
| VlanImage.LoadBaseLeavesLeftover | src/src/serializers/vlan.c:50-67 | What is left before the stored VLANs are created, for every VLAN type |
| VlanImage.RowRoundTrip | src/src/serializers/vlan.c:22-31 | A stored VLAN reads back wherever it stands in the image |
| VlanImage.Uint16RoundTrip | src/src/serializers/vlan.c:96-99 | A 16-bit value reads back wherever it stands |
| VlanLayout.HeaderLayout | src/src/serializers/vlan.c:22-31 | Type, 0 to 3, and count stand in the first four bytes, least significant byte first, of an image of 2308 bytes |
| VlanLayout.PortBasedLayout | src/src/serializers/vlan.c:101-109 | A port-based VLAN takes ten bytes: id and port list |
| VlanLayout.Dot1qLayout | src/src/serializers/vlan.c:110-119 | An 802.1Q VLAN takes eighteen bytes: id, members and tagged members |
| VlanLayout.PaddingLayout | src/src/serializers/vlan.c:120-125 | The rest of the image is zero |
| VlanLayout.PvidLayout | src/src/serializers/vlan.c:195-207 | The port VLAN id of a port stands in the two bytes of its place, and 1 outside 802.1Q mode |
| VlanSerializer.SaveVlans | src/src/serializers/vlan.c:94-125 | The save loop writes exactly the image, of exactly the fixed length |
| VlanSerializer.SaveRows | src/src/serializers/vlan.c:101-119 | The loop over the list writes one record per VLAN, in order |
| VlanSerializer.LoadVlans | src/src/serializers/vlan.c:48-92 | For an image whose rows fit the fixed length, the load reads exactly that length and leaves the database in the state of the load on values |
| VlanSerializer.SelectType | src/src/serializers/vlan.c:48-67 | Type change and removal of the default VLAN |
| VlanSerializer.LoadStoredRows | src/src/serializers/vlan.c:68-86 | The load loop applies the stored VLANs in order |
| VlanSerializer.ReadRow | src/src/serializers/vlan.c:69-83 | One stored VLAN is read from the medium |
| VlanSerializer.SavePvids | src/src/serializers/vlan.c:195-207 | Two bytes per port: the port VLAN id in 802.1Q mode, else 1 |
| VlanSerializer.LoadPvids | src/src/serializers/vlan.c:188-194 | Two bytes per port are read, and stored in 802.1Q mode only |
| VlanSerializer.LoadDefaultVlans | src/src/serializers/vlan.c:127-167 | The state after loading defaults, in every VLAN type |
| VlanSerializer.ResetPvids | src/src/serializers/vlan.c:134-140 | Every port VLAN id becomes the default |
| VlanSerializer.DeleteFromLast | src/src/serializers/vlan.c:142-161 | The deleting walk from last to first |
| VlanSerializer.VisitFromLast | src/src/serializers/vlan.c:145-161 | One round: the default VLAN gets every port untagged, another VLAN goes |
| Uplists.PortsOfToUplist | src/systems/bcm95607x/src/board.c:261-314 | A set of ports written out as a port list reads back as the same set |
| Uplists.AddAllPortsHasAll | src/src/board/brd_vlan.c:85-92 | Adding every port gives every port, whatever bits were there before |
| Uplists.MaskIsBit | src/src/utils/ports/ports_utils.c:53-75 | The mask test of one byte is the test of one bit |
| Uplists.PortAddMatches | src/src/utils/ports/ports_utils.c:78-96 | Adding a valid port adds that port only; an invalid one changes nothing |
| Uplists.PortsMatches | src/systems/bcm95607x/src/board.c:261-290 | The ports of a list are those the mask test accepts |
| Uplists.FullHasAllPorts | src/src/serializers/vlan.c:147-155 | Bytes of ones stand for every port of the board |
| IgmpGroups.MacIsLow23 | src/src/appl/igmpsnoop/igmpsnoop_cbk.c:25-32 | Two group addresses get one MAC address exactly when the comparison of are_pals calls them pals |
| IgmpGroups.MacHoldsLow23 | src/src/appl/igmpsnoop/igmpsnoop_cbk.c:25-32 | The MAC address of a group is 01-00-5E and its low 23 address bits in network order |
| IgmpGroups.ThirtyTwoGroupsPerMac | src/src/appl/igmpsnoop/igmpsnoop_cbk.c:25-32 | Exactly the 32 group addresses that agree in their low 23 bits share a MAC address (section 6.4 of RFC 1112) |
| IgmpGroups.PalsShareKey | src/src/appl/igmpsnoop/igmpsnoop_int.h:121-130 | Pals are the groups of one layer-2 entry |
| IgmpGroups.ActivePalMeans | src/src/appl/igmpsnoop/igmpsnoop_cbk.c:262-275 | The pal count is positive exactly when the group and another group on the entry have the port in their age bits |
| IgmpGroups.ExpireView | src/src/appl/igmpsnoop/igmpsnoop_cbk.c:250-287 | An expiry takes the port from this one group and touches no other membership, also when a pal takes over a removed pioneer's slot |
| IgmpGroups.ExpireL2 | src/src/appl/igmpsnoop/igmpsnoop_cbk.c:250-287 | After an expiry the layer-2 entry keeps the port exactly if the group and another group on the entry have it in their age bits; nothing else changes away from router ports |
| IgmpGroups.RemoveEntryView | src/src/appl/igmpsnoop/igmpsnoop.c:413-462 | Removing an emptied group, with or without a take-over, changes no other group's ports |
| IgmpGroups.RemoveEntryL2 | src/src/appl/igmpsnoop/igmpsnoop.c:413-462 | It takes from layer-2 entries only ports no group wants any more |
| IgmpGroups.SummaryIsHolders | src/src/appl/igmpsnoop/igmpsnoop.c:702-719 | Router ports apart, the summary holds exactly the ports some pal wants |
| IgmpGroups.ExpireKeepsInv | src/src/appl/igmpsnoop/igmpsnoop_cbk.c:250-287 | No group appears twice and age bits stay within the lists |
| IgmpGroups.ExpireGroups | src/src/appl/igmpsnoop/igmpsnoop_cbk.c:250-287 | An expiry makes a group unknown exactly if it takes its last port, and makes no other group known or unknown |
| IgmpGroups.ClearedKeeps | src/src/appl/igmpsnoop/igmpsnoop.c:164-186 | Clearing the database leaves no group, and of the layer-2 entries exactly those that no pioneer stood for |
| IgmpLeaves.TickLeavesSurvivorsExactly | src/src/appl/igmpsnoop/igmpsnoop_cbk.c:249-300 | The law of the queue, for any database without duplicate groups and any queue of 8-bit timeouts: a tick leaves the old queue without the records that ran out, in the same order, each other timeout one lower, if and only if no timeout is 0 and every record that runs out still finds its group, that is, the group is known and the records before it that run out for the same group, if any, leave it a port |
| IgmpLeaves.EverySecondCountsDown | src/src/appl/igmpsnoop/igmpsnoop_cbk.c:249-300 | The same for every second of every run of leave messages, queries, reports and seconds from the empty queue, whatever happened to the groups in between |
| IgmpLeaves.ListedNeedsOnlyKnown | src/src/appl/igmpsnoop/igmpsnoop_cbk.c:253-258 | For records that count down from at least 1, distinct and listed if their group is known, the law holds if and only if the group of every record that runs out is known |
| IgmpEntries.TickKeepsL2Exactly | src/src/appl/igmpsnoop/igmpsnoop_cbk.c:250-287 | The promise that a port is dropped only when no group still uses it, and exactly when a tick meets it: for any queue in which no two records that run out are for one group and port, from an entry that agrees with its groups the tick leads to one that agrees if and only if no group keeps the port, nobody loses it, or the age bits show all that lose it and one that stays |
| IgmpEntries.EverySecondKeepsL2Exactly | src/src/appl/igmpsnoop/igmpsnoop_cbk.c:249-300 | The same for every second of every run of the leave queue |
| IgmpEntries.FreshAgesKeepL2 | src/src/appl/igmpsnoop/igmpsnoop_cbk.c:250-283 | While every listed port has its age bit, the promise is met if and only if no group keeps the port or all that lose it had it |
| IgmpEntries.ListedLoseWhatTheyHold | src/src/appl/igmpsnoop/igmpsnoop_cbk.c:250-283 | They had it if every record that runs out is for a port its group lists |
| IgmpEntries.TickView | src/src/appl/igmpsnoop/igmpsnoop_cbk.c:249-300 | After the tick each group has lost exactly the ports of those records that ran out and still found it; if the first record ran out and its group is gone, no group has lost any |
| IgmpEntries.TickL2 | src/src/appl/igmpsnoop/igmpsnoop_cbk.c:249-300 | The tick keeps a port in a layer-2 entry exactly if none of its groups loses it, or all that lose it and one that stays have it in their age bits |
| IgmpEntries.TickKeepsInv | src/src/appl/igmpsnoop/igmpsnoop_cbk.c:249-300 | No group appears twice after a tick, and age bits stay within the lists |
| IgmpReports.ReportKeepsL2Exactly | src/src/appl/igmpsnoop/igmpsnoop.c:334-411 | From an entry that agrees with its groups a report leads to one that agrees if and only if it is for another entry or refused, or its group was known and the port is not reported, in the entry already, or reaches it through the pioneer, or its group is new and the port is reported or was used by no group of the entry |
| IgmpReports.RefusedMeans | src/src/appl/igmpsnoop/igmpsnoop.c:335-372 | A report is refused exactly if its group is unknown and there is no slot or no entry for it; it then changes no group and no entry |
| IgmpReports.UpdateView | src/src/appl/igmpsnoop/igmpsnoop.c:334-411 | An accepted report adds its ports, with their age bits, to this one group and to no other; a report is accepted if its group is known, or a slot and an entry are free |
| IgmpReports.UpdateL2 | src/src/appl/igmpsnoop/igmpsnoop.c:334-411 | What a report does to one port of one layer-2 entry, in every branch |
| IgmpReports.UpdateKeepsInv | src/src/appl/igmpsnoop/igmpsnoop.c:334-411 | A report keeps groups distinct and age bits within the lists, whether its group is new, known or refused |
| IgmpReports.AgeFromKeepsInv | src/src/appl/igmpsnoop/igmpsnoop_cbk.c:311-389 | So does the ageing |
| IgmpRouters.StrikeKeepsRouterPort | src/src/appl/igmpsnoop/igmpsnoop.c:874-896 | A dynamic router port is never struck from an entry |
| IgmpRouters.ExpireL2Everywhere | src/src/appl/igmpsnoop/igmpsnoop_cbk.c:250-287 | The law of an expiry for every port of every entry, router port or not: the port goes exactly if it is struck, being no router port with no active pal, or the emptied group was the pioneer and no pal keeps it in the cast, by its list or by the router ports that the cast looks at |
| IgmpRouters.RemoveL2Everywhere | src/src/appl/igmpsnoop/igmpsnoop.c:413-462 | Removing an emptied group casts its entry exactly if it was the pioneer, and then any port stays exactly if a pal keeps it |
| IgmpRouters.ExpireKeepsRouterPort | src/src/appl/igmpsnoop/igmpsnoop_cbk.c:250-287 | A router port that the cast looks at leaves an entry only together with the entry |
| IgmpRouters.TickL2Everywhere | src/src/appl/igmpsnoop/igmpsnoop_cbk.c:249-300 | The law of a tick for every port of every entry: it stays exactly if the walk ends at its first record, or no record that is expired takes it from the groups as they are then |
| IgmpRouters.TickKeepsRouterPort | src/src/appl/igmpsnoop/igmpsnoop_cbk.c:249-300 | Of a router port that the cast looks at, the tick takes nothing but whole entries |
| IgmpRouters.UpdateL2Everywhere | src/src/appl/igmpsnoop/igmpsnoop.c:334-411 | The law of a report for every port: the entry of a new group also gets the router ports of its VLAN |
| IgmpRouters.AgeKeepsRouterPort | src/src/appl/igmpsnoop/igmpsnoop_cbk.c:311-389 | Of such a router port the ageing takes nothing but whole entries |
| IgmpRouters.ClearedHasNoRouterPort | src/src/appl/igmpsnoop/igmpsnoop.c:176-183 | Clearing the database forgets every router port of every VLAN |
| IgmpRouters.ClearedIsUnused | src/src/appl/igmpsnoop/igmpsnoop.c:175-183 | Clearing the database leaves no group slot and no router record in use |
| IgmpPioneers.UpdateServesExactly | src/src/appl/igmpsnoop/igmpsnoop.c:334-411 | If every group has its entry and every entry one pioneer, this stays so after a report if and only if the report does not enter a group whose only pals are slots that are not in use |
| IgmpPioneers.EnterServes | src/src/appl/igmpsnoop/igmpsnoop.c:352-387 | A new group is the pioneer of its entry or follows one exactly if its pals are groups |
| IgmpPioneers.NonZeroPalsAreGroups | src/src/appl/igmpsnoop/igmpsnoop_int.h:123-127 | They are if its low 23 address bits are not all zero |
| IgmpPioneers.ServedIsReached | src/src/appl/igmpsnoop/igmpsnoop.c:388-405 | Then a report of a known group reaches its entry |
| IgmpPioneers.TickKeepsServed | src/src/appl/igmpsnoop/igmpsnoop_cbk.c:249-300 | A tick of the leave queue keeps an entry and one pioneer for every group |
| IgmpPioneers.AgeFromKeepsServed | src/src/appl/igmpsnoop/igmpsnoop_cbk.c:311-389 | So does the ageing |
| IgmpAgeing.AgeKeepsL2Exactly | src/src/appl/igmpsnoop/igmpsnoop_cbk.c:311-389 | From an entry that agrees with its groups, each with its entry and one pioneer per entry, the ageing leads to one that agrees if and only if no group had the port in its age bits, or some group that had is not the one aged twice |
| IgmpAgeing.AgeView | src/src/appl/igmpsnoop/igmpsnoop_cbk.c:311-389 | The ageing leaves each group the ports of its age bits and clears these; only the group that is aged twice is left without any port |
| IgmpAgeing.AgeL2 | src/src/appl/igmpsnoop/igmpsnoop_cbk.c:311-389 | An entry that agreed with its groups keeps exactly the ports that some group had in its age bits |
| IgmpAgeing.StrandedMeans | src/src/appl/igmpsnoop/igmpsnoop_cbk.c:328-387 | A group is aged twice exactly if it is the first of its entry with age bits and stands before a pioneer without any |
| IgmpAgeing.AgeSummaryIsCounting | src/src/appl/igmpsnoop/igmpsnoop_cbk.c:328-348 | Router ports apart, the summary for a pioneer holds exactly the ports that some group of the entry keeps |
| IgmpRuns.EveryNetRunKeepsInv | src/src/appl/igmpsnoop/igmpsnoop.c:164-693 | Over any run of reports, leave messages, queries and seconds, with and without ageing, from the empty database, no group is twice in the database, no record twice in the queue, age bits stay within the lists, and slots that are not in use are empty |
| IgmpRuns.EverySecondOfARun | src/src/appl/igmpsnoop/igmpsnoop_cbk.c:249-300 | In every such run the queue law and the entry law of a second hold under exactly the conditions above |
| IgmpRuns.EveryReportOfARun | src/src/appl/igmpsnoop/igmpsnoop.c:334-411 | And so does the entry law of a report |
| IgmpRuns.EveryNetRunServes | src/src/appl/igmpsnoop/igmpsnoop.c:334-462 | In every such run without reports of groups whose low 23 address bits are zero, every group has its entry and every entry exactly one pioneer |
| IgmpRuns.KnownReportKeepsL2 | src/src/appl/igmpsnoop/igmpsnoop.c:388-408 | In these runs a report of a known group never makes entry and groups disagree |
| IgmpRuns.EveryAgeingOfARun | src/src/appl/igmpsnoop/igmpsnoop_cbk.c:311-389 | In these runs the entry law of the ageing holds under exactly the condition above |
| IgmpRuns.MessagesTouch | src/src/appl/igmpsnoop/igmpsnoop_cbk.c:184-215 | Only reports of groups that are not local touch groups and entries; a version 2 report takes back the leave record of its port, an older one does not |
| IgmpRuns.LeavesAndQueriesTouch | src/src/appl/igmpsnoop/igmpsnoop_cbk.c:184-215 | A leave message queues at most two seconds for its port if its group is known, and a query gives each record of its group two seconds |
| IgmpRuns.UnjoinedLeaveLosesPort | src/src/appl/igmpsnoop/igmpsnoop.c:616-656 | A run in which a port leaves a group it never joined, and a second later is dropped from the entry although a pal uses it; all age bits were set |
| IgmpRuns.StaleAgeLosesPort | src/src/appl/igmpsnoop/igmpsnoop.c:809-817 | A run in which two groups use a port, the ageing clears the age bits, only one of them reports again and leaves, and the port is dropped although the other one uses it |
| IgmpRuns.SecondReportLosesPort | src/src/appl/igmpsnoop/igmpsnoop.c:352-371 | A run in which the first report of a group drops the port of its pal from the entry they share |
| IgmpRuns.ZeroGroupLosesPort | src/src/appl/igmpsnoop/igmpsnoop.c:376-405 | A run in which a group with low address bits zero follows an unused slot and its second port never reaches the entry |
| IgmpAgeingRun.AgeingStrandsGroup | src/src/appl/igmpsnoop/igmpsnoop_cbk.c:372-387 | A run in which a group that has just reported takes over from its silent pioneer in a later slot and is left without a port, while the entry keeps it |
| IgmpLeaves.LostGroupStopsTheWalk | src/src/appl/igmpsnoop/igmpsnoop_cbk.c:253-258 | A first record that runs out and whose group is gone ends the walk: no other timeout is counted down, which a second record that still counts shows |
| IgmpLeaves.UnlistedPortStays | src/src/appl/igmpsnoop/igmpsnoop_cbk.c:253-258 | Two records run out together, the later one of a port that never joined: the group goes with the first, and the walk meets the other one again and wraps its timeout to 255 |
| IgmpLeaves.TickHasNoDoubles | src/src/appl/igmpsnoop/igmpsnoop_cbk.c:249-300 | A tick never doubles a record |
| IgmpLeaves.InsertedHasNoDoubles | src/src/appl/igmpsnoop/igmpsnoop.c:616-656 | A leave message leaves one record for its group and port, never two |
| IgmpLeaves.GrantedHasNoDoubles | src/src/appl/igmpsnoop/igmpsnoop.c:658-670 | A query changes timeouts only |
| IgmpLeaves.WithdrawnHasNoDoubles | src/src/appl/igmpsnoop/igmpsnoop.c:672-693 | After a report no record for its group and port is left, and none is doubled |
| IgmpMessages.InsertedMeans | src/src/appl/igmpsnoop/igmpsnoop.c:616-656 | A leave message is accepted exactly if its group is known and it has a record or there are fewer than 128; it touches no other record |
| IgmpMessages.InsertedTimeout | src/src/appl/igmpsnoop/igmpsnoop.c:640-651 | A new record gets the full time, an old one at most that: a repeated leave never puts off the end |
| IgmpMessages.WithdrawnMeans | src/src/appl/igmpsnoop/igmpsnoop.c:672-693 | A report takes back the record of its group and port, if there is one, and no other |
| IgmpMessages.GrantedLastsTwoSeconds | src/src/appl/igmpsnoop/igmpsnoop.c:658-670 | After a query each record of the group survives one second and runs out in the next; other records are as before |
| IgmpLeaves.EveryRunHasNoDoubles | src/src/appl/igmpsnoop/igmpsnoop.c:616-693 | Over any run of leave messages, queries, reports and seconds no two records are for the same group and port, whatever happens to the groups |
| IgmpSnooping.GroupTable.constructor | src/src/appl/igmpsnoop/igmpsnoop.c:164-201 | The empty database over any multicast table and router records |
| IgmpSnooping.GroupTable.DatabaseInit | src/src/appl/igmpsnoop/igmpsnoop.c:164-186 | Every group goes, the entries of pioneers leave the multicast table, and router records in use are cleared |
| IgmpSnooping.GroupTable.RemovePioneers | src/src/appl/igmpsnoop/igmpsnoop.c:169-174 | The loop removes the entry of every pioneer from the multicast table, and no other |
| IgmpSnooping.GroupTable.Search | src/src/appl/igmpsnoop/igmpsnoop.c:321-332 | The first entry that names the group, up to the pioneer bit |
| IgmpSnooping.GroupTable.ScanPals | src/src/appl/igmpsnoop/igmpsnoop_cbk.c:261-275 | The scan counts active pals, and finds the last valid pal with the pioneer bit, if there is one |
| IgmpSnooping.GroupTable.FindRouterPorts | src/src/appl/igmpsnoop/igmpsnoop.c:712-719 | The router ports of the first matching record |
| IgmpSnooping.GroupTable.L2PortRemove | src/src/appl/igmpsnoop/igmpsnoop.c:874-896 | The port leaves the entry unless it is a dynamic router port |
| IgmpSnooping.GroupTable.Strike | src/src/appl/igmpsnoop/igmpsnoop_cbk.c:261-281 | The port leaves the shared entry, unless a pal is active on it, and the group's lists |
| IgmpSnooping.GroupTable.ExpirePort | src/src/appl/igmpsnoop/igmpsnoop_cbk.c:253-287 | The whole treatment of an expired record of a known group |
| IgmpSnooping.GroupTable.Summarize | src/src/appl/igmpsnoop/igmpsnoop.c:420-434 | The pals' ports and the first pal |
| IgmpSnooping.GroupTable.L2Cast | src/src/appl/igmpsnoop/igmpsnoop.c:829-845 | Port by port, the entry shrinks to its intersection with the summary |
| IgmpSnooping.GroupTable.EraseEntry | src/src/appl/igmpsnoop/igmpsnoop.c:438-449 | The last group of an entry takes the entry along |
| IgmpSnooping.GroupTable.MovePal | src/src/appl/igmpsnoop/igmpsnoop.c:450-457 | A pal takes over the pioneer's slot |
| IgmpSnooping.GroupTable.EntryRemove | src/src/appl/igmpsnoop/igmpsnoop.c:413-462 | The whole removal of an emptied group |
| IgmpSnooping.GroupTable.DbUpdate | src/src/appl/igmpsnoop/igmpsnoop.c:334-411 | Result and new state of a report in every branch |
| IgmpSnooping.GroupTable.DbNew | src/src/appl/igmpsnoop/igmpsnoop.c:307-318 | The first slot without a valid bit |
| IgmpSnooping.GroupTable.EnterGroup | src/src/appl/igmpsnoop/igmpsnoop.c:352-387 | A new group: its entry is written with the reported ports and the router ports, and it becomes a follower if it has a pal |
| IgmpSnooping.GroupTable.Renew | src/src/appl/igmpsnoop/igmpsnoop.c:388-408 | A known group: the ports join the entry of its pioneer and its own lists |
| IgmpSnooping.GroupTable.FindPal | src/src/appl/igmpsnoop/igmpsnoop.c:379-383 | The first slot with the same low address bits and VLAN, in use or not |
| IgmpSnooping.GroupTable.FindPioneer | src/src/appl/igmpsnoop/igmpsnoop.c:395-399 | The first pal with the pioneer bit |
| IgmpSnooping.GroupTable.L2Add | src/src/appl/igmpsnoop/igmpsnoop.c:860-870 | The ports join the entry, if there is one |
| IgmpSnooping.GroupTable.ListAdd | src/src/appl/igmpsnoop/igmpsnoop.c:742-753 | The ports join list and age bits |
| IgmpSnooping.GroupTable.AgeSummarize | src/src/appl/igmpsnoop/igmpsnoop_cbk.c:328-348 | The lists of pals before the pioneer, aged already, and the age bits of the others, with the router ports; and the first pal |
| IgmpSnooping.GroupTable.AgeVisit | src/src/appl/igmpsnoop/igmpsnoop_cbk.c:314-388 | The visit of one slot: entry, take-over, removal and ageing |
| IgmpSnooping.GroupTable.AgeOut | src/src/appl/igmpsnoop/igmpsnoop_cbk.c:311-389 | The whole ageing |
| IgmpSnooping.LeaveQueue.constructor | src/src/appl/igmpsnoop/igmpsnoop.c:185-191 | An empty queue, every slot free |
| IgmpSnooping.LeaveQueue.Unlink | src/src/appl/igmpsnoop/igmpsnoop_cbk.c:288-295 | Unlinking at the head or in the middle drops exactly that record; queue and free pool still split the slots |
| IgmpSnooping.LeaveQueue.Pass | src/src/appl/igmpsnoop/igmpsnoop_cbk.c:296-299 | A record that still counts is passed |
| IgmpSnooping.LeaveQueue.TimeOut | src/src/appl/igmpsnoop/igmpsnoop_cbk.c:250-295 | A record that ran out, of a known or an unknown group; the number of rounds left shrinks |
| IgmpSnooping.LeaveQueue.Tick | src/src/appl/igmpsnoop/igmpsnoop_cbk.c:249-300 | The walk ends, and leaves queue and groups as the tick on values does, for any well-formed queue |
| IgmpSnooping.LeaveQueue.PSearch | src/src/appl/igmpsnoop/igmpsnoop.c:595-613 | The first record of this group and port, and the record before it |
| IgmpSnooping.LeaveQueue.PNew | src/src/appl/igmpsnoop/igmpsnoop.c:575-585 | The first free slot: none if the queue is full, else one that is not linked |
| IgmpSnooping.LeaveQueue.Insert | src/src/appl/igmpsnoop/igmpsnoop.c:616-656 | Result, slots and head after a leave message for one port; unless it is accepted with address zero, the queue is well-formed and holds what the insertion on values says |
| IgmpSnooping.InsertedIsQueueExactly | src/src/appl/igmpsnoop/igmpsnoop.c:575-656 | The slots hold a well-formed queue after a leave message if and only if it is refused or its address is not zero |
| IgmpSnooping.ZeroGroupIsKnown | src/src/appl/igmpsnoop/igmpsnoop.c:320-332 | Once a group was removed, the search finds group zero of its VLAN |
| IgmpSnooping.ZeroLeaveThenLeave | src/src/appl/igmpsnoop/igmpsnoop.c:575-656 | After an accepted leave for group zero the next leave that is not queued yet gets the same slot and links it to itself, so that the links from the head never end |
| IgmpSnooping.LeaveQueue.Grant | src/src/appl/igmpsnoop/igmpsnoop.c:658-670 | The walk sets the timeout of exactly the records of the group |
| IgmpSnooping.LeaveQueue.Withdraw | src/src/appl/igmpsnoop/igmpsnoop.c:672-693 | Result and new queue of a report for one port |
| LineText.RunKeepsShape | src/src/appl/editline/bcma_editline.c:601-1078 | Over any run of commands the cursor stays inside the text and no terminator gets into it |
| LineText.KillThenYank | src/src/appl/editline/bcma_editline.c:1026-1050 | Kill then yank gives back the text |
| LineText.WipeThenYank | src/src/appl/editline/bcma_editline.c:1694-1744 | Wipe then yank gives back the text exactly when the region was empty with an empty kill buffer, or was what the kill buffer holds afterwards |
| LineText.DelCharThenYank | src/src/appl/editline/bcma_editline.c:945-992 | Deleting forward and yanking gives back the text exactly when more than one character was deleted or the kill buffer already held it |
| LineText.InsertThenErase | src/src/appl/editline/bcma_editline.c:1010-1078 | Typing a character some times and erasing it as often leaves text, cursor and mark unchanged |
| LineText.ExchangeTwice | src/src/appl/editline/bcma_editline.c:1720-1735 | Exchanging cursor and mark twice changes nothing |
| LineText.WipeTakesWhatCopyCopies | src/src/appl/editline/bcma_editline.c:1694-1760 | Wiping and copying leave the same kill buffer exactly if the region has two characters or more, or is what the kill buffer held already; wiping two or more and yanking gives back the text |
| LineText.CopyWholeLine | src/src/appl/editline/bcma_editline.c:1545-1760 | Beginning of line, mark, end of line and copy take the whole text, with the cursor at its end |
| LineText.ForthAndBack | src/src/appl/editline/bcma_editline.c:912-1008 | Forward and back again ends where it began exactly if the end of the text did not get in the way, or it began at the start |
| LineText.BackAndForth | src/src/appl/editline/bcma_editline.c:912-1008 | Back and forward likewise |
| LineText.MarkBringsBack | src/src/appl/editline/bcma_editline.c:1713-1735 | Exchanging brings the cursor back to where the mark was set, and the mark to where it came from |
| LineText.EraseIsBackAndDelete | src/src/appl/editline/bcma_editline.c:945-1024 | Erasing backward is going back and deleting forward |
| LineText.KillAllThenYank | src/src/appl/editline/bcma_editline.c:1149-1156 | The kill key empties the line, and yanking gives it back |
| LineText.KillToLeft | src/src/appl/editline/bcma_editline.c:1026-1050 | Killing to a column on the left takes the stretch between |
| LineText.KillToRight | src/src/appl/editline/bcma_editline.c:1026-1050 | A column on the right moves the cursor one place and takes two characters fewer than lie between, as far as there are |
| LineBuffer.Editor.constructor | src/src/appl/editline/bcma_editline.c:1439-1443 | The first buffer |
| LineBuffer.Editor.Start | src/src/appl/editline/bcma_editline.c:1176-1179 | A new line: empty text, kill buffer kept |
| LineBuffer.Editor.MakeRoom | src/src/appl/editline/bcma_editline.c:609-620 | The buffer grows when needed, contents kept |
| LineBuffer.Editor.OpenGap | src/src/appl/editline/bcma_editline.c:622-624 | The tail moves up |
| LineBuffer.Editor.InsertString | src/src/appl/editline/bcma_editline.c:601-632 | The string goes in at the cursor, the cursor behind it, the terminator at the end |
| LineBuffer.Editor.SaveYank | src/src/appl/editline/bcma_editline.c:927-943 | The kill buffer gets the stretch, or becomes empty |
| LineBuffer.Editor.CloseGap | src/src/appl/editline/bcma_editline.c:985-989 | The tail moves down, with its terminator |
| LineBuffer.Editor.DeleteString | src/src/appl/editline/bcma_editline.c:945-992 | The clipped stretch goes; more than one character goes to the kill buffer |
| LineBuffer.Editor.Back | src/src/appl/editline/bcma_editline.c:997-1005 | The cursor goes back at least one place and at most to the start |
| LineBuffer.Editor.BkChar | src/src/appl/editline/bcma_editline.c:994-1008 | Cursor back |
| LineBuffer.Editor.FdChar | src/src/appl/editline/bcma_editline.c:912-925 | Cursor forward |
| LineBuffer.Editor.BegLine | src/src/appl/editline/bcma_editline.c:1545-1553 | Cursor to the start |
| LineBuffer.Editor.EndLine | src/src/appl/editline/bcma_editline.c:1561-1569 | Cursor to the end |
| LineBuffer.Editor.MkSet | src/src/appl/editline/bcma_editline.c:1713-1718 | Mark at the cursor |
| LineBuffer.Editor.Exchange | src/src/appl/editline/bcma_editline.c:1720-1735 | Cursor and mark trade places when the key is confirmed and the mark lies inside |
| LineBuffer.Editor.InsertChar | src/src/appl/editline/bcma_editline.c:1052-1078 | One or repeat copies are inserted; a used count becomes 0 |
| LineBuffer.Editor.DelChar | src/src/appl/editline/bcma_editline.c:1555-1559 | Delete forward |
| LineBuffer.Editor.BkDelChar | src/src/appl/editline/bcma_editline.c:1010-1024 | Delete backward |
| LineBuffer.Editor.KillLine | src/src/appl/editline/bcma_editline.c:1026-1050 | Kill to the end, or to a column with a count, if a count to the right meets a character under the cursor |
| LineBuffer.Editor.KillAll | src/src/appl/editline/bcma_editline.c:1149-1156 | The kill key empties the line |
| LineBuffer.Editor.Wipe | src/src/appl/editline/bcma_editline.c:1694-1711 | The region between cursor and mark goes |
| LineBuffer.Editor.CopyRegion | src/src/appl/editline/bcma_editline.c:1746-1760 | The region is copied |
| LineBuffer.Editor.Yank | src/src/appl/editline/bcma_editline.c:1737-1744 | The kill buffer is inserted |
| History.HistoryIsSuffix | src/src/appl/editline/bcma_editline.c:1216-1490 | Over any run of readline and add_history the history is the last lines added, min(n, 64) of them, or min(n, 63) when a line was read from the terminal since the last addition |
| History.HistoryBounds | src/src/appl/editline/bcma_editline.c:1216-1490 | It is a suffix of all non-empty lines added, of length at least min(n, 63) and at most 64 |
| History.GoingBackShowsLatest | src/src/appl/editline/bcma_editline.c:661-669 | Going back i entries shows the i-th latest line |
| History.EndsOfHistory | src/src/appl/editline/bcma_editline.c:666-723 | The first entry is the oldest line, where going back ends, and the last one is the line being typed |
| History.NextUndoesPrev | src/src/appl/editline/bcma_editline.c:660-669 | Going forward undoes going back and the other way round, except at the ends |
| History.Buffer.constructor | src/src/appl/editline/bcma_editline.c:116 | The empty history |
| History.Buffer.HistAdd | src/src/appl/editline/bcma_editline.c:1216-1235 | The line is appended, the oldest one dropped when the array is full |
| History.Buffer.AddHistory | src/src/appl/editline/bcma_editline.c:1482-1490 | Null and empty lines are ignored |
| History.Buffer.Readline | src/src/appl/editline/bcma_editline.c:1418-1480 | The scratch entry comes and goes; other input leaves the history alone |
| History.Buffer.Go | src/src/appl/editline/bcma_editline.c:659-669 | The entry moved to, or a bell at the ends, always inside the array |
| History.Buffer.GoRepeated | src/src/appl/editline/bcma_editline.c:686-710 | The repeated move: as many entries as the count says, or to the end and a bell if there are not as many |
| Completion.Complete | src/src/appl/editline/bcma_editline.c:774-791 | With two or more candidates text and completion are their longest common prefix, and nothing is inserted exactly when that is the text; a single candidate is completed whole |
| Completion.AllAgree | src/src/appl/editline/bcma_editline.c:776-781 | The inner loop decides whether the next character is common |
| RxPackets.EveryRunKeepsInv | src/src/kernel/rx.c:37-252 | Over any run of registrations, packets that arrive, and what applications and callbacks do with them at any depth, every wrapper ever added is idle, posted, in a handler or with an application, and in one place only; none is idle while a callback is registered; posted wrappers match outstanding driver descriptors; the callback list holds exactly the occupied slots in order |
| RxPackets.ReceiveFindsWrapper | src/src/board/brd_rxtx.c:46-51 | A packet the switch delivers always finds a wrapper |
| RxPackets.MadeIsPeak | src/src/board/brd_rxtx.c:119-139 | The driver descriptors ever allocated are exactly the most that were ever outstanding at once, moments within callbacks included |
| RxPackets.StepKeepsInv | src/src/kernel/rx.c:37-252 | Each operation keeps the ownership invariant |
| RxPackets.DeliverKeepsInv | src/src/kernel/rx.c:146-198 | So does the delivery of a packet, whatever its callbacks free and answer and whatever arrives while they poll; afterwards the packet is in no handler, and every other packet that was in one still is |
| RxPackets.EveryReceiveIsInARun | src/src/board/brd_rxtx.c:36-83 | A packet received from a state that a run leads to, with packets received within its callbacks to any depth, leads to another such state, so every law over runs holds of it |
| RxPackets.ReceiveLeads | src/src/board/brd_rxtx.c:36-83 | It does so by steps of the run machine, and leaves in handlers what was there before |
| RxPackets.LastCallerKeeps | src/src/kernel/rx.c:174-198 | A packet ends with an application exactly if the last callback called kept it |
| RxPackets.RegisterKeepsInv | src/src/kernel/rx.c:38-105 | A registration keeps the ownership invariant; the first one posts every idle wrapper |
| RxPackets.UnregisterKeepsInv | src/src/kernel/rx.c:108-128 | Unregistering keeps the ownership invariant |
| RxPackets.StepIsFrugal | src/src/board/brd_rxtx.c:119-128 | A driver descriptor is allocated only when none is free |
| RxPackets.RegisterMeans | src/src/kernel/rx.c:38-105 | A registration is refused without a callback or when every slot is taken, and then changes nothing; else the callback is in the list and no wrapper is idle |
| RxPackets.UnregisterMeans | src/src/kernel/rx.c:108-128 | Unregistering takes out the first place of the list with this callback and nothing else; of an unknown one it is an error |
| RxPackets.LastBackTakesNext | src/src/kernel/rx.c:131-143 | A wrapper that comes back while a callback is registered takes the next packet |
| RxPackets.LastIdleIsPostedFirst | src/src/kernel/rx.c:92-102 | One that comes back while none is registered is posted first by the next registration |
| RxCallbacks.RegisteredKeepsInv | src/src/kernel/rx.c:51-91 | After a registration the list holds exactly the occupied slots, by priority value, newest first among equals |
| RxCallbacks.UnregisteredKeepsInv | src/src/kernel/rx.c:108-128 | So it does after an unregistration |
| RxCallbacks.CallsAreEligible | src/src/kernel/rx.c:151-192 | Only eligible callbacks are called, in list order |
| RxCallbacks.CallsStopAtTaker | src/src/kernel/rx.c:174-192 | The calls stop at the first callback that takes the packet, and only there or at the end of the list |
| RxCallbacks.EligibleInOrder | src/src/kernel/rx.c:151-172 | The eligible callbacks are ranked by priority value, latest first among equals |
| RxCallbacks.CallsAreListeners | src/src/kernel/rx.c:146-198 | By the registration flags: a packet that is cut short or faulty is offered to exactly the callbacks whose flags have bit 1, in list order up to the first that takes it |
| RxCallbacks.GoodPacketReachesAll | src/src/kernel/rx.c:146-198 | A good packet is offered to every callback whatever its flags, from the first of the list up to the first that takes it |
| RxCallbacks.RegisteredAddsOne | src/src/kernel/rx.c:51-91 | A registration adds its callback, priority, cookie and flags to the list, and the others stay |
| RxCallbacks.UnregisteredDropsOne | src/src/kernel/rx.c:108-128 | Unregistering drops one place of the list, and the others stay in order |
| PacketEngine.CallbackTable.constructor | src/src/kernel/rx.c:238-248 | The empty table |
| PacketEngine.CallbackTable.FindPlace | src/src/kernel/rx.c:72-86 | The walk stops at the first callback of no lower priority value |
| PacketEngine.CallbackTable.Register | src/src/kernel/rx.c:51-91 | A free slot is filled and linked in, or the table is full |
| PacketEngine.CallbackTable.LinkIn | src/src/kernel/rx.c:66-89 | The links with the slot in its place |
| PacketEngine.CallbackTable.Unregister | src/src/kernel/rx.c:108-128 | The first slot with the callback is unlinked and freed, or there is none |
| PacketEngine.RxPath.constructor | src/src/kernel/rx.c:238-252 | The initial state |
| PacketEngine.RxPath.FillBuffer | src/src/board/brd_rxtx.c:109-140 | A driver descriptor is taken or made, and the wrapper posted |
| PacketEngine.RxPath.Refill | src/src/kernel/rx.c:131-143 | To the board while a callback is registered, else to the idle pool |
| PacketEngine.RxPath.FreePacket | src/src/kernel/rx.c:201-208 | A packet an application owned is refilled; null is ignored |
| PacketEngine.RxPath.AddSysBuffer | src/src/kernel/rx.c:211-235 | A new wrapper is refilled; an unusable buffer is ignored |
| PacketEngine.RxPath.DrainPool | src/src/kernel/rx.c:92-102 | The idle pool is posted, first wrapper first |
| PacketEngine.RxPath.Register | src/src/kernel/rx.c:38-105 | Status and new state of a registration |
| PacketEngine.RxPath.Unregister | src/src/kernel/rx.c:108-128 | Status and new state of an unregistration |
| PacketEngine.RxPath.Accept | src/src/board/brd_rxtx.c:46-80 | The first posted wrapper takes the packet, the driver descriptor goes back to its pool |
| PacketEngine.RxPath.CarryOut | src/src/kernel/tx.c:49-60 | What a callback does, call by call: a packet is freed, or a poll delivers another one through the same handler |
| PacketEngine.RxPath.Serve | src/src/kernel/rx.c:174-192 | One callback: what it frees and what arrives while it polls, then what its answer means |
| PacketEngine.RxPath.Handler | src/src/kernel/rx.c:146-198 | The delivery loop: new state, and exactly the callbacks called |
| PacketEngine.RxPath.Receive | src/src/board/brd_rxtx.c:36-83 | A packet from the switch through board and kernel, at top level and within callbacks of other packets |
| TxPackets.EveryRunSplits | src/src/board/brd_rxtx.c:143-252 | Over any run every transmit descriptor ever allocated is in the pool or with the switch, and in one of them only |
| TxPackets.MadeIsPeak | src/src/board/brd_rxtx.c:185-194 | The transmit descriptors ever allocated are exactly the most ever in use at once, failed sends counted |
| TxPackets.CalledBackOnce | src/src/board/brd_rxtx.c:143-165 | An accepted send is in flight or was called back exactly once, never both |
| TxPackets.CallbackIsLastGiven | src/src/board/brd_rxtx.c:153-164 | In any run a completion invokes the callback given with the latest send of its packet, refused sends included |
| TxPackets.RightCallback | src/src/board/brd_rxtx.c:153-164 | If no packet is sent again before its last send came back, every completion invokes the callback given with that send |
| TxPackets.ImpatientSendStealsCallback | src/src/board/brd_rxtx.c:243-249 | Otherwise the later send replaces the callback of the earlier one, even when the switch refuses it |
| TxPackets.SendMeans | src/src/board/brd_rxtx.c:169-253 | An accepted send puts up one flight of its packet, a refused or malformed one none |
| TxPackets.CompletionReportsItsSend | src/src/board/brd_rxtx.c:143-165 | In any run a completion reports the packet of the very send it completes, and the status the switch gave |
| TxPackets.LastBackIsUsedNext | src/src/board/brd_rxtx.c:143-165 | The descriptor that came back last is used next, and after a refused send the same one again |
| PacketEngine.TxPath.constructor | src/src/board/brd_rxtx.c:257-263 | The initial state |
| PacketEngine.TxPath.Send | src/src/board/brd_rxtx.c:169-253 | Status and new state of a send, refused sends included |
| PacketEngine.TxPath.Complete | src/src/board/brd_rxtx.c:143-165 | The descriptor is back in the pool and the callback, packet and status invoked are those of the packet |
| Timers.EveryRunKeepsTable | src/src/kernel/timer.c:90-155 | Over any run of additions, removals, callbacks and nested polls the timers form a gap-free prefix with distinct callbacks |
| Timers.ConsecutiveFirings | src/src/kernel/timer.c:52-66 | Two firings of a callback not added or removed between are its interval apart in true time, whatever the 32-bit clock does and however callbacks nest, in every run in which no call returns into a slot that still holds its callback after that callback was fired again at another tick |
| Timers.StaleReturnBreaksSpacing | src/src/kernel/timer.c:62-66 | From a stale return the timer can be fired too soon, after some passing of time, if and only if neither its interval since the last firing nor a whole wrap since the start that was put back has passed |
| Timers.FirstStaleReturn | src/src/kernel/timer.c:62-66 | In any run the spacing holds up to the first stale return, and the same condition says whether that return can break it |
| Timers.StaleReturnRun | src/src/kernel/timer.c:52-66 | A run from the empty table in which two firings come too close: the callback removes and adds itself, a nested poll fires it again, and the outer call returns last |
| Timers.NeverReenteredNeverStale | src/src/kernel/timer.c:58-66 | If no callback is entered while an earlier call of it runs, no return is stale |
| Timers.RemoveAndAddReenters | src/src/kernel/timer.c:91-131 | A callback that removes and adds itself can be entered again |
| Timers.TickDifference | src/src/kernel/timer.c:55-56 | The 32-bit difference of two tick counts is the true difference up to whole wraps |
| Timers.ReachedFiresWhenDue | src/src/kernel/timer.c:52-60 | An idle timer reached within 2^32 ticks of its start fires exactly when its interval has passed |
| Timers.WrapHidesDueTimer | src/src/kernel/timer.c:55-56 | After a whole wrap a due timer can be passed over |
| Timers.NoneLeftInProgress | src/src/kernel/timer.c:58-66 | Without nested polling, and if callbacks remove only their own or later slots, no timer is left in progress once no callback runs |
| Timers.ReturnStrandsExactly | src/src/kernel/timer.c:58-66 | When a callback that does not poll returns, a timer is left in progress exactly if it stands in another slot than it was started from |
| Timers.VisitStrandsExactly | src/src/kernel/timer.c:58-66 | By what the callback does: with no timer in progress before, its visit leaves one in progress exactly if it removes an earlier timer and never its own |
| Timers.PlayMovesOwn | src/src/kernel/timer.c:148-155 | While its callback does not remove it, the running timer stays in progress, and moves down exactly if an earlier timer is removed |
| Timers.PlayKeepsOnlyOwn | src/src/kernel/timer.c:58-66 | While a callback that does not poll runs, only its own timer is in progress |
| Timers.EarlierRemovalStrands | src/src/kernel/timer.c:62-66 | A callback that removes an earlier timer is left in progress after it returned |
| Timers.NextKeepsClock | src/src/kernel/timer.c:36-155 | A step keeps the firings spaced and idle timers counting from their last firing if and only if it is not such a stale return |
| Timers.WalkKeeps | src/src/kernel/timer.c:48-70 | A pass of the timer task keeps all that, and leaves none in progress if its callbacks are polite |
| Timers.AddKeepsTable | src/src/kernel/timer.c:91-131 | An addition keeps the prefix gap-free and distinct |
| Timers.RemoveKeepsTable | src/src/kernel/timer.c:134-156 | So does a removal |
| TimerPolls.PollTaskReachable | src/src/kernel/timer.c:36-72 | However deep callbacks poll, and whatever they add and remove, the timer task takes a machine some run leads to to another such machine, so every law over runs holds of it |
| TimerPolls.PollWalkIsWalk | src/src/kernel/timer.c:48-70 | With callbacks that do not poll, the timer task with nested polls is the walk without them |
| TimerPolls.NestedPollFiresTooSoon | src/src/kernel/timer.c:38-70 | The timer task itself, at most once per tick, fires a timer too soon: its callback removes and adds it, polls two ticks later, and the pass at the next tick fires it once more |
| TimerAdds.AddedFiresWhenDue | src/src/kernel/timer.c:91-131 | A callback that is added, known or new, and not in progress is called, whatever happens to other timers meanwhile, within 2^32 ticks exactly when the interval given last has passed since, and with the argument given last |
| TimerAdds.AddedHasSlot | src/src/kernel/timer.c:91-131 | Meanwhile it has exactly one slot |
| TimerAdds.AddMeans | src/src/kernel/timer.c:91-131 | After an accepted addition the callback has one timer with the interval and argument given last, counting from now; all other timers are as before |
| TimerAdds.AddRefused | src/src/kernel/timer.c:91-131 | An addition is refused exactly without a callback, or for a new one when every slot is taken, and then nothing changes |
| TimerAdds.RemoveMeans | src/src/kernel/timer.c:134-156 | After a removal the callback has no timer, and all others are as before |
| TimerAdds.IdlePassCallsReady | src/src/kernel/timer.c:48-70 | With callbacks that do nothing, a pass calls exactly the timers that were ready, each once, in the order of their slots, with their arguments |
| TimerAdds.TaskOncePerTick | src/src/kernel/timer.c:36-47 | The timer task makes such a pass at its first call in a tick and does nothing at a further one |
| TimerTable.TimerTask.constructor | src/src/kernel/timer.c:76-87 | The empty table |
| TimerTable.TimerTask.Add | src/src/kernel/timer.c:91-131 | Result and new table of an addition, an update or a refusal |
| TimerTable.TimerTask.MoveDown | src/src/kernel/timer.c:148-155 | The later slots move down one place |
| TimerTable.TimerTask.Remove | src/src/kernel/timer.c:134-156 | The table without the timer |
| TimerTable.TimerTask.Begin | src/src/kernel/timer.c:49-59 | The visit up to the call of the callback: exactly the idle timers that are due start |
| TimerTable.TimerTask.Finish | src/src/kernel/timer.c:62-66 | The rest of the visit, whatever happened to the table meanwhile |
| TimerTable.TimerTask.VisitSlot | src/src/kernel/timer.c:49-67 | The visit of one slot, whatever its callback does: guard, firing, the callback, and the stamp after it |
| TimerTable.TimerTask.Task | src/src/kernel/timer.c:36-72 | At most once per tick, every slot up to the first empty one is visited, at top level and in polls nested to any depth |
| PortBitmaps.PortsRangeAdd | src/include/soc/pbmp.h:331-343 | For any number of words the loop ends and adds exactly the ports of the range |
| PortBitmaps.OneWordAdded | src/include/soc/pbmp.h:336-339 | One round adds the part of the range that lies in the word |
| PortBitmaps.BmOp | src/include/soc/pbmp.h:277-282 | The word loop applies the operator word by word, also to a map and itself |
| PortBitmaps.MapOpIsSetOp | src/include/soc/pbmp.h:306-309 | And, or, exclusive or and remove act port by port and keep the padding clear |
| PortBitmaps.NamedOperators | src/include/soc/pbmp.h:306-309 | The four operators are intersection, union, symmetric difference and difference of sets of ports |
| PortBitmaps.BmEq | src/src/utils/ports/pbmp.c:29-41 | On clear padding the word comparison decides whether the maps hold the same ports |
| PortBitmaps.BmNull | src/src/utils/ports/pbmp.c:15-26 | On clear padding the word test decides whether the map holds no port |
| PortBitmaps.MemberIsMaskTest | src/include/soc/pbmp.h:318-319 | The mask test is the test of the port's bit |
| PortBitmaps.PortOpTouchesOneBit | src/include/utils/shr/shr_bitop.h:95-96 | Setting, clearing or flipping a bit touches that bit only |
| PortBitmaps.BitIter | src/include/utils/shr/shr_bitop.h:190-194 | Skipping zero words visits the same bits, in the same order, as testing every bit |
| PortBitmaps.SetBitsAscending | src/include/utils/shr/shr_bitop.h:190-194 | Those are exactly the set bits below the limit, each once and ascending |
| Words.WordOpBit | src/include/soc/pbmp.h:277-282 | A bitwise operator on a word is the operator on each bit |
| Words.RangeMaskBit | src/include/soc/pbmp.h:336-338 | The mask of a round covers the range's places in the word, truncated at its end |

## Left out

- VlanDatabase.VlanDb.TypeSet: the reset of the IGMP database that a type change triggers is not part of it, and the type hook of the switch succeeds, although the hook at src/src/driver/soc/bcm5607x/flvlan.c:264 refuses port-based VLANs on this chip.
- VlanDatabase.VlanDb.PvlanPortSet: only in port-based mode; the branch for the basic VLAN type is not modelled.
- VlanDatabase.VlanDb.GetIdByIndex: the 8-bit loop counter of src/src/board/brd_vlan.c:636 is a number without bound, because no list the database can hold has more than 128 VLANs.
- VlanSerializer.LoadVlans: only for images whose stored VLANs fit the fixed length, as every saved image does; short and corrupt images are not modelled. A build without port-based VLANs is not modelled.
- IgmpGroups.Expire: port lists are sets of valid ports instead of bytes, and the multicast table is a map from VLAN id and MAC address to ports, without its hardware indices and without the replacement of VLAN id 0xFFF by 1.
- IgmpLeaves.TickLeavesSurvivorsExactly: for group addresses whose top bit is set, as in every multicast address.
- IgmpEntries.TickKeepsL2Exactly: away from dynamic router ports, which the code keeps in an entry on purpose; so are the agreement laws of reports and of the ageing. IgmpRouters says what every step does to router ports.
- IgmpAgeing.AgeKeepsL2Exactly: for databases in which every group has its entry and a pioneer, as in every run without groups whose low 23 address bits are zero.
- IgmpReports.Rejoin: if no pioneer is found, the code reads the slot behind the table; that entry is not part of this model.
- IgmpSnooping.LeaveQueue.Insert: one port per message, which is how it is called; the flag that stays set over several ports is not modelled.
- IgmpSnooping.GroupTable.DatabaseInit: the debug counters and the choice of the default VLAN id are not part of it; the leave queue is started by the constructor of LeaveQueue.
- IgmpSnooping.LeaveQueue.Withdraw: one port per report, which is how it is called.
- The rest of IGMP snooping, that is learning and ageing of router ports, packet parsing and relaying, is not modelled.
- LineBuffer.Editor.KillLine: with a count to the right of the cursor it asks for a character under the cursor, because the code otherwise steps behind the terminator. Repeat counts are numbers without bound.
- LineBuffer.Editor.Exchange: the key that follows is an argument.
- Editor commands that change case, transpose characters, search the history, move by words or list completions, and all drawing, are not modelled.
- History.Buffer.Readline: only its effect on the history, for any moves the user makes.
- Completion.Complete: for candidates that start with the typed text; sorting and listing them is not modelled.
- PacketEngine.RxPath: descriptors are numbers with their links in a map, so that lists linked through the descriptors stay, but their other fields, the packet data and the buffers are not modelled. Refills succeed.
- PacketEngine.RxPath.CarryOut: callbacks free what applications own, not the packet they are called with, and register nothing; of the background tasks they poll only the arrival of packets is modelled.
- PacketEngine.RxPath.Register: the assertion that stops a debug build when the table is full is not modelled; the call returns.
- PacketEngine.TxPath.Send: of the descriptor only the cookie, and of the packet only the callback field.
- TimerTable.TimerTask.Run: of the background tasks a callback polls, only the timer task is modelled.
- Timers.ConsecutiveFirings: up to the first stale return; StaleReturnBreaksSpacing says exactly when that return lets the timer fire too soon.
- PortBitmaps.BitIter: the loop body leaves the array unchanged. The negating operator, which sets padding bits, the count, and bitmaps of fixed width are not modelled.
- The small serializers, the command line, the background task list, the cable test and everything below the board interface are not modelled.
