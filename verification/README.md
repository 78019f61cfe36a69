# FAUCET: a verified model of its switch interpreter, redundancy check, tunnels, warm restart and loaders

This Dafny project models the parts of the FAUCET SDN controller whose correctness is a matter of state,
order and arithmetic, and proves what the code promises about them. It covers six areas:

- **The OpenFlow 1.3 switch interpreter** (`clib/fakeoftable.py`). A flow table is edited in place by add,
  delete and modify messages, strict and non-strict. Packets go through several tables, VLAN tags are pushed
  and popped, and groups multiply packets. The methods of `FakeSwitch.FakeOFTable` are loops over mutable
  state; each is proved equal to a function in `EntryObjects`, `TableLookup` or `Pipeline`, and the lemmas
  state the meaning of those functions.
- **Redundant controllers** (`clib/valve_test_lib.py`). Two copies of a message list, one lagging behind the
  other, must leave every table with the same entries.
- **The network search** (`FakeOFNetwork.is_output`). A best-first search carries packets over stack links.
- **The include loader** (`faucet/config_parser_util.py`) and **the port allocator**
  (`clib/mininet_test_util.py`).
- **Table renumbering, tunnel IDs and tunnel rules** (`faucet/dp.py`, `faucet/acl.py`,
  `faucet/faucet_pipeline.py`).
- **The configuration diff** that decides what a warm restart touches (`faucet/dp.py`).

## How the model stands for the code

- A header value is the set of its one bits (`Packets.Word`, 128 bits), so `a & b` is `a * b`. A packet is a
  map from field to value; a match is a map from field to value and mask, with the value inside the mask as
  the constructor leaves it.
- A `FlowMod` object is its place in the list of all such objects made so far (`EntryObjects.Ref`), and the
  tables hold references in list order. So an entry that an add put into every table is one object, and a modify
  through one table shows in all of them. `FlowTables` says what becomes of table contents, objects apart;
  `ObjectRuns` says when that is what happens, and what holds in any case.
- A table's contents are a sequence of entries in list order. A raised `FakeOFTableException` is the status `Refused`;
  every other exception, which passes the error handling by, is `Crashed`. In the pipeline any exception is
  `Raised`.
- Names that are Dafny keywords carry an underscore (`match_`, `old_`, `new_`, `to_`, `now_`, `static_`).

| file | what it holds |
|---|---|
| `Packets`, `FlowEntries`, `FlowTables` | packets, flow mods and their predicates, table operations and runs |
| `CommandMeaning`, `GroupMeaning` | what each command does to a table, and group mods to the group table, entry by entry |
| `TableInvariant`, `TableLookup`, `InsertionOrder` | the invariant, sorting, lookup in one table, and orders of insertion |
| `EntryObjects`, `ObjectRuns` | tables that hold entry objects, and their runs |
| `Redundancy`, `ErrorFreeRedundancy`, `HalfwayAdds` | convergence of lagged copies on table contents, and an exception |
| `SharedEntries`, `RedundancyCheck` | convergence on entry objects, where sharing breaks it, and the check itself |
| `Pipeline`, `Evaluators`, `VlanStack`, `ExpectedOutputs` | the pipeline, its two evaluators, tags as a stack, what counts as output |
| `StepMeaning`, `PacketMeaning` | what actions and instructions do, field by field and port by port |
| `FakeSwitch`, `Reach`, `FakeNetwork`, `HopMeaning` | the mutable switch, reachability, the search, and what one hop is |
| `Include`, `IncludeMeaning`, `PortServer` | the include loader and what it leaves, the port allocator |
| `Renumbering`, `ForwardFlows` | table IDs, and flows that respect them |
| `TunnelIds`, `TunnelCounts`, `TunnelRules` | tunnel VLAN IDs, the counts behind them, tunnel rules |
| `ConfigDiff`, `DiffMeaning` | the configuration diff, and what it reports |

## Where the code does not do what is said of it

For each of these there is the exact condition under which the code meets the promise, mostly beside a lemma
with a concrete input on which it does not. For the four at the end the condition given is sufficient.

- `overlaps` says it reports whether any packet can match both entries. It amounts to equality of the shared
  fields' values, so 10.0.0.0/8 and 10.1.0.0/16 at one priority go unreported
  (`FlowEntries.NestedPrefixesAreNotReported`; exactly when: `FlowEntries.OverlapTestMeaning`).
- Then the order of insertion decides which entry a packet finds
  (`TableLookup.NestedPrefixesAreOrderDependent`). It is invisible exactly when no packet has two best matches
  (`InsertionOrder.InsertionInvisibleIff`; a test on the entries alone: `TableLookup.SeparatedIff`).
- A non-strict delete also selects entries wider than its filter (`FlowEntries.NarrowDeleteSelectsWiderEntry`;
  exactly when: `FlowEntries.NonStrictSelectionMeaning`).
- An add aimed at all tables that is refused half way leaves earlier tables changed and may leave them unsorted
  (`TableInvariant.RefusedAddLeavesDisorder`; exactly when: `TableInvariant.AddToAllSortedIff`).
- A third tag overwrites the innermost one (exactly when: `VlanStack.PushIsAStackPushIff`).
- `is_full_output` is documented to say whether some copy leaves with the wanted tag, or without one, but the
  first copy by the wanted port decides (`ExpectedOutputs.UntaggedCopyHidesTaggedOne`,
  `ExpectedOutputs.TaggedCopyHidesUntaggedOne`). It answers as documented exactly when no port or no tag is
  asked for (`ExpectedOutputs.AnswersAsDocumentedIff`).
- A file that optionally includes itself is recorded as skipped although it was loaded, so the configuration
  counts as changed for ever (`Include.OptionalSelfIncludeAlwaysChanged`; exactly when: `Include.UnchangedIff`).
- With static table IDs exactly the coprocessor and VLAN ACL tables share a number (`Renumbering.StaticIdsCollide`).
- Tunnel IDs may depend on the order of resolution (`TunnelIds.TwoTunnelsDependOnOrder`). They do not exactly
  when, along the sorted names, no ACL with tunnels has fewer of them than an earlier one
  (`TunnelIds.OrderIndependentIff`).
- Where encapsulation is maintained, exit instructions run on the tunnel's tag at a destination, but on the
  packet's own tags within one switch (`TunnelRules.MaintainedExitDiffers`). Among exit lists of pops and priority
  settings the two do the same exactly for those that pop nothing and finally set no priority but the tunnel's
  (`TunnelRules.MaintainedAlikeIff`).
- Editing an ACL is invisible to the diff exactly when no port or VLAN uses it on ingress
  (`ConfigDiff.AclEditNoticedIff`). A configuration differs from itself exactly when it has no port
  (`ConfigDiff.SelfDiffIsEmptyIff`). A warm restart that takes the last stack port away raises
  (`ConfigDiff.GetConfigChanges`).

Four conditions are sufficient only, because whether the promise fails beyond them is a matter of the
particular list, lag, tables or packet:

- An add to every table puts one object into all of them, so a modify of one table changes the others. A list that
  shares an object and modifies it need not converge (`SharedEntries.SharingListDiverges`,
  `SharedEntries.CheckFindsSharing`), nor one that modifies an object shared before
  (`SharedEntries.ModifyingListDiverges`). Convergence holds for lists without modifies, and for lists without adds to
  every table on switches whose tables share no object (`ObjectRuns.Unaliased`). Beyond that it
  depends on which tables hold the object when a modify reaches it.
- A list that lets the effect of a delete filtered by out-port hang on what a modify changes need not converge
  when replayed (`Redundancy.MixedRequestsDiverge`). It does converge when, key by key, no modify reaches it or
  the filters treat alike all instruction lists it may hold (`Redundancy.FiltersSteady`). A list beyond that
  diverges only for some initial tables and lags: a plain delete of the key later in the list, say, hides the
  difference.
- An error-free list with an add to every table need not converge, since the copy of that add may be refused
  before it reaches a table (`HalfwayAdds.AddToEveryTableDiverges`). It does without such adds, and with them where
  no matches clash and nothing is modified (`SharedEntries.ObjectListConverges`). Otherwise it depends on whether a
  clash is there when the copy comes.
- `lookup` does not see VLAN pushes and pops (`Evaluators.PushSeparatesEvaluators`), so it is tied to
  `get_output` where there are none (`Evaluators.LookupFollowsOutput`). Whether the two visit the same tables
  behind a push depends on whether the entries there look at tags; a push that a pop undoes leaves no trace.

## Model

| member | source | states |
|---|---|---|
| FlowEntries.OverlapTestMeaning | clib/fakeoftable.py:1014-1027 | A reported overlap is always a packet that both entries match at one priority; the exact condition under which a real overlap goes unreported; with equal masks on shared fields report and reality coincide. |
| FlowEntries.OverlapsIffEqualSharedValues | clib/fakeoftable.py:1014-1027 | The two-way masking is equality of the shared fields' values, and the relation is symmetric. |
| FlowEntries.NestedPrefixesAreNotReported | clib/fakeoftable.py:1014-1027 | Two nested prefixes at one priority share packets and are not reported. |
| FlowEntries.NonStrictSelectionMeaning | clib/fakeoftable.py:992-1012 | Without an out-port, every packet of an entry satisfies the request if and only if the entry is selected and the request's masks lie within the entry's. |
| FlowEntries.NarrowDeleteSelectsWiderEntry | clib/fakeoftable.py:1007-1012 | A request for a narrow prefix selects a wider entry that it does not cover. |
| TableInvariant.AddMeaning | clib/fakeoftable.py:323-350 | On a good table an add is refused exactly for a different overlapping entry, never for an existing match, and otherwise moves or appends the entry, leaving all others in place. |
| CommandMeaning.AddedMatches | clib/fakeoftable.py:965-983 | The entry an add leaves matches exactly the packets that have, bit for bit, the message's values under its masks. |
| CommandMeaning.SelectionMeaning | clib/fakeoftable.py:992-1012 | A message selects exactly the entries with all its fields, their values equal bit for bit under the message's masks, and, for a delete limited to a port, an output by that port. |
| CommandMeaning.StrictSelectionMeaning | clib/fakeoftable.py:985-1006 | Strictly it selects those with its priority, its fields and masks, and its masked values. |
| CommandMeaning.DeleteMeaning | clib/fakeoftable.py:352-355 | A delete takes exactly the entries it selects and keeps the others in order. |
| CommandMeaning.DeleteStrictMeaning | clib/fakeoftable.py:357-361 | A strict delete takes the first entry strictly selected, and only that. |
| CommandMeaning.ModifyMeaning | clib/fakeoftable.py:363-366 | A modify gives its instructions to exactly the entries it selects, in their places, nothing else of them changed. |
| CommandMeaning.ModifyStrictMeaning | clib/fakeoftable.py:368-372 | A strict modify does so to the first entry strictly selected only. |
| GroupMeaning.GroupModMeaning | clib/fakeoftable.py:275-301 | Every group after each group mod; exactly an add of a group that is there and a modify of one that is not are refused, and change nothing. |
| GroupMeaning.GroupsOfRun | clib/fakeoftable.py:427-462 | Through a run not cut short each group is what the group mods that name it make of it, whatever else is sent. |
| GroupMeaning.ReplacedGroup | clib/fakeoftable.py:275-301 | A group deleted, then added and named no more holds exactly the buckets of that add. |
| ObjectRuns.ObjectStepKeepsGood | clib/fakeoftable.py:303-394 | One message, accepted or not, objects shared or not, keeps all tables pairwise non-overlapping; after an accepted flow mod all are sorted; sorted tables stay so exactly when it keeps their order. |
| ObjectRuns.ObjectRunKeepsGood | clib/fakeoftable.py:427-462 | Every run of messages, refused ones included, keeps all tables pairwise non-overlapping. |
| ObjectRuns.ObjectRunFromEmpty | clib/fakeoftable.py:427-462 | From empty tables on, no two entries of a table ever overlap or share priority and match. |
| ObjectRuns.StepView | clib/fakeoftable.py:303-394 | Unless it modifies while tables share objects, a message does to the contents of the tables what it would do to entries by value. |
| ObjectRuns.RunView | clib/fakeoftable.py:427-462 | So does a run without modifies, or without adds to every table where no object is shared; then none ever is. |
| EntryObjects.ModifyThroughIs | clib/fakeoftable.py:363-366 | A modify changes exactly the selected objects of its table, in whichever tables they are. |
| EntryObjects.StepPlaced | clib/fakeoftable.py:385-394 | No table ever holds one object twice, and only an add to every table makes tables share one. |
| TableInvariant.SortProperties | clib/fakeoftable.py:892-894 | Sorting gives descending priorities, a permutation, and keeps the order within each priority. |
| TableInvariant.StableOrderIsUnique | clib/fakeoftable.py:892-894 | These properties determine the sorted table. |
| TableInvariant.StepSortedIff | clib/fakeoftable.py:385-394 | On good sorted tables a message leaves every table sorted exactly when it is no add to every table that some table refuses after an earlier one took it out of order; accepted messages always do. |
| TableInvariant.AddToAllSortedIff | clib/fakeoftable.py:385-394 | An add to every table, accepted or refused: all tables stay sorted exactly when, in the tables before the first refusal, every entry of another match has at least its priority. |
| ObjectRuns.ObjectRunSortedIff | clib/fakeoftable.py:427-462 | Every state of a run is sorted exactly when every message it gets to keeps the order. |
| TableInvariant.RefusedAddLeavesDisorder | clib/fakeoftable.py:385-394 | An add to every table refused by the second one leaves the first out of order. |
| TableLookup.LookupIsHighest | clib/fakeoftable.py:464-485 | On a sorted table lookup gives a matching entry of highest priority, and nothing only if nothing matches. |
| TableLookup.HighestCanBeFound | clib/fakeoftable.py:464-485 | Every best match of a packet is what lookup finds in some sorted table with the same entries. |
| InsertionOrder.InsertionInvisibleIff | clib/fakeoftable.py:427-485 | All orders of adding the same entries to an empty table answer all packets alike exactly when no packet has two best matches. |
| InsertionOrder.BuiltIsSorted | clib/fakeoftable.py:427-462 | Adding non-overlapping entries one by one, in any order, raises nothing and leaves them sorted, stably in that order. |
| InsertionOrder.TableIsBuilt | clib/fakeoftable.py:427-462 | A good sorted table is what the adds of its entries, in order, make of an empty one. |
| TableLookup.SeparatedIff | clib/fakeoftable.py:965-983 | No packet matches two entries of one priority exactly when any two of them differ on a bit both look at; equal masks on shared fields suffice in a good table, and either makes the best match unique. |
| TableLookup.LookupDependsOnEntriesOnly | clib/fakeoftable.py:464-485 | Two good sorted tables with the same entries, of which no packet has two best matches, answer every packet alike. |
| TableLookup.NestedPrefixesAreOrderDependent | clib/fakeoftable.py:464-485 | With different masks two orders of the same good table answer one packet differently. |
| Redundancy.LaggedKeepsListOrder | clib/valve_test_lib.py:774-782 | In the lagged interleaving, at every lag, the last occurrences come in list order. |
| SharedEntries.ConvergedObjectsLookUpAlike | clib/valve_test_lib.py:762-784 | Where no packet has two best matches, converged switches give every packet equal entries. |
| Redundancy.MixedRequestsDiverge | clib/fakeoftable.py:352-366 | A filtered delete followed by a modify: replaying this list empties the table. |
| ErrorFreeRedundancy.RefusedAddToAllEffect | clib/fakeoftable.py:385-394 | A refused add to every table takes effect in the tables before the first one where it is blocked, and in no other. |
| ErrorFreeRedundancy.AcceptedAddToAllEffect | clib/fakeoftable.py:385-394 | An accepted one takes effect in every table. |
| ErrorFreeRedundancy.NothingBlocksLater | clib/fakeoftable.py:342-350 | In a run over contents without errors nothing overlapping is added while a key stays to the end. |
| ErrorFreeRedundancy.LastAddIsAccepted | clib/valve_test_lib.py:762-784 | In the interleaving, with errors ignored, the last sending of an add whose key finally stays is never refused. |
| SharedEntries.ObjectScheduleActsAsList | clib/valve_test_lib.py:762-784 | Every schedule in which the last sendings come in list order leaves each table with the entries one application of the list does. The list has no two different clashing matches, or raises no error by itself and has no add to every table; filters do not hang on what modifies change; and it has no modify, or tables share no object and it shares none. |
| SharedEntries.ObjectListConverges | clib/valve_test_lib.py:762-784 | So does the list interleaved with itself at any lag; sent after the list it changes nothing. |
| SharedEntries.SharingListDiverges | clib/fakeoftable.py:363-394 | An error-free list from empty tables that adds to every table and modifies one does not converge at lag 2. |
| SharedEntries.CheckFindsSharing | clib/valve_test_lib.py:762-784 | Sent to the switch it left, the check reports a difference. |
| SharedEntries.ModifyingListDiverges | clib/fakeoftable.py:363-394 | An error-free list of modifies and a delete does not converge where an object was shared before. |
| SharedEntries.BothHoldAfterAdd | clib/fakeoftable.py:385-394 | Such a switch is what one add to both tables leaves. |
| HalfwayAdds.AddToEveryTableDiverges | clib/fakeoftable.py:385-394 | An error-free list with an add to every table that does not converge. |
| RedundancyCheck.BuildOffset | clib/valve_test_lib.py:774-782 | The index loop builds exactly the lagged interleaving of the list with itself. |
| RedundancyCheck.VerifyRedundantSafe | clib/valve_test_lib.py:762-784 | The check on a switch in any state, also one that was sent a reordered list: the state it leaves and what it compares; for a list that may be sent twice to this switch it finds no difference exactly when sending the list once more would change nothing. |
| RedundancyCheck.CheckPassesAfterList | clib/valve_test_lib.py:762-784 | On the switch as the list itself left it, the check never finds a difference. |
| Evaluators.LookupFollowsOutput | clib/fakeoftable.py:553-626 | Without VLAN pushes and pops, whenever get_output does not raise, lookup crosses the same tables, finds the same entries, collects their instructions in order and ends with the same packet. |
| Evaluators.PushSeparatesEvaluators | clib/fakeoftable.py:706-755 | Behind a push the two evaluators see different packets. |
| Evaluators.LookupGoesUp | clib/fakeoftable.py:706-755 | lookup visits strictly increasing tables, at most as many as there are. |
| Evaluators.OutputGoesUp | clib/fakeoftable.py:603-626 | So does get_output, whatever the entries hold. |
| Evaluators.PortOutputsFlatten | clib/fakeoftable.py:628-655 | get_port_outputs raises exactly when get_output does, and gives each port the duplicate-free concatenation, in table order, of what get_output records there. |
| StepMeaning.ActionMeaning | clib/fakeoftable.py:500-549 | One action on the packet's fields, the ports' packet lists and the actions left over: an output lists the whole packet of that moment, a set field sets that field only, a push and a pop move the tags, and each bucket of a group starts from that packet; exactly when it raises. |
| StepMeaning.StuckIff | clib/fakeoftable.py:487-551 | A list of actions raises exactly when, one after the other, they reach one that raises. |
| StepMeaning.TableMeaning | clib/fakeoftable.py:553-601 | A table's answer is what the found entry's instructions make of the packet one after the other, metadata bit for bit, outputs appended port by port; it raises when one does or when actions are left over with no table to go to. |
| StepMeaning.MissMeaning | clib/fakeoftable.py:569-601 | Where no entry matches nothing is put out, changed or visited next. |
| PacketMeaning.OutputSendsMetadata | clib/fakeoftable.py:589-595 | An entry that writes metadata and goes on sends the packet on with each masked metadata bit from the value written, each other bit as it was, and no other field changed. |
| PacketMeaning.LookupSendsMetadata | clib/fakeoftable.py:749-754 | lookup carries on at the next table with exactly such a packet. |
| PacketMeaning.RunSets | clib/fakeoftable.py:510-512 | Behind a list of actions every field but those of the tags holds the last value set, and what it held before where none is. |
| PacketMeaning.LookupMeaning | clib/fakeoftable.py:706-755 | The packet lookup ends with is what the instructions it returns make of the packet in their order, each field holding the last value set and metadata written bit for bit. |
| PacketMeaning.LookupTouchesOnly | clib/fakeoftable.py:736-754 | lookup changes no field that none of its instructions sets or, being the metadata, writes: pushes, pops, outputs and groups change nothing. |
| PacketMeaning.LastTableAnswersIff | clib/fakeoftable.py:596-600 | A last table that only applies actions, none a group, answers exactly when the last of them is an output and none raises. |
| VlanStack.RunRefines | clib/fakeoftable.py:497-551 | For action lists, groups included, whose depth stays within two tags, the dictionary updates carry out push, pop and set-top on a tag stack, and every output holds the stack of its moment. |
| VlanStack.BucketsRefine | clib/fakeoftable.py:535-549 | The same for the buckets of a group, each starting from the packet as it is. |
| VlanStack.PushIsAStackPushIff | clib/fakeoftable.py:513-522 | A push is a push exactly with fewer than two tags; a third overwrites the innermost. |
| VlanStack.PushPopRestoresIff | clib/fakeoftable.py:513-534 | Push then pop restores a packet exactly if it had a vlan_vid that was a tag or 0, no encapsulated tag and no vlan_pcp. |
| VlanStack.PushPopFrame | clib/fakeoftable.py:513-534 | Push then pop leaves every other field alone. |
| ExpectedOutputs.FullOutputMeaning | clib/fakeoftable.py:657-704 | The first copy that leaves by the wanted port decides; a yes always names a copy that leaves as wanted, and without a tag to look for the answer is whether one exists. |
| ExpectedOutputs.CarriesVidIs | clib/fakeoftable.py:695-703 | For a wanted tag the copy must have a vlan_vid equal to it; for a wanted vid without bit 12 it must have none, or one without bit 12. |
| ExpectedOutputs.CopiesArePutOut | clib/fakeoftable.py:675-680 | The copies are exactly the packets that some visited table puts out, each with its port. |
| ExpectedOutputs.EmissionsInOrder | clib/fakeoftable.py:678-680 | Within a table the copies are looked at port by port, packet by packet. |
| ExpectedOutputs.TablesInOrder | clib/fakeoftable.py:678-680 | And table by table. |
| ExpectedOutputs.AnswersAsDocumentedIff | clib/fakeoftable.py:657-704 | On every switch and packet the answer is the documented one exactly when no port or no tag is asked for. |
| ExpectedOutputs.UntaggedCopyHidesTaggedOne | clib/fakeoftable.py:691-703 | With an untagged copy sent ahead, a tagged copy that leaves is denied. |
| ExpectedOutputs.TaggedCopyHidesUntaggedOne | clib/fakeoftable.py:691-703 | With a tagged copy sent ahead, an untagged copy that leaves is denied. |
| FakeSwitch.RemovingFirstSelected | clib/fakeoftable.py:352-355 | Removing the first object that compares equal to the first selected one takes exactly that object from the selection and nothing else from the table. |
| FakeSwitch.FakeOFTable.Add | clib/fakeoftable.py:323-350 | The loop that edits the table while scanning it computes the add, or changes nothing when it raises. |
| FakeSwitch.FakeOFTable.Delete | clib/fakeoftable.py:352-355 | Two loops and removal by equality leave the order-preserving filter of unselected entries. |
| FakeSwitch.FakeOFTable.DeleteStrict | clib/fakeoftable.py:357-361 | Removes the first strictly matching entry only. |
| FakeSwitch.FakeOFTable.Modify | clib/fakeoftable.py:363-366 | Changes the instructions of every selected object, in whichever tables it is. |
| FakeSwitch.FakeOFTable.ModifyStrict | clib/fakeoftable.py:368-372 | Changes the instructions of the first strictly matching object only, in whichever tables it is. |
| FakeSwitch.FakeOFTable.ApplyFlowMod | clib/fakeoftable.py:382-394 | The object made, the objects changed and the tables, also the partly updated ones behind a refusal, and the outcome. |
| FakeSwitch.FakeOFTable.ApplyOfMsgs | clib/fakeoftable.py:427-462 | The whole message loop, with and without errors ignored, leaves the objects and tables of a run. |
| FakeSwitch.FakeOFTable.SingleTableLookup | clib/fakeoftable.py:464-485 | The scanning loop finds what lookup means. |
| FakeSwitch.FakeOFTable.ProcessInstruction | clib/fakeoftable.py:487-551 | The action loop, re-entered for buckets, computes outputs, final packet and pending actions. |
| FakeSwitch.FakeOFTable.GetTableOutput | clib/fakeoftable.py:553-601 | One table's outputs, packet and next table, with every case that raises. |
| FakeSwitch.FakeOFTable.GetOutput | clib/fakeoftable.py:603-626 | The outputs recorded table by table along the pipeline. |
| FakeSwitch.FakeOFTable.GetPortOutputs | clib/fakeoftable.py:628-655 | The merged outputs whose meaning PortOutputsFlatten gives. |
| FakeSwitch.FakeOFTable.IsFullOutput | clib/fakeoftable.py:657-704 | Three nested loops with early returns answer as the first verdict in table, port and packet order. |
| FakeSwitch.FakeOFTable.LookupPipeline | clib/fakeoftable.py:706-755 | The instructions and packet the second evaluator returns. |
| Reach.ReachableIsFinite | clib/fakeoftable.py:149-226 | The (switch, packet) states reachable from any start form a finite set, since fields and values come only from the start and the switches. |
| Reach.ClosedHoldsPath | clib/fakeoftable.py:171-226 | A set that holds the start and is closed under hops holds every reachable state. |
| Reach.ExploredFurther | clib/fakeoftable.py:188-217 | Expanding a waiting state keeps the search invariant: expanded states are distinct, accept nothing and lead to seen states only. |
| Reach.ExploredAll | clib/fakeoftable.py:171-180 | With nothing left waiting, no reachable state accepts. |
| FakeNetwork.DFS.Visit | clib/fakeoftable.py:54-63 | Exactly this state is added to those seen. |
| FakeNetwork.DFS.HasVisited | clib/fakeoftable.py:65-75 | Whether the state was seen. |
| FakeNetwork.DFS.Pop | clib/fakeoftable.py:99-108 | An item of least priority value leaves, and only it; which one of several is left open. |
| FakeNetwork.FakeOFNetwork.Traverse | clib/fakeoftable.py:190-217 | The traversal queues exactly the unseen states one hop away, the ingress port resolved, or raises. |
| FakeNetwork.FakeOFNetwork.IsOutput | clib/fakeoftable.py:149-226 | The search ends for every network; without an exception it says yes exactly when some reachable state at the destination is put out as wanted, in whatever order the heap pops. No state is expanded twice; expanded states are reachable and do not accept, and before a no they are all the reachable ones. |
| HopMeaning.EdgeIsHop | clib/fakeoftable.py:188-217 | A state is one hop away exactly when get_output does not raise, every OFPP_IN_PORT output has an ingress port to stand for, and some visited table records a packet at a port, or at OFPP_IN_PORT for the ingress port, that is stacked to a port of the other switch; it arrives with that port as in_port and no other field changed. |
| HopMeaning.HopSetsInPort | clib/fakeoftable.py:207-212 | Behind every hop the packet's in_port is the port at the far end of a stack link. |
| Reach.ExploredReachable | clib/fakeoftable.py:171-217 | With nothing left waiting, the expanded states are exactly the reachable ones. |
| Include.NestedCallShrinks | faucet/config_parser_util.py:157-166 | Twice the files not hashed yet, plus one for a file hashed already, decreases at every nested call although the loop check admits one self-include. |
| Include.DpInclude | faucet/config_parser_util.py:99-181 | The recursive loader computes the load and commits it at once; on failure hashes and sections are untouched. |
| Include.LoadIsAFold | faucet/config_parser_util.py:124-181 | On success the sections are the right-biased merge of the loaded files in depth-first order, failed optional includes contributing nothing. |
| IncludeMeaning.LoadServes | faucet/config_parser_util.py:113-173 | Every file a successful load read is readable, has known sections that are dictionaries and includes that are lists; its required includes were read, its optional ones read or recorded as skipped. |
| IncludeMeaning.SettingIsLastGiven | faucet/config_parser_util.py:133-145 | After a load each setting is that of the last file read that gives it. |
| IncludeMeaning.PlainFileLoadsIff | faucet/config_parser_util.py:124-181 | Without includes exactly the proper files load, each recording its own hash. |
| Include.LoadRecordsTrueHashes | faucet/config_parser_util.py:124-128 | Every recorded hash is that of an existing file. |
| Include.ConfigChanged | faucet/config_parser_util.py:184-211 | Says changed exactly for another top file, or a recorded file that is gone, differs, or was skipped and is there. |
| Include.UnchangedIff | faucet/config_parser_util.py:184-211 | After a load the unchanged file system counts as unchanged exactly when every skipped include is absent. |
| Include.ChangeIsNoticed | faucet/config_parser_util.py:198-211 | In any later file system a recorded file differs exactly when its hash does or it is gone; a skipped one, when it appears. |
| Include.RequiredSelfIncludeFails | faucet/config_parser_util.py:157-171 | A file requiring itself is not loadable. |
| Include.OptionalSelfIncludeAlwaysChanged | faucet/config_parser_util.py:157-173 | A file optionally including itself loads, is recorded as skipped, and so always counts as changed. |
| PortServer.Server.Serve | clib/mininet_test_util.py:189-258 | Over every request sequence, every state conserves the ports (queued ones distinct, held sets disjoint, together all ever obtained) and every answer and next state is the request's; no get finds the queue empty. The server starts exactly when enough ports are offered, stops answering only at a get whose refill is not offered, and answers everything if enough is. |
| PortServer.Server.Get | clib/mininet_test_util.py:243-252 | Past ports too young when the request came, the queue's front is granted; once ports have come back it has been idle longer than the minimum age when it leaves the queue; then the queue is refilled exactly if enough is offered. |
| PortServer.Server.AwaitOldEnough | clib/mininet_test_util.py:244-249 | The waiting loop ends, at most minimum age plus one rotations on, with an old enough port in front. |
| PortServer.RotateAt | clib/mininet_test_util.py:244-249 | Rotations bring every port forward and those in front to the end, in order. |
| PortServer.Server.Put | clib/mininet_test_util.py:233-242 | All ports of a name return to the end of the queue with fresh ages; only a return of ports ends the cold start. |
| PortServer.Server.List | clib/mininet_test_util.py:253-254 | Answers what a name holds, leaving an unknown name with an empty set. |
| PortServer.Server.ObtainPort | clib/mininet_test_util.py:196-211 | Takes the first offered port that is neither low, reserved nor known, and stamps it; finds none only if there is none. |
| PortServer.Server.QueueFreePorts | clib/mininet_test_util.py:213-217 | Tops the queue up to its least size behind what is there, exactly if enough different usable ports are offered, changing no known port's age. |
| PortServer.EnoughIsAnswered | clib/mininet_test_util.py:189-258 | If every get is offered enough usable ports not offered before, no request is left without an answer. |
| PortServer.GrantKeeps | clib/mininet_test_util.py:243-251 | Granting the queue's head conserves the ports. |
| PortServer.ReturnKeeps | clib/mininet_test_util.py:235-239 | Returning all ports of a name, in any order, conserves the ports. |
| Renumbering.OrderSurvives | faucet/dp.py:555-559 | Leaving tables out never changes which of two others comes first. |
| Renumbering.ConfigureTables | faucet/dp.py:534-658 | For every forward pipeline and included subset holding all miss targets, each remaining next table and miss target has a greater ID than its own table. Miss targets are the listed ones, none for ACL tables, and the egress ACL table for eth_dst when it is included; static IDs are the listed ones. |
| Renumbering.DynamicIdsAreDense | faucet/dp.py:561-571 | Dynamic IDs are 0, 1, 2, ... in pipeline order, without gaps or repeats. |
| Renumbering.FaucetPipelineIsForward | faucet/faucet_pipeline.py:82-227 | FAUCET's own pipeline has distinct names and later targets only, and any superset of the minimum tables holds all its miss targets. |
| Renumbering.FaucetStaticIdsRise | faucet/faucet_pipeline.py:102-206 | Its static IDs rise along every goto. |
| Renumbering.StaticIdsCollide | faucet/faucet_pipeline.py:121-133 | Exactly two tables, copro and vlan_acl, share a static ID. |
| ForwardFlows.RespectfulFlowsNeedNoCheck | clib/fakeoftable.py:573-601 | For flows whose gotos stay within their table's targets, whatever their actions and whatever the packet, the pipeline without the backward-goto check ends within the tables left and gives the same walk or exception as with it; each table is crossed at most once. |
| ForwardFlows.CompleteFlowsNeverRaise | clib/fakeoftable.py:553-626 | If no flow can raise for another reason either, every packet crosses the pipeline. |
| TunnelIds.CountsWhatIsContained | faucet/acl.py:549-563 | As long as no list became a tuple, the count is positive exactly when some rule contains a tunnel. |
| TunnelIds.GetNumTunnels | faucet/acl.py:549-563 | The loops count one per tunnel item of a list, one per plain dictionary, none in a tuple. |
| TunnelCounts.CountsTunnelItems | faucet/acl.py:549-563 | The count is the number of items, in all rules, that ask for a tunnel, those of tuples aside. |
| TunnelCounts.OffsetCountsTunnels | faucet/dp.py:1088-1096 | The offset of an ACL is the number of tunnels of the ACLs up to it. |
| TunnelIds.DoesRuleContainTunnel | faucet/acl.py:583-596 | Whether some output of the rule is a tunnel. |
| TunnelIds.Resolver.FirstUnusedVlanId | faucet/dp.py:947-952 | The search ends at the least free VID from its start on. |
| TunnelIds.Resolver.GetTunnelVlan | faucet/dp.py:1075-1098 | Reuses the VLAN of the same destination, otherwise makes a reserved one with the least free VID from the ACL's starting point on; every case that raises. |
| TunnelIds.Resolver.ResolveInOrder | faucet/dp.py:1063-1127 | Tunnels resolved in any order get the IDs the searches come out at, one after the other; with room above and never decreasing counts nothing raises. |
| TunnelIds.IdsAreDetermined | faucet/dp.py:1079-1096 | With room above and never decreasing counts an ACL takes, in every order, the consecutive IDs from the highest ordinary VID plus the tunnels of the sorted ACL names up to its own on. |
| TunnelIds.SingleTunnelsKeepPromise | faucet/dp.py:1079-1096 | With at most one tunnel in each ACL, each gets exactly that ID. |
| TunnelIds.OrderIndependentIff | faucet/dp.py:1079-1096 | All orders of resolving all tunnels give the same IDs exactly when no ACL with tunnels has fewer of them than an earlier one. |
| TunnelIds.SwitchesAgree | faucet/dp.py:1079-1096 | Two switches with the same tunnel counts and highest ordinary VID derive the same IDs, in whatever orders they resolve. |
| TunnelIds.IdsDiffer | faucet/dp.py:947-962 | No two tunnels get the same ID, and none that of an existing VLAN, whatever the counts. |
| TunnelIds.TwoTunnelsDependOnOrder | faucet/dp.py:1088-1096 | With two tunnels in one ACL and one in the next the IDs depend on the order; with two in each they do not. |
| TunnelRules.Acl.UpdateSourceTunnelRules | faucet/acl.py:682-761 | The rule list kept for the switch's role on the path; every other list is unchanged. |
| TunnelRules.Acl.UpdateReverseTunnelRules | faucet/acl.py:641-680 | The same for the way back; nothing changes unless the tunnel is bidirectional. |
| TunnelRules.SourceRuns | faucet/acl.py:693-708 | The source puts out one encapsulated copy and keeps the packet with the tag popped. |
| TunnelRules.EncapsulatedFields | faucet/acl.py:693-708 | The copy has the tunnel's ID with bit 12 as its tag, priority 3, or 4 on a reverse tunnel, the packet's own tag below, and no other field changed. |
| TunnelRules.DecapsulationRestoresIff | faucet/acl.py:703-718 | What stays at the source, and what the far end pops, is the original packet exactly if that had a vlan_vid that was a tag or 0, no encapsulated tag and no vlan_pcp. |
| TunnelRules.TransitsCarry | faucet/acl.py:755-757 | Any number of transit switches change nothing but the ingress port. |
| TunnelRules.TunnelIsTransparent | faucet/acl.py:682-761 | Over any path a tunnel does to a restorable packet what a tunnel within one switch does: exit instructions on the original, then out or onwards. |
| TunnelRules.TunnelDeliversTags | faucet/acl.py:682-761 | For every well-tagged packet with at most one tag the far end runs the exit instructions, and leaves by port or table, on a packet with the original's tag stack. |
| TunnelRules.MaintainedTunnelKeepsOneTag | faucet/acl.py:709-728 | With maintained encapsulation it does so on a packet with exactly one extra tag, the tunnel's. |
| TunnelRules.MaintainedWithinOneSwitch | faucet/acl.py:729-754 | Within one switch the exit instructions run before the packet is encapsulated. |
| TunnelRules.MaintainedAlikeIff | faucet/acl.py:709-754 | Among exit lists of pops and priority settings a maintained tunnel does the same within one switch as at a destination, for every packet and way out, exactly for those that pop nothing and finally set no priority but the tunnel's. |
| TunnelRules.MaintainedExitDiffers | faucet/acl.py:713-748 | With a pop as exit instruction the one takes off the packet's own tag, the other the tunnel's. |
| TunnelRules.LeaveRuns | faucet/acl.py:723-728 | Leaving puts the packet out by the port, or sends it on to the output table, as it is. |
| TunnelRules.ReversePathRemovesTag | faucet/acl.py:641-680 | A packet entering the way back with the tunnel's tag leaves, by port or table, without it. |
| ConfigDiff.GetConfChanges | faucet/dp.py:1400-1461 | The generic comparison sorts every identifier into deleted, added, changed, same and description-only. |
| ConfigDiff.GetVlanConfigChanges | faucet/dp.py:1477-1542 | Added, deleted and changed VLANs, and those where only ACLs changed. |
| ConfigDiff.GetPortConfigChanges | faucet/dp.py:1544-1705 | The sets grown and shrunk in place come out as the port changes the lemmas speak of; raises exactly when the new configuration alone has no stack. |
| ConfigDiff.GetMeterConfigChanges | faucet/dp.py:1707-1726 | Deleted, added and changed meters, and whether any changed. |
| ConfigDiff.GetConfigChanges | faucet/dp.py:1728-1822 | The whole diff, cold start included, and exactly when it raises. |
| DiffMeaning.ColdStartIff | faucet/dp.py:1750-1764 | A warm restart needs equal routers, equal own configuration and one stack root; a cold start names nothing. |
| DiffMeaning.AddedAndDeletedAre | faucet/dp.py:1400-1461 | Added and deleted ports and VLANs are exactly those of one configuration only. |
| DiffMeaning.AllPortsIff | faucet/dp.py:1589-1609 | All ports are reported exactly on a cold start, or when no port of both configurations is untouched, or every port of the new one is touched. |
| DiffMeaning.AllPortsReport | faucet/dp.py:1589-1609 | Then, in a warm restart, the ports named are the touched ones and the VLANs those whose own configuration differs. |
| DiffMeaning.PortReportedIff | faucet/dp.py:1589-1693 | Otherwise a port is reported as changed exactly when its own configuration, its stack's topology or its mirrors changed, or a VLAN it is on is new or changed, in itself or in its ACLs. |
| DiffMeaning.AclPortReportedIff | faucet/dp.py:1684-1687 | And as changed in its ACLs exactly when it is untouched and its ACLs, or their contents, differ. |
| DiffMeaning.AclVlanReportedIff | faucet/dp.py:1506-1513 | A VLAN is reported for its ACLs only exactly when these differ and its own configuration does not. |
| DiffMeaning.VlanReportedIff | faucet/dp.py:1639-1696 | A VLAN is reported as changed exactly when it is in both configurations and its own configuration differs, a redone port joins or leaves it or changes its stacking, or a port that comes or goes carries it. |
| DiffMeaning.MeterReports | faucet/dp.py:1707-1726 | Added and deleted meters are those of one configuration only, changed ones those whose own configuration differs. |
| ConfigDiff.UnreportedPortIsUntouched | faucet/dp.py:1544-1705 | When not all ports are reported, an existing unreported port has equal own configuration, mirrors and ACLs with their contents, and only VLANs that are unchanged with their ACLs. |
| ConfigDiff.MembershipChangesAreReported | faucet/dp.py:1649-1674 | A VLAN whose ports differ is reported as added, deleted or changed. |
| ConfigDiff.VlanReportsAreDisjoint | faucet/dp.py:1693-1696 | The three VLAN reports never overlap. |
| ConfigDiff.SelfDiffIsEmptyIff | faucet/dp.py:1607-1609 | A configuration compared with itself reports nothing exactly when it has a port. |
| ConfigDiff.AclEditNoticedIff | faucet/dp.py:1521-1542 | An edited ACL leaves the diff silent exactly when no port or VLAN of the switch uses it on ingress. |

## Left out

- Address text, conversion to `Bits`, pretty printing, cookies and hashing; tables are compared as sets of entries.
- FakeSwitch.FakeOFTable.ApplyFlowMod: has no capacity check. In the source that check raises after the entry was appended and before the sort, so it leaves a table over-full and possibly unsorted, which the lemmas on sorted tables do not cover.
- FakeSwitch.FakeOFTable.ProcessInstruction: a group that reaches itself never ends in the source, which then raises for exhausted recursion; the model raises at the re-entry.
- FakeSwitch.FakeOFTable.ApplyOfMsgs: has no table-features messages and flow-stats replies; the first feed the capacity check and the test that a table is defined, the second bypass the overlap check.
- `FakeOFTable.is_output`, a second cross-check of the pipeline, and JSON commands.
- The reordering of messages that the test harness applies before the first application of a list; the check's own contract holds for whatever state that left.
- FakeNetwork.FakeOFNetwork.IsOutput: heap ties are broken arbitrarily and the shortest-path length, which only steers the order, is an arbitrary function.
- Include.DpInclude: files are given parsed and includes as resolved paths; YAML parsing, undecodable files and `config_contents`, which is not part of the commit, are not modelled.
- PortServer.Server.Serve: the ports the system offers are finite lists; the source waits for ever when none is acceptable, the model answers nothing. The clock is any that never goes back.
- Renumbering.ConfigureTables: table sizes, match types, set fields and metadata of the configured tables; which tables a configuration includes is an input.
- TunnelIds.Resolver.ResolveInOrder: every tunnel goes to a destination new to its ACL; GetTunnelVlan covers a repeated one.
- TunnelIds.Resolver.GetTunnelVlan: tunnels with explicit VLAN IDs and the check of those against a destination's existing VLAN.
- TunnelRules.TunnelIsTransparent: the later removal of redundant tag rules, and the matches in front of the rules.
- ConfigDiff.GetConfigChanges: the merging of learned state into unchanged objects, native VLANs assigned by 802.1x, and logging.
- Interface ranges, stack root election, LACP, Prometheus, Gauge, BGP and 802.1x: I/O, regular expressions or bookkeeping.
