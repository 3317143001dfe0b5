# Danbyte agent: proofs about the SNMP table reader and the fast lane

A Dafny model of two stateful components of the repository, and proofs about them.

**The SNMP table reader** (`danbyte_checks/snmp_facts.py`). `_walk_columns` walks several table
columns in lockstep with GETBULK against an agent that may lie, repeat itself, answer short or
out of order, send errors, or stop answering. `_MacTableRead` builds the MAC address table of a
device on such walks: a Q-BRIDGE read, else a BRIDGE read, else one read per VLAN context with
two contexts in flight and an abort rule; then the learned-only filter, VLAN and port
attribution, folding of logical units and deduplication. Its promise is that only a read that
says `complete` may close the addresses it did not find. `list_oid_children` enumerates one level
of the OID tree by skipping whole subtrees.

**The fast lane** (`outpost/fast.py`). `FastRunner` starts sub-minute probes on their own
schedules, buffers their samples while a post is outstanding, puts them back when it fails, and
asks for a flush at once when reachability flips.

## How it is built

An OID is a sequence of numbers below 2^32, at most 128 long (section 3.5 of RFC 2578). The
agent and the clock are arbitrary functions of the moment (`Agent.World`), so a theorem without
further hypothesis holds against every agent. Where an honest agent is needed, `Agent.Answers`
binds it to one fixed MIB by the GETNEXT and GETBULK rules of sections 4.2.2 and 4.2.3 of
RFC 3416, with responses of any length, interleaved columns, errors and lost requests allowed.
Every legal MIB has such an agent (`ServingAgent.WorldOf`, `ChildrenProofs.AgentOf`).

| files | contents |
|---|---|
| `oids`, `agent`, `text`, `mac` | lexicographic order of OIDs and its finite universe; the agent; dotted text; MAC forms |
| `walk`, `walk_safety`, `walk_exact`, `walk_bounds`, `walk_run`, `walk_timeout`, `walk_complete` | the walk as a state machine of one request a step: safety, refinement of "the MIB restricted to each subtree", budgets and termination, whole runs, what a walk says of the way it ended, and what alone can keep it from being complete |
| `serving_agent` | an honest agent for every MIB, whose walks end complete in time |
| `walker` | `_walk_columns` with its loops and `_WalkBudget` as an object, equal to that machine |
| `children`, `children_proofs` | `list_oid_children` |
| `fdb`, `fdb_proofs`, `fdb_meaning`, `vlan_plan` | parsing, filter, attribution, folding, deduplication, planning, and their meaning in octets, numbers and cells |
| `contexts`, `contexts_proofs`, `contexts_runs`, `contexts_blame`, `contexts_ends`, `contexts_told`, `contexts_loop`, `contexts_skips`, `contexts_exact` | the per-VLAN readers as a state machine over all interleavings: what each run keeps, that its complaints have a cause, that it ends, where each VLAN is filed and why, the event loop, which VLANs it skips, exactness of each VLAN |
| `exactness`, `mac_facts`, `lateness`, `late_read` | what the MIB owes; what a lookup left out for lack of time costs, and that it can |
| `mac_options`, `mac_reads`, `mac_table` | a read's options, its data, and `_MacTableRead` as an object |
| `fast_lane`, `fast_lane_proofs`, `fast_lane_runs`, `fast_lane_results`, `fast_lane_schedule`, `fast_runner` | the fast lane as a transition system, its invariants over all runs, and `FastRunner` as objects |

Code that updates state in place is a method or a class here, proved equal to the state machine
or specification function its theorems are about.

## What was found

- `complete` is sound, but says nothing of VLANs that were skipped: contexts over the cap, and
  those whose task came to the gate after the deadline, are listed as skipped without a problem.
  `ContextsSkips.SilentSkip` is an instance; `ContextsSkips.SkippedExactly` says which VLANs they
  are, and `ContextsSkips.NothingSkippedIff` that none is skipped if and only if every task came in
  time.
- Nor does `complete` notice time running out between two walks: the lookup of VLAN names or of
  ifStackTable is then left out silently. The addresses are exact all the same; VLANs and ports are
  exact if and only if no lookup was left out that the MIB's rows depend on
  (`Lateness.QExactIff`, carried by `MacTable.MacTableRead.Run` as `Blurs`).
  `LateRead.LateReadLoses` shows that for every MIB whose rows do depend on one there is an honest
  agent and a read that loses by it, and `LateRead.UnitReadLoses` is an instance.
- `list_oid_children` does not look for endOfMibView. Where an answer at the end of the MIB
  repeats the probe's own name, as the protocol has it, the last child is listed again and again
  up to the limit (`ChildrenProofs.LastChildRepeats`; `ChildrenProofs.LastSubtreeRepeats` is an
  instance). And `base.child.4294967295` is not, as the documentation says, greater than anything
  within the child: an instance below that very OID brings the child again
  (`ChildrenProofs.DeepChildRepeats`). `ChildrenProofs.ListingExactIff` says exactly when the
  listing is right.
- An ifPhysAddress whose octets print as text and begin with the characters `0x` is not
  recognised as an address (`Mac.RawForm`), so such an own address is not filtered.

## Model

| member | source | states |
|---|---|---|
| `Oids.PastSubtree` | danbyte_checks/snmp_facts.py:1738-1742 | Subtrees are contiguous: what lies above an OID of a subtree without lying in it lies above the whole subtree, so jumping past `base.child.4294967295` steps over no sibling |
| `Text.OidKeyOfDotted` | danbyte_checks/snmp_facts.py:661-665 | Parsing a printed OID gives it back |
| `Text.StartsWithIsUnder` | danbyte_checks/snmp_facts.py:777 | `startswith(base + ".")` holds exactly when `base` is a proper component prefix |
| `Text.TextIsOid` | danbyte_checks/snmp_facts.py:775-791 | Subtree test, comparison key and row index agree between text and OIDs, and the sliced index text determines the OID |
| `WalkExact.TurnIsMod` | danbyte_checks/snmp_facts.py:771 | The column a binding is taken for is its position modulo the number of open columns |
| `WalkSafety.AttemptSafe` | danbyte_checks/snmp_facts.py:723-798 | Whatever comes back for one request: cells lie in their column's subtree at or below its cursor, rows are distinct, what is added was in that very reply, nothing stored changes, and `complete` holds exactly when no error and no cut is recorded |
| `WalkExact.AttemptFaithful` | danbyte_checks/snmp_facts.py:753-798 | One request to an honest agent, with any short or interleaved response, keeps every column equal to the MIB's up to its cursor and gives a column up only when the MIB has no more of it |
| `WalkRun.RunGrows` | danbyte_checks/snmp_facts.py:768-797 | Against any agent, a later table extends an earlier one, and what a column gains lies above everything it had: strictly increasing OIDs, each cell written once |
| `WalkRun.RunSent` | danbyte_checks/snmp_facts.py:768-797 | Against any agent, every cell was sent by it, under that name and with that text, in a reply of this walk |
| `WalkRun.RunRefines` | danbyte_checks/snmp_facts.py:688-799 | Against an honest agent, however the walk stops its columns are true initial segments, and when it calls itself complete the table is cell for cell the MIB restricted to the columns' subtrees |
| `WalkComplete.IncompleteHasCause` | danbyte_checks/snmp_facts.py:722-799 | A walk of an honest agent is incomplete only for a cause outside it: at some request time was up or the reply was one it cannot go on from, or the row allowance is less than the rows the MIB has |
| `ServingAgent.Finishes` | danbyte_checks/snmp_facts.py:722-799 | For every legal MIB there is an honest agent each of whose walks, while there is time and within the row allowance, ends complete |
| `WalkRun.RunSpends` | danbyte_checks/snmp_facts.py:653-658 | A walk moves the row allowance by exactly the rows it made, never below zero; `truncated` is set only ever on, by a cut, and the first reason stays |
| `WalkRun.CappedCells` | danbyte_checks/snmp_facts.py:790-797 | A row-capped walk accepts at most columns times rows left bindings |
| `WalkRun.CappedWalkEnds` | danbyte_checks/snmp_facts.py:722-798 | No agent keeps a row-capped walk of c columns going beyond c times rows left plus c plus floor(log2(max_rep)) rounds of at most retries + 1 requests |
| `WalkRun.WalkEnds` | danbyte_checks/snmp_facts.py:722-798 | Nor any other walk: cursors only move up in the finite universe of OIDs, noSuchName closes a column, tooBig halves `max_rep` |
| `WalkTimeout.TimeoutMeans` | danbyte_checks/snmp_facts.py:734-752 | A walk that its last request ended calls that a timeout if and only if that request, sent in time, timed out and so had all its retries, or, without a budget, the wait for its answer expired; and a timeout is neither complete nor a cut |
| `WalkTimeout.CutMeans` | danbyte_checks/snmp_facts.py:722-798 | A walk is called truncated if and only if time was up at its last request, or it met the row cap; the budget is then marked spent, for that reason unless it had one before, and by nothing else |
| `WalkTimeout.ErrorStatusMeans` | danbyte_checks/snmp_facts.py:753-764 | A response with an error status adds nothing: tooBig halves the rows asked for, noSuchName closes the one column it points to, and any other ends the walk as incomplete |
| `Walker.WalkBudget.constructor` | danbyte_checks/snmp_facts.py:645-651 | A fresh budget: deadline from now, all rows, not truncated |
| `Walker.WalkBudget.Stop` | danbyte_checks/snmp_facts.py:656-658 | Marks the budget spent and keeps the first reason |
| `Walker.ReadTable` | danbyte_checks/snmp_facts.py:768-797 | The loop over a response's bindings, with its skips and the cut in mid-response, computes the specification's scan |
| `Walker.Narrow` | danbyte_checks/snmp_facts.py:798 | The columns that stay open, in their order |
| `Walker.Send` | danbyte_checks/snmp_facts.py:723-752 | One request and its retries: what ended the walk, or the response to deal with, as the state machine has it, whose report of a timeout `WalkTimeout.TimeoutMeans` tells from the replies |
| `Walker.Heed` | danbyte_checks/snmp_facts.py:753-798 | Error statuses, the empty response and the table of bindings lead to the machine's next state |
| `Walker.WalkColumns` | danbyte_checks/snmp_facts.py:688-799 | The whole method ends whatever the agent does, with its last request sent from a walk still open, and returns and leaves in the budget what a run of the state machine ends with |
| `Children.ListOidChildren` | danbyte_checks/snmp_facts.py:1760-1798 | The loop computes the enumeration `Browse`: an error keeps the listing so far, an exception loses it |
| `ChildrenProofs.BrowseIsSegment` | danbyte_checks/snmp_facts.py:1760-1798 | Under an honest agent that may fail at any request, where the children probed past have nothing below their probes and the end of the MIB is out of reach or not echoed: what is listed has children strictly ascending, none passed over, each with its least instance; it is the first `limit` children, or it is not empty and an error came right behind its last one; and nothing is listed only after an error at once or an exception |
| `ChildrenProofs.ListingExactIff` | danbyte_checks/snmp_facts.py:1736-1740 | Against an agent that always answers, the listing is exact if and only if nothing lies below the probes it makes and it does not run into the end of the MIB |
| `ChildrenProofs.LastChildRepeats` | danbyte_checks/snmp_facts.py:1778-1795 | A subtree that ends the MIB with fewer children than the limit: all its children are listed, and then the last one again and again up to the limit |
| `ChildrenProofs.LastSubtreeRepeats` | danbyte_checks/snmp_facts.py:1778-1795 | An instance: one child, listed 64 times |
| `ChildrenProofs.DeepChildRepeats` | danbyte_checks/snmp_facts.py:1737-1739 | An instance below `base.child.4294967295`, for which the listing is not exact |
| `Mac.HexForm` | danbyte_checks/snmp_facts.py:241-248 | An address printed in hexadecimal comes out in the canonical form |
| `Mac.RawForm` | danbyte_checks/snmp_facts.py:232-241 | An address printed as raw octets comes out canonical exactly when it does not begin with the characters `0x` |
| `Mac.NormMacCanonical` | danbyte_checks/snmp_facts.py:971-984 | `_norm_mac` of any text is empty or the canonical form of six octets, and is idempotent |
| `Mac.AnyNotation` | danbyte_checks/snmp_facts.py:971-984 | Twelve digits in capitals or small letters, with spaces, colons, dots or dashes anywhere, come out as the canonical form of their octets |
| `Mac.OneAddressOneText` | danbyte_checks/snmp_facts.py:1049-1056 | The index form and the ifPhysAddress forms of addresses meet in one text exactly when the octets are equal |
| `Mac.DropReasonMeaning` | danbyte_checks/snmp_facts.py:1022-1033 | In terms of octets: group bit or all zeroes, else one of the own addresses, else a host |
| `Fdb.IfacesOf` | danbyte_checks/snmp_facts.py:990-1006 | The loop over interface rows computes their types, own addresses and PVIDs |
| `Fdb.OwnAddresses` | danbyte_checks/snmp_facts.py:1001-1003 | The own addresses are the normalised, non-zero ifPhysAddress values and nothing else |
| `Fdb.OwnFilterMeaning` | danbyte_checks/snmp_facts.py:1022-1033 | An entry is dropped as the device's own exactly when its octets are a non-zero, non-group address of one of its interfaces |
| `FdbMeaning.IfaceTypes` | danbyte_checks/snmp_facts.py:994-1000 | An interface is known exactly when a row has its index, and has the types its last row gives |
| `FdbMeaning.PortMeaning` | danbyte_checks/snmp_facts.py:1011-1014 | A port is an interface whose last row calls it ethernet or lag, or gives one of the eleven port types |
| `FdbMeaning.PvidMeaning` | danbyte_checks/snmp_facts.py:1004-1006 | The PVIDs are exactly the numbers between 1 and 4094 of rows with an index |
| `FdbMeaning.StatusMeaning` | danbyte_checks/snmp_facts.py:1036-1046 | A status cell is self, invalid, learned or mgmt exactly when it holds that number or that name in any case, empty exactly when it holds nothing, and other otherwise |
| `Fdb.ParseFdbTable` | danbyte_checks/snmp_facts.py:1059-1088 | The loop over the walked rows computes the entries |
| `FdbProofs.ParsedExactly` | danbyte_checks/snmp_facts.py:1059-1088 | Parsing loses no well-formed row and invents none |
| `FdbMeaning.ParseOne` | danbyte_checks/snmp_facts.py:1068-1087 | Rows are parsed one by one and in their order: one more row adds its entry at the end, or nothing |
| `Fdb.MapFdbVlans` | danbyte_checks/snmp_facts.py:1091-1114 | The dict-building loop and the three outcomes compute the attribution `VlanFor` |
| `FdbProofs.VlanNeverGuessed` | danbyte_checks/snmp_facts.py:1095-1101 | An FDB id gets a VLAN if and only if that VLAN, from 1 to 4094, is the only one with a row of dot1qVlanFdbId that has this id or, when no row there is usable, every FDB id is a VLAN the agent names |
| `FdbProofs.HowVlansMeaning` | danbyte_checks/snmp_facts.py:1107-1114 | The VLAN map is `fdb-id` exactly when some row of dot1qVlanFdbId is usable, `assumed` exactly when none is, there are FDB ids, and all are VLANs the agent names, and is never `context` |
| `Fdb.MapBridgePorts` | danbyte_checks/snmp_facts.py:1117-1134 | The loop over dot1dBasePortIfIndex and the three outcomes compute the port map |
| `FdbProofs.MapPortsMeaning` | danbyte_checks/snmp_facts.py:1119-1123 | A port maps through a usable base-port row whenever there is any such row, else to itself only if every port is an interface's |
| `FdbProofs.PortMapMeaning` | danbyte_checks/snmp_facts.py:1119-1134 | The port map is `base-port` exactly when some base-port row is usable, `assumed` exactly when none is, there are ports, and every port is a port interface; with `none` nothing is mapped |
| `Fdb.LearnedRows` | danbyte_checks/snmp_facts.py:1137-1182 | The two loops of the filter, with its tests in their order, compute rows, port map and drop counters of `Learned`, which `FdbMeaning.LearnedMeaning` and `FdbMeaning.FilterOne` characterise |
| `FdbMeaning.KeepMeaning` | danbyte_checks/snmp_facts.py:1151-1162 | An entry with the address of six octets passes the filter if and only if it is in the table, its status is neither self nor invalid, its first octet is even, some octet is not zero, the address is none of the own, and it has a bridge port other than zero |
| `FdbMeaning.VerdictMeaning` | danbyte_checks/snmp_facts.py:1152-1161 | Which of the four reasons takes a rejected entry, by status, octets, own addresses and port: self before group before own before port zero |
| `FdbMeaning.NoAddressVerdict` | danbyte_checks/snmp_facts.py:1028-1030 | An entry whose address does not normalise is dropped with the group addresses, unless its status drops it first |
| `FdbMeaning.FilterOne` | danbyte_checks/snmp_facts.py:1151-1162 | One more entry is kept, or raises exactly the one counter of its reason by one |
| `FdbMeaning.LearnedMeaning` | danbyte_checks/snmp_facts.py:1137-1182 | A row is learned if and only if it is that of an entry with a host's octets, not self or invalid, not the device's own, on a non-zero port that is attributed to the row's interface; address, VLAN, FDB id, port and status are the entry's |
| `FdbProofs.FilterConserves` | danbyte_checks/snmp_facts.py:1137-1182 | Entries equal kept rows plus the increase of the five drop counters, each entry under its own reason |
| `FdbProofs.LearnedExactly` | danbyte_checks/snmp_facts.py:1137-1182 | The rows are exactly the kept entries whose port maps; what is kept and what maps is said by `FdbMeaning.KeepMeaning` and `FdbProofs.MapPortsMeaning` |
| `Fdb.UnitPorts` | danbyte_checks/snmp_facts.py:1185-1205 | A unit folds exactly when it is a known interface, no port itself, and stacked on one port, and it folds onto that port |
| `FdbProofs.FoldMeaning` | danbyte_checks/snmp_facts.py:1190-1205 | A unit folds onto a port if and only if it is a known interface and no port, and that is the only port some active row of ifStackTable puts it above |
| `FdbProofs.FoldRowsMeaning` | danbyte_checks/snmp_facts.py:1419-1421 | A folded row is on the port its interface folds onto, if there is one, else where it was, and nothing else of it changes |
| `FdbProofs.FoldIdempotent` | danbyte_checks/snmp_facts.py:1199-1204 | Folding never chains: it maps non-ports to ports and is idempotent |
| `Fdb.Deduplicate` | danbyte_checks/snmp_facts.py:1556-1561 | The loop computes `FirstOnly` |
| `FdbProofs.FirstOnlyMeaning` | danbyte_checks/snmp_facts.py:1554-1561 | What is kept are, in their order, exactly the rows that show a key for the first time |
| `FdbProofs.FirstOnlyKeys` | danbyte_checks/snmp_facts.py:1554-1561 | The keys kept are distinct and the same set as before |
| `VlanPlan.PlanMeaning` | danbyte_checks/snmp_facts.py:1247-1254 | The plan splits the VLANs from 1 to 4094 without 1002 to 1005 in two ascending lists: what is read is no longer than the cap and below everything left over, and only a full list leaves anything over |
| `VlanPlan.VtpMeaning` | danbyte_checks/snmp_facts.py:1234-1244 | The VLANs of vtpVlanState are, ascending and each once, the last components between 1 and 4094 of rows whose state, stripped and in small letters, is 1 or operational |
| `ContextsProofs.TurnFair` | danbyte_checks/snmp_facts.py:1481-1500 | What one reader does between two awaits: rows and drops account for its entries, the allowance for its rows, budget and problems only move on, and an early end is filed or mentioned |
| `ContextsRuns.RunsGood` | danbyte_checks/snmp_facts.py:1502-1535 | Every interleaving keeps the invariants: concurrency, abort rule, one place per VLAN, row allowance, entries accounted for, rows on their VLAN, no early end unmentioned |
| `ContextsRuns.EveryMoment` | danbyte_checks/snmp_facts.py:1502-1535 | At every moment at most MAC_CONTEXT_CONCURRENCY contexts are in flight, the abort has tripped exactly when MAC_CONTEXT_ABORT_AFTER failures completed with no success between, `aborted` stays within ABORT_AFTER + CONCURRENCY - 1, and rows left plus rows made is constant |
| `ContextsRuns.NothingStarts` | danbyte_checks/snmp_facts.py:1514-1517 | Once the abort has tripped no context is started any more |
| `ContextsRuns.NeverStuck` | danbyte_checks/snmp_facts.py:1513-1535 | Until all tasks are through, one of them can go on |
| `ContextsRuns.FinishedRead` | danbyte_checks/snmp_facts.py:1535-1551 | When `gather` returns each planned VLAN is in exactly one of read, skipped and failed, entries are rows or drops, and no problem with the budget intact means every walk ended and no context failed |
| `ContextsTold.FiledByWalks` | danbyte_checks/snmp_facts.py:1481-1535 | In every run, from what its own two walks said of themselves: a VLAN is read if and only if its task got through the gate and both walks were complete, failed if and only if one ended early and was not cut by the budget, and skipped if and only if its task was turned away at the gate or the budget cut one of them |
| `ContextsTold.BlamedFailed` | danbyte_checks/snmp_facts.py:1535-1551 | The problems filed at the end blame exactly the VLANs that failed, each in one of them only |
| `ContextsTold.RunsAborting` | danbyte_checks/snmp_facts.py:1526-1532 | The contexts said to have ended the read are those that failed in a row when it was given up, and those in flight that failed after |
| `ContextsTold.HaltsBySilence` | danbyte_checks/snmp_facts.py:1414-1417 | The readers give the default context up exactly when the agent falls silent on ifStackTable, and none begins a walk of it from then on |
| `ContextsTold.LateRequestCuts` | danbyte_checks/snmp_facts.py:722-733 | A reader's request at or after the deadline is not made: its walk is cut as it stands and the budget is spent |
| `ContextsTold.StackReadIff` | danbyte_checks/snmp_facts.py:1410-1415 | A reader reads ifStackTable exactly when a row is on a known interface that is no port, nobody has read it, the default context is not given up, and time is left |
| `ContextsTold.PortMapsTold` | danbyte_checks/snmp_facts.py:1405-1409 | A context adds how its ports were mapped exactly when it has learned hosts |
| `ContextsTold.GatheredAscends` | danbyte_checks/snmp_facts.py:1551 | The rows come by ascending VLAN, each on its own |
| `ContextsBlame.FinishedBlame` | danbyte_checks/snmp_facts.py:1502-1551 | The converse: no problem is reported, no context counted failed and no budget marked spent unless some walk did end early |
| `ContextsEnds.RunsEnd` | danbyte_checks/snmp_facts.py:1481-1535 | No run of the readers is longer than the requests they can still send when it begins, whatever the agents answer |
| `ContextsLoop.RunContexts` | danbyte_checks/snmp_facts.py:1502-1535 | The event loop resumes readers in any order it likes until all are through, which it reaches; its run is one of the state machine's with the world's answers, each step at its own moment |
| `ContextsSkips.SkippedExactly` | danbyte_checks/snmp_facts.py:1514-1530 | A read without a problem and with its budget intact has skipped exactly the VLANs whose tasks came to the gate at or after the deadline, in that order |
| `ContextsSkips.NothingSkippedIff` | danbyte_checks/snmp_facts.py:1514-1530 | Such a read has skipped nothing if and only if every task came to the gate before the deadline |
| `ContextsSkips.NothingSkipped` | danbyte_checks/snmp_facts.py:1514-1530 | While no reading of the clock during the read shows the deadline, such a read has skipped no VLAN |
| `ContextsSkips.SilentSkip` | danbyte_checks/snmp_facts.py:1515-1517 | For any shared state without a problem and any VLAN there is a world in which the VLAN is skipped, nothing is reported and the budget is not marked spent |
| `ContextsSkips.RowsOfRead` | danbyte_checks/snmp_facts.py:1518-1551 | Such a read has rows of the VLANs it has read and of no other |
| `Exactness.ParsedFromMib` | danbyte_checks/snmp_facts.py:1059-1088 | Parsing an exactly walked table is reading the MIB's forwarding table |
| `Exactness.LearnedFromMib` | danbyte_checks/snmp_facts.py:1137-1182 | The learned rows are exactly the entries of the MIB whose octets are a host's and not the device's own, whose status is neither self nor invalid, and whose non-zero bridge port is attributed to the row's interface |
| `Exactness.KeysFromMib` | danbyte_checks/snmp_facts.py:1344-1422 | From exact walks through parsing, attribution, filter, folding and deduplication come exactly the keys the MIB owes: none lost, none invented |
| `Exactness.MacsExact` | danbyte_checks/snmp_facts.py:1137-1182 | Whatever the attribution of VLANs and units, the addresses are exactly those of the learnable entries on an interface |
| `ContextsExact.VlanReadExactly` | danbyte_checks/snmp_facts.py:1481-1551 | If the agent is honest for a VLAN and for the default context, a clean per-VLAN read that has read this VLAN has read exactly what its MIB owes, folded by the default context's ifStackTable, whatever the other agents do and in whatever order answers come; rows are left unfolded only if a reading of the clock during the read showed the deadline |
| `MacReads.UnfoldedVlanExactIff` | danbyte_checks/snmp_facts.py:1410-1421 | A VLAN left unfolded for lack of time is exact all the same if and only if none of its addresses is on a unit the default context's ifStackTable folds |
| `Lateness.QExactIff` | danbyte_checks/snmp_facts.py:1386-1422 | The keys of a Q-BRIDGE read with names or stack left out are exact if and only if what was left out does not matter: no learned address on a unit that folds; and not all FDB ids VLANs the agent names with the interfaces' own VLANs not enough for it |
| `Lateness.BridgeExactIff` | danbyte_checks/snmp_facts.py:1404-1422 | The keys of a BRIDGE table are exact in their ports if and only if the stack was not left out or nothing learned folds |
| `LateRead.LateReadLoses` | danbyte_checks/snmp_facts.py:1386-1422 | For every legal MIB whose rows depend on a lookup there is an honest agent and a clock for which the three walks of a Q-BRIDGE read end complete with the budget intact, no time is left for a lookup, and the rows are not exact |
| `LateRead.UnitReadLoses` | danbyte_checks/snmp_facts.py:1410-1421 | An instance: one host on a logical unit |
| `MacFacts.WalkReports` | danbyte_checks/snmp_facts.py:1316-1324 | What a walk says of itself and does to the budget, against any agent; a timeout if and only if the agent had fallen silent |
| `MacFacts.NamedMeaning` | danbyte_checks/snmp_facts.py:1391-1398 | Only where dot1qVlanFdbId has no row at all are VLANs named: the interfaces' PVIDs, and the numbers, not zero, that are a whole index of dot1qVlanStaticName |
| `MacOptions.OptionsOf` | danbyte_checks/snmp_facts.py:1257-1281 | Each option from the profile alone: contexts and quick by the stripped word in small letters, seconds 120 or what is asked for within 5 to 600, a quick read's at most 15, VLANs 128 or what is asked for within 1 to 1024, and the hint as given |
| `MacTable.MacTableRead.constructor` | danbyte_checks/snmp_facts.py:1290-1304 | The state a read begins in |
| `MacTable.MacTableRead.CanWalk` | danbyte_checks/snmp_facts.py:1310-1314 | Time is left at this reading of the clock and the agent still answers |
| `MacTable.MacTableRead.Note` | danbyte_checks/snmp_facts.py:1326-1333 | A problem, and a halt after a timeout, unless the budget cut the walk |
| `MacTable.MacTableRead.Ask` | danbyte_checks/snmp_facts.py:1316-1333 | A walk of the default context: true against an honest agent, exact if complete, and never incomplete without a problem or a spent budget; it halts the read if and only if the agent fell silent on it |
| `MacTable.MacTableRead.AskColumn` | danbyte_checks/snmp_facts.py:1345-1350 | The same for one column: what a complete walk brings is the MIB's column |
| `MacTable.MacTableRead.QbridgeVlans` | danbyte_checks/snmp_facts.py:1386-1402 | Entries get the VLANs of `VlanFor`; names count only if the VLAN-FDB walk completed empty, and are then the MIB's, or are left out for lack of time and remembered as such |
| `MacTable.MacTableRead.ReadStack` | danbyte_checks/snmp_facts.py:1410-1418 | The stack is read if a row sits on a logical unit and nobody has read it, and is the MIB's in a clean read, or is left out for lack of time and remembered as such |
| `MacTable.MacTableRead.Learn` | danbyte_checks/snmp_facts.py:1404-1422 | Rows, counters and port maps of the filter, folded; entries parsed are rows or drops |
| `MacTable.MacTableRead.ContextVlans` | danbyte_checks/snmp_facts.py:1424-1441 | The VLANs of entLogicalTable, else those whose vtpVlanState in the MIB is operational, by their own numbers and ascending, else the hint if contexts are always wanted, and whether the agent listed them |
| `MacTable.MacTableRead.ReadContexts` | danbyte_checks/snmp_facts.py:1502-1551 | Over any order of events: one place per VLAN, entries accounted for, the row allowance kept; if the read stays clean each VLAN read is exact and all rows are on VLANs read, and nothing is skipped in time |
| `MacTable.MacTableRead.Settle` | danbyte_checks/snmp_facts.py:1456-1467 | Source and VLAN map, VLAN 1 superseding the default context, and VLAN 1 given to rows without one |
| `MacTable.MacTableRead.PerVlan` | danbyte_checks/snmp_facts.py:1443-1468 | The default context's part plus the rows of the contexts, each on a planned VLAN; what is planned is the plan of the VLANs the MIB lists, and in time all of it up to the cap is read |
| `MacTable.MacTableRead.ReadTables` | danbyte_checks/snmp_facts.py:1345-1365 | The first three walks: stopping means the read is not clean, going on cleanly means base ports, VLAN users and forwarding table are the MIB's; after a silent agent or a cut on either of the first two nothing more is asked and the read does not go on |
| `MacTable.MacTableRead.ReadLookups` | danbyte_checks/snmp_facts.py:1345-1359 | The first two of them: one walk each, the second only if the first did not stop the read |
| `MacTable.MacTableRead.ReadQBridge` | danbyte_checks/snmp_facts.py:1366-1370 | From exact tables a clean read's rows have the addresses the MIB owes, and its VLANs and ports if and only if no lookup was left out that they depend on |
| `MacTable.MacTableRead.ReadQBranch` | danbyte_checks/snmp_facts.py:1366-1370 | Going that way the whole result is the Q-BRIDGE table's: no VLAN is planned or read in a context of its own, the account is kept, and silence of the agent is heeded |
| `MacTable.MacTableRead.ReadDefault` | danbyte_checks/snmp_facts.py:1374-1381 | The rows of the default context of a clean BRIDGE read are exactly those its MIB owes, folded unless the stack was left out |
| `MacTable.MacTableRead.ReadBridgeBranch` | danbyte_checks/snmp_facts.py:1374-1384 | Default context and per-VLAN read together, with the exactness of both |
| `MacTable.MacTableRead.ReadAll` | danbyte_checks/snmp_facts.py:1344-1384 | All branches of `_read`: what is kept of the account, and exactness of the default rows and of every VLAN read when the read is clean; BRIDGE rows only if the MIB has no Q-BRIDGE rows; after a walk of the default context on which the agent fell silent none follows, silence on either of the first two walks gives no rows, and contexts are planned only if none was cut or silent |
| `MacTable.MacTableRead.Finish` | danbyte_checks/snmp_facts.py:1553-1578 | First rows only, the budget's problem, and the meta data |
| `MacReads.PortMapOf` | danbyte_checks/snmp_facts.py:1572-1575 | The port map reported is `none` exactly when some table's was, or there were none to map and no base ports; `assumed` exactly when some table's was and none worse |
| `MacTable.MacTableRead.Run` | danbyte_checks/snmp_facts.py:1335-1342 | The whole read. Once the agent has fallen silent in the default context nothing more is asked there, and silence on either of the first two walks gives no rows. `complete` exactly when every walk issued ran to its end and no quick read left planned VLANs out, and then nothing failed and the budget held; rows left plus rows created is MAC_ROW_CAP; parsed entries equal rows before supersession and deduplication plus drops; each planned VLAN in one list; distinct keys and none lost; with VLAN map `context` every row on VLAN 1 or a planned VLAN; and against an honest agent the keys of a complete read are known exactly: the Q-BRIDGE table, or every VLAN read and beside them the default context, nothing of it if VLAN 1 was read, in VLANs and ports if and only if no lookup was left out that they depend on; while no reading of the clock showed the deadline no lookup was left out and the VLANs read are those the MIB lists, up to the cap |
| `MacReads.RestIsExact` | danbyte_checks/snmp_facts.py:1456-1468 | What a BRIDGE read reports beside the VLANs read in contexts of their own is the default context's: nothing if VLAN 1 was read, else its addresses, on VLAN 1 under the map `context`, and its ports if and only if the stack was not left out or nothing folds |
| `MacTable.FetchMacTable` | danbyte_checks/snmp_facts.py:1583-1625 | Nothing if and only if no request could be built; else a read of the standard tables with the profile's options and the same poll's interfaces, with distinct rows, whose keys, when complete, are exactly those the honest agent's MIBs owe, in every branch |
| `MacReads.ContextRows` | danbyte_checks/snmp_facts.py:1456-1468 | With VLAN map `context` no row is without a VLAN that is 1 or planned |
| `MacReads.RowsOwnExact` | danbyte_checks/snmp_facts.py:1456-1468 | The default context adds nothing to a VLAN that was read, so its keys stay exact in the result |
| `FastLaneResults.IntervalMeaning` | outpost/fast.py:32 | A check asked for every ms milliseconds has that interval if ms is at least 200, 200 if it is any other number but zero, and 1000 if it is zero or missing |
| `FastLaneRuns.StepHealthy` | outpost/fast.py:55-134 | Each tick, end of a probe, flush, failed flush and refresh keeps all invariants of the lane |
| `FastLaneRuns.RunsHealthy` | outpost/fast.py:55-134 | So does every run |
| `FastLaneResults.SamplesConserved` | outpost/fast.py:101-134 | For each check, delivered, in-flight and buffered samples are in this order and without a duplicate its completed probes without the discarded ones, over every run with posts failing and probes ending meanwhile |
| `FastLaneResults.TrimsWhatIsOver` | outpost/fast.py:129-133 | A failed flush discards something exactly when some check has more than 600 samples |
| `FastLaneResults.NothingIsLost` | outpost/fast.py:117-134 | When nothing was trimmed and no check with samples was removed, every completed probe is delivered, in flight or buffered |
| `FastLaneResults.OneProbeAtATime` | outpost/fast.py:78-83 | An entry never has two probes in flight, and is running exactly when it has one |
| `FastLaneResults.StartsApartBy` | outpost/fast.py:78-82 | Two starts of an entry are at least the interval in force at the earlier apart, over refreshes and slow answers |
| `FastLaneResults.StartsInWindow` | outpost/fast.py:75-83 | Any window of T ms holds at most T/200 + 1 starts of an entry |
| `FastLaneResults.TickStartsWhatIsDue` | outpost/fast.py:75-83 | A tick starts a probe of an entry exactly when it is its check's present entry, due, and without a probe in flight |
| `FastLaneResults.RefreshMeaning` | outpost/fast.py:55-73 | After a refresh there are entries for exactly the checks of the answer, each with the milliseconds asked for last; a check known before keeps its entry, due time and running probe, a new one is due at once and idle, and only a check that is gone loses its buffer |
| `FastLaneSchedule.StartsAskedApart` | outpost/fast.py:55-82 | After a refresh whose last word on a check asks for ms milliseconds, and until the next refresh, two starts of its entry are at least ms apart |
| `FastLaneSchedule.StartedAgain` | outpost/fast.py:75-83 | A tick starts an idle entry again exactly when the interval it had at its last start has passed since |
| `FastLaneSchedule.StartsAccounted` | outpost/fast.py:78-109 | Over every run each probe started has ended in one sample or is in flight |
| `FastLaneSchedule.FailedKeepsNewest` | outpost/fast.py:129-133 | A failed post puts its samples back in front of those that came since, and of more than 600 keeps the newest 600 |
| `FastLaneSchedule.SwapPosts` | outpost/fast.py:117-120 | A flush posts each buffer as it is, and posts nothing exactly when all are empty |
| `FastLaneResults.UrgentIffFlipped` | outpost/fast.py:111-119 | `flush_now` is set exactly when some entry's reachability flipped since the last swap of the buffer |
| `FastLaneResults.FlushHandsOver` | outpost/fast.py:117-120 | The next flush hands over every sample completed since the last swap and not discarded, and leaves nothing behind |
| `FastLaneResults.BufferBounded` | outpost/fast.py:129-133 | A buffer holds at most 600 samples plus those completed since the last failed flush |
| `FastRunner.Entry.constructor` | outpost/fast.py:30-35 | A new entry is due at once and idle |
| `FastRunner.Entry.Start` | outpost/fast.py:78-82 | A due and idle entry starts, its next turn an interval from this start |
| `FastRunner.Runner.Tick` | outpost/fast.py:75-83 | The loop over the entries is the system's tick, and starts exactly the due and idle ones |
| `FastRunner.Runner.ProbeEnd` | outpost/fast.py:101-115 | The end of a probe is the system's |
| `FastRunner.Runner.FlushBegin` | outpost/fast.py:117-122 | The swap of the buffer is the system's |
| `FastRunner.Runner.FlushFail` | outpost/fast.py:125-134 | The two loops that put samples back in front and trim are the system's failed flush |
| `FastRunner.Runner.FlushCheck` | outpost/fast.py:146-149 | The main loop flushes when it is urgent or due, and not otherwise |
| `FastRunner.Runner.RefreshCheck` | outpost/fast.py:150-155 | The main loop refreshes when it is due; the next turn is by the interval in force before, and a fetch that fails changes nothing else |
| `FastRunner.Runner.Refresh` | outpost/fast.py:55-73 | The server's intervals are taken over, a missing one or zero keeps the own; the two loops of `refresh` are the system's: entries added, kept with their schedule, or dropped with their buffers |

## Left out

- Children.ListOidChildren: an empty base text is not modelled, because no request can be made for it.
- ChildrenProofs.ListingExactIff: bases longer than 126 sub-identifiers are not covered, because their probes are longer than an OID can be.
- ChildrenProofs.LastSubtreeRepeats: `next_cmd` is taken to pass on the end-of-MIB binding as it is on the wire; how pysnmp treats it is not part of this model.
- Walker.WalkColumns: the clock readings before a request and for its time limit are one reading; sockets, authentication and `asyncio.wait_for` are replies of the world.
- MacTable.MacTableRead.ContextVlans: `parse_entity_vlans` is a parameter, because its regular expressions are not modelled.
- MacTable.MacTableRead.Run: exceptions caught at 1339-1341 are not modelled.
- MacTable.MacTableRead.Finish: `elapsed_ms` and the wording and length of `error` are not modelled.
- MacTable.MacTableRead.ReadContexts: a reader's look at the budget before a request and its dealing with the answer are one step, and readers may pass the semaphore in any order, which covers its first-come order; the object's fields are written back when all readers are through.
- MacTable.MacTableRead.constructor: the credentials of a context are not modelled.
- MacOptions.OptionsOf: numbers and the hint's list are taken as parsed; the split of a hint that is a text is not modelled.
- LateRead.LateReadLoses: the three walks and the rows made of their tables are those of `MacTable.MacTableRead.ReadTables` and `ReadQBridge`, composed as values and not by a call of these methods.
- Text.OidKeyOfDotted: Python's lenient `int` (signs, underscores, other digits) is not modelled, nor is Unicode.
- FastRunner.Runner.ProbeEnd: a probe's outcome is any status; its time, latency and detail are carried by the sample's serial number.
- FastRunner.Runner.Refresh: a malformed answer and the clock read anew for each new entry are not modelled.
- FastLaneResults.StartsInWindow: times are whole milliseconds; rounding of floating-point seconds is not modelled.
- `fetch_interfaces`, `fetch_topology`, `fetch_snmp`, `fetch_oid` and the synchronous wrappers: plumbing around the modelled parts.
- The protocol checkers, `netguard.py`, `sweep.py`, `reverse_dns.py`, `ssh_hostkey.py`, and the client, configuration and update code of the agent: small filters, network calls and process management.
