# A verified model of MRNet

MRNet is a tree-based overlay network. A front end, internal nodes and back ends form a tree;
packets flow down to the back ends, and replies are synchronized and reduced on the way up. This
project models the five parts of the library that carry its promises and proves those promises for
every tree, every interleaving and every input.

* **Topology, recovery and routing.** `Forest` is the topology as a value, with parent and child
  links kept separately, as the node objects keep them; nothing in it rules out a cycle by
  construction. `NetworkTopology` is the object that is updated in place and is proved against it.
  `Recovery` follows the events after a node fails, at every orphan and in any order, and `Overlaps`
  those after several nodes fail before anyone has recovered. `Proximity` covers the ascendant sets
  and the two measures adopters are chosen by. `Router` and `StreamPeers` are the two indexes computed
  from the tree, and `Delivery` composes them hop by hop.
* **Topology text.** `SerialGraph` prints and parses the bracketed text; `Trees` and `Growth` relate
  ordered trees to topologies, `Hanging` says what reading a text into a topology does and `Mixing` which
  links that leaves when the text names known and new ranks alike; together they carry the round trip. `ParsedGraphs` holds the validator that stands in front of them.
* **Synchronization and reduction.** `WaitForAll` is the default synchronization filter, `Waves` its
  conservation law over runs with failures, `Transposition` its law over a fixed set of children.
  `Reductions` and `EquivalenceClasses` are the built-in transformation filters and `Algebra` what makes
  them reductions; `EndToEnd` composes filters over a whole tree and `FrontEndResults` reads off what
  the tool receives. `TimeKeeping`, `TimedSync` and `TimedRuns` are the timer service, the time-out
  filter, and the two together.
* **Codec and framing.** `Wire` is the byte form, `Layout` says token by token where every byte of it stands,
  `PdrStream` is the handle that counts, encodes or decodes, `PacketCodec` the packet's buffers, `Messages`
  the batches on a connection. The interface resembles
  XDR but the form is not that of RFC 4506: numbers travel in the sender's byte order and nothing is
  padded.
* **Stream creation.** `StreamProtocol` is the request and acknowledgement wave as a state machine, and
  `StreamFailures` follows it when nodes fail.

Objects the source updates in place are classes whose methods are proved against functions on values;
the laws are lemmas about those functions. Methods the source guards with a lock are single steps.

Six claims one might expect are false of the code; each is kept as the code has it, with the exact
condition and a concrete input where the condition alone does not show one:

* moving a node below itself makes a cycle, and nothing in `set_Parent` checks for it
  (`Forest.MoveIntoOwnSubtreeCycles`); recovery from one failure never does so because the adopter
  search stays outside the failed subtree;
* when failures overlap, two orphans can adopt each other and leave a cycle (`Overlaps.TwoFailuresCycle`,
  with five nodes); no choice of adopters can do that exactly when, of any two failed nodes that leave a
  child able to adopt, one stood above the other (`Overlaps.OverlapSafeIff`);
* a port is not read back from a node without a host name (`SerialGraph.PortReadsBackIff`);
* clearing a timer can silently forget another one (`TimeKeeping.ClearSparesOthersIff`). The failing
  input, two timers of zero and one clearing (`TimeKeeping.ClearLosesAnExpiry`), needs direct calls of the
  timer service's public methods: the one caller of `register_Timeout` (src/FilterDefinitions.C:1857)
  has returned before it when the time-out is zero, and `clear_Timeout` has no caller;
* a message is not readable by a peer of the other byte order although every packet in it is
  (`Messages.ReadBackIffSameOrder`);
* a node can wait for good for a child that has given up, because a failure acknowledgement processed before
  the wait begins is dropped (src/ParentNode.C:309-316; `StreamFailures.EarlyFailureIsLost`, with three nodes);
  it gets past its wait exactly when it has seen a child fail itself or some child's failure was not dropped
  so (`StreamFailures.ParentPassesIff`).

## Model

| member | source | states |
|---|---|---|
| Forest.RunKeepsInv | src/NetworkTopology.C:301-595 | over every sequence of additions under a live parent, moves to a node outside the child's subtree and removals, parent and child links stay mutual inverses, no cycle appears, orphans are live and parentless, and every live node hangs from the root or an orphan |
| Forest.AddKeepsInv | src/NetworkTopology.C:301-317 | a new node under a live parent keeps the invariant |
| Forest.MoveKeepsInv | src/NetworkTopology.C:542-583 | re-parenting to a node outside the child's subtree keeps the invariant and the set of live ranks |
| Forest.MoveIntoOwnSubtreeCycles | src/NetworkTopology.C:542-583 | re-parenting to a node inside the child's subtree always makes a cycle, so the condition of `MoveKeepsInv` is exact |
| Forest.RemoveKeepsInv | src/NetworkTopology.C:480-540 | removal deletes exactly one rank, turns exactly its children into orphans and keeps the invariant |
| Forest.MoveMeans | src/NetworkTopology.C:542-583 | a move succeeds exactly between known ranks and then changes the link of the moved node and no other; the node is no orphan any more and its parent no back end |
| Forest.RemoveMeans | src/NetworkTopology.C:480-540 | a removal succeeds exactly for a known rank and then takes only that rank away: its children lose their parent and become the only new orphans, and everything else stays |
| Forest.AddMeans | src/NetworkTopology.C:301-317 | an addition adds one leaf with its name and flag below the parent, which is no back end any more, and changes nothing else |
| Forest.ClimbInjective | src/NetworkTopology.C:542-583 | in an acyclic topology a climb along parent links never meets a rank twice |
| Forest.Topmost | src/NetworkTopology.C:480-595 | every climb ends at the root or at a recorded orphan |
| NetworkTopology.Topology.SetParent | src/NetworkTopology.C:542-583 | the new state and result are those of the value model in every case, unknown ranks included, and only the moved node's ascendant set is refreshed |
| NetworkTopology.Topology.RemoveNode | src/NetworkTopology.C:480-540 | the new state and result are those of the value model: unlinked from its parent, erased, children orphaned |
| NetworkTopology.Topology.AddNode | src/NetworkTopology.C:301-317 | the new state is the old one with a linked leaf, and the leaf's ascendants are its parent's plus the parent |
| NetworkTopology.Topology.GetDescendants | src/NetworkTopology.C:1122-1137 | lists the ranks strictly below a node, in the order of some traversal of the subtree |
| NetworkTopology.Topology.FindSubTreeHeight | src/NetworkTopology.C:209-226 | returns the number of edges on the longest downward path |
| NetworkTopology.Topology.FindPotentialAdopters | src/NetworkTopology.C:982-1027 | lists the candidates of a walk that stops at the failed parent and at back ends |
| NetworkTopology.Topology.FindNewParent | src/NetworkTopology.C:881-980 | returns some rank that can adopt the orphan, and nothing only when no rank can |
| NetworkTopology.Topology.GetProximity | src/NetworkTopology.C:143-207 | as long as the first listed ascendant met lies above the orphan the loops end and the result is the sum of the two climbs, and it is the largest unsigned value when none is met; with exact ascendant sets it is the length of the tree path exactly when the adopter is outside the orphan's subtree |
| NetworkTopology.Topology.ClosestAscendant | src/NetworkTopology.C:143-180 | the climb stops at the nearest rank the orphan lists among its ascendants, stale or not, or reports that there is none |
| NetworkTopology.Topology.Serialize | src/NetworkTopology.C:779-805 | appends exactly the text of the subtree, its children in some order |
| NetworkTopology.Topology.GetTopologyString | src/NetworkTopology.C:719-735 | returns the text of what hangs from the root, whatever orphans there are beside it |
| NetworkTopology.Topology.AddSubGraph | src/NetworkTopology.C:388-455 | an unknown rank is refused; below a known one the new state is the value walk's. A text without repeated ranks that names neither the node nor anything above it, of known and new ranks alike, leaves exactly its own links, the old ones outside it, and no cycle; a text of new ranks adds exactly its tree, changes nothing else and keeps exact ascendant sets |
| Hanging.HangGrows | src/NetworkTopology.C:410-455 | a text whose ranks are all new and different hangs below the node as it is and keeps the invariant and exact ascendant sets |
| Hanging.HangKnownMoves | src/NetworkTopology.C:410-455 | a text that describes a subtree already there moves its root and changes nothing below it |
| Mixing.HangMeans | src/NetworkTopology.C:410-455 | for any such text of known and new ranks: the live ranks are the old ones and the text's, its root hangs below the node and every child in it below its parent in it, new ranks carry the text's name and flag, known ones keep theirs, and ranks outside it keep their parent; the invariant is kept |
| Mixing.HangRefreshes | src/NetworkTopology.C:410-455 | whoever got a new parent has that parent's ascendants and the parent; everyone else's ascendant set is as before, stale or not |
| NetworkTopology.Topology.Reset | src/NetworkTopology.C:1029-1090 | from any earlier state, an empty text leaves nothing and a text without repeated ranks leaves exactly the tree it describes, with exact ascendant sets |
| NetworkTopology.SendTopology | src/NetworkTopology.C:719-1090 | serialising one topology and resetting another from the text makes the second equal to the first, in ranks, names, ports, flags, parents and children |
| Growth.SameTopology | src/NetworkTopology.C:719-805 | two single-tree topologies that are the same ordered tree are equal |
| Growth.GrownFromRoot | src/NetworkTopology.C:1029-1090 | a lone root grown by a tree's children is exactly that tree |
| Growth.RepresentedPrintable | src/NetworkTopology.C:779-805 | the text of a topology with plain hosts and 31-bit ranks is one the parser reads correctly |
| Proximity.AddKeepsAscendants | src/NetworkTopology.C:410-455 | building a tree by additions keeps every ascendant set equal to the set of proper ancestors |
| Proximity.MeetingIsDistance | src/NetworkTopology.C:143-207 | the steps to the first common ancestor from both sides are the length of the shortest path, when the adopter is not below the orphan |
| Proximity.MeetingBelowOrphan | src/NetworkTopology.C:143-207 | when the adopter is below the orphan the computed value is the true distance plus two |
| Proximity.AlwaysMeet | src/NetworkTopology.C:143-207 | in one tree the search for a common ancestor always succeeds below the root |
| Hanging.AdoptedTree | src/NetworkTopology.C:542-583 | when neither node lies below the other, `set_Parent` makes the orphan's whole tree one more child of the adopter's and changes neither otherwise |
| Hanging.AdoptionDeepensTree | src/NetworkTopology.C:122-141 | the depth increase computed before an adoption is exactly what `set_Parent` then adds to the height of the adopter's tree |
| Proximity.AdoptionDeepensBy | src/NetworkTopology.C:122-141 | wherever among the children the orphan's tree is inserted, the height grows by the same amount |
| Trees.RanksAreSubtree | src/NetworkTopology.C:1122-1137 | a downward traversal meets exactly the ranks that climb to where it started |
| Trees.RanksOnce | src/NetworkTopology.C:1122-1137 | a downward traversal meets no rank twice |
| Trees.SubtreesAreBlocks | src/NetworkTopology.C:1122-1137 | a traversal meets everything below a rank right after the rank itself, before anything else |
| Trees.HeightIsGreatest | src/NetworkTopology.C:209-226 | the height computed is the greatest number of links from the node down to any rank below it |
| Recovery.SearchFindsAdopters | src/NetworkTopology.C:982-1027 | the candidate vector holds exactly the nodes reachable from the root through nodes other than the failed parent that are not back ends |
| Recovery.AdopterOutside | src/NetworkTopology.C:982-1027 | no candidate lies in the failed parent's subtree |
| Recovery.RootAlwaysAdopts | src/NetworkTopology.C:881-980 | the root is always a candidate when another node fails, so the search never comes back empty |
| Recovery.EveryReactionSafe | src/EventDetector.C:786-845 | after any number of orphans' reports and moves, in any order, the topology is acyclic and every orphan is where it chose to be |
| Recovery.RecoveryRestoresTree | src/EventDetector.C:786-845 | independent choices from lists computed on the old tree never form a cycle: the result is one tree over all remaining nodes exactly when every orphan has moved |
| Recovery.TreeIffNoOrphans | src/NetworkTopology.C:480-595 | under the invariant, a rooted topology is one tree exactly when its orphan set is empty |
| Overlaps.OverlapSafeIff | src/ChildNode.C:590-615 | for failures that overlap: no sequence of reports, whatever the orphans pick from their lists, leaves a cycle exactly when of any two failed nodes that leave a surviving child that is no back end one stood above the other |
| Overlaps.EveryReportSafe | src/ChildNode.C:590-615 | under that condition every sequence of reports keeps the invariant and leaves every orphan with the adopter it went to last |
| Overlaps.OverlapRestoresTree | src/EventDetector.C:786-845 | under that condition, once all failures are reported, the survivors are one tree exactly when every orphan has recovered |
| Overlaps.OneIsOnLine | src/EventDetector.C:786-845 | one failure alone always meets the condition |
| Overlaps.TwoFailuresCycle | src/ChildNode.C:590-615 | a tree of five nodes in which two siblings fail, their children adopt each other and a cycle is left |
| Overlaps.AnyNumberOfFailures | src/ChildNode.C:590-615 | any sequence of rounds of failures, one node or several on one line failing in each and each fully recovered from, leaves one tree over exactly the survivors |
| SerialGraph.Graph.AddLeaf | src/SerialGraph.C:12-20 | appends the complete text of a back end: bracket, host, port in at least five digits, rank, flag 0, bracket |
| SerialGraph.Graph.AddSubTreeRoot | src/SerialGraph.C:22-30 | appends an inner node's text up to its children: bracket, host, port in at least five digits, rank, flag 1 |
| SerialGraph.Graph.EndSubTree | src/SerialGraph.C:32-35 | closes the bracket |
| SerialGraph.PortIsDecimal | src/SerialGraph.C:12-30 | a port is printed in decimal, with leading zeros only up to five digits |
| SerialGraph.Graph.IsRootBackEnd | src/SerialGraph.C:37-51 | reads the flag after the third colon |
| SerialGraph.FieldsReadBack | src/SerialGraph.C:53-106 | host, port, rank and flag of any printed node with a plain host are read back unchanged |
| SerialGraph.PortReadsBackIff | src/SerialGraph.C:67-85 | with an empty host the accessor reads the rank, capped at 16 bits, as the port; the port is right exactly when the host is not empty or the two happen to agree |
| SerialGraph.PrintCloses | src/SerialGraph.C:12-35 | every printed tree is one bracket group that closes at its last character |
| SerialGraph.Graph.GetNextChild | src/SerialGraph.C:205-235 | returns the bracket group at the cursor and moves past it, or nothing and stays |
| SerialGraph.NextGroup | src/SerialGraph.C:173-235 | after the i-th child the cursor stands exactly at the next child's text, and after the last no group is left |
| SerialGraph.FirstGroup | src/SerialGraph.C:173-176 | the first bracket after the root's own is the first child's, or there is none |
| SerialGraph.BracketsOpenSubtrees | src/SerialGraph.C:109-171 | every opening bracket in a printed tree starts the text of one of its subtrees |
| SerialGraph.SubtreesStand | src/SerialGraph.C:109-171 | every subtree's text stands somewhere in the printed tree |
| SerialGraph.Graph.GetMySubTree | src/SerialGraph.C:109-171 | returns exactly the text of a subtree with the given host prefix and rank, the only one of that rank when no rank repeats, and nothing only when there is none |
| SerialGraph.RankNamesOne | src/SerialGraph.C:109-171 | where no rank repeats, two subtrees with the same rank are the same subtree |
| Router.RouterTable.UpdateTable | src/Router.C:17-73 | afterwards the entry for r is child c exactly when c is a local child with a connection and r is in c's subtree |
| Router.RouterTable.GetOutletNode | src/Router.C:75-89 | a lookup: absent ranks have no outlet |
| StreamPeers.Network.RecomputeChildrenNodes | src/Stream.C:888-912 | an open stream's peers become the outlets of its end points; a closed one is left alone |
| StreamPeers.Network.RemoveNode | src/Network.C:2244-2268 | the node leaves the topology. With update, every open stream's peers are the outlets of its end points and the table is that of the new tree. Without it, every stream still open loses exactly the failed rank from its peers, one the failure closes has none left, and one closed before is unchanged |
| StreamPeers.OutletsAreChildrenTowards | src/Stream.C:888-912 | the outlets of a set of end points are the connected children with an end point at or below them |
| Delivery.ArrivesExactlyOnce | src/Network.C:1145-1177 | a packet sent down a stream arrives exactly once at the root and at every node with an end point at or below it, and nowhere else, whatever the order of hops |
| Delivery.EndPointsExactlyOnce | src/Stream.C:371-389 | a leaf gets the packet exactly once if it is an end point and never otherwise |
| Delivery.RunsEnd | src/InternalNode.C:68-122 | a packet makes at most one hop per live node |
| Delivery.UnicastReachesItsRank | src/InternalNode.C:91-106 | a packet on a back-end stream is at its rank after depth-many hops, not before, and goes no further |
| Delivery.UnknownRankIsDropped | src/Router.C:75-89 | a packet for a rank that is not in the tree leaves the root for nowhere |
| ParsedGraphs.ParsedGraph.PreorderTraversal | src/ParsedGraph.C:121-147 | ends on any graph, counts the nodes it newly visits, and finds no node twice exactly when the part below the start unfolds to a tree of unvisited nodes |
| ParsedGraphs.ParsedGraph.Validate | src/ParsedGraph.C:108-119 | on a fresh graph the answer is true exactly when the child edges form a tree rooted at the root that spans all nodes; with the root already visited it is false |
| ParsedGraphs.ParsedGraph.Serialize | src/ParsedGraph.C:193-215 | on a subgraph that is a tree the recursion ends and appends that tree's text |
| ParsedGraphs.ParsedGraph.GetSerializedGraphString | src/ParsedGraph.C:179-184 | a graph without cycles prints as the tree it unfolds to, which for a validated graph is its spanning tree |
| WaitForAll.Filter.Push | src/FilterDefinitions.C:1571-1708 | one call is discard, bypass or place, and pop on a complete wave, in that order, with the state and outputs of the value model; a single packet of the node's own comes out as it is and leaves living ranks' queues alone, and a call for an unknown stream changes and sends nothing |
| WaitForAll.Filter.DiscardFailed | src/FilterDefinitions.C:1599-1626 | exactly the slots of nodes not alive go, and their readiness |
| WaitForAll.Filter.PopHeads | src/FilterDefinitions.C:1681-1705 | one packet leaves every non-empty slot, in rank order, and emptied slots stop being ready |
| Waves.StepMeans | src/FilterDefinitions.C:1599-1705 | in any other call a living rank holds what it had queued and what it sends, a failed one nothing; when at least as many ranks hold something as the stream has children, the first packet of each goes out, in rank order, and nothing does otherwise |
| Waves.ReadyIsExact | src/FilterDefinitions.C:1599-1705 | over every run the ready set is exactly the ranks with queued packets, each under its own rank |
| Waves.StepQueue | src/FilterDefinitions.C:1599-1705 | in one call what a child had queued and what it adds is what is dropped, released and left, in order |
| Waves.Conservation | src/FilterDefinitions.C:1599-1705 | over every run with failures each packet accepted is exactly one of released, dropped with its failed child, or queued, in per-child order, and what the calls put out is exactly the released packets and the node's own that went straight through |
| Waves.NothingLost | src/FilterDefinitions.C:1599-1705 | a child that never fails loses nothing |
| Waves.FailedChildIsSilent | src/FilterDefinitions.C:1606-1621 | nothing of a failed child is sent on |
| Transposition.Transposes | src/FilterDefinitions.C:1632-1705 | with one packet a call from fixed children, wave i is the i-th packet of each child in rank order, the number of waves is the least per-child count, and the rest is queued |
| Transposition.InterleavingIsIrrelevant | src/Stream.C:557-575 | the waves do not depend on how the children's packets interleave |
| Reductions.WrapSum | src/FilterDefinitions.C:1925-1964 | wrapping a partial sum early does not change the wrapped total, for all eight integer types |
| Reductions.TypeRanges | src/FilterDefinitions.C:1925-1964 | the literal range of each of the eight integer types |
| Reductions.WrapMeans | src/FilterDefinitions.C:1925-1964 | a total inside the type's literal range is returned unchanged; in every case the result lies in that range and differs from the total by a multiple of the literal power of two |
| Reductions.Sum | src/FilterDefinitions.C:90-225 | one packet from an unknown rank with the first input's stream and tag and the sum as the type holds it; none for an unknown type |
| Reductions.Min | src/FilterDefinitions.C:364-500 | one packet with the least of the inputs; none for an unknown type |
| Reductions.Max | src/FilterDefinitions.C:227-362 | one packet with the greatest of the inputs; none for an unknown type |
| Reductions.SumIsLawful | src/FilterDefinitions.C:90-225 | the sum filter is a fold of a commutative associative operation |
| Reductions.ExtremeIsUnique | src/FilterDefinitions.C:2042-2136 | the minimum and maximum returned by the filters are the values the reductions combine to |
| Reductions.ExtremeIsLawful | src/FilterDefinitions.C:2042-2136 | the minimum and maximum filters are folds of commutative associative operations |
| EquivalenceClasses.IntEqClass | src/FilterDefinitions.C:812-883 | the three output arrays are those of the gathered classes, in value order |
| EquivalenceClasses.ClassesAreLawful | src/FilterDefinitions.C:812-883 | the filter is a reduction on the multiset of all (value, member) pairs: the output lists exactly what the inputs list, under every value at once and with multiplicity |
| EquivalenceClasses.OneClassPerValue | src/FilterDefinitions.C:856-883 | the output lists each value once in ascending order, with at least one member, and the counts add up to the members |
| EquivalenceClasses.ClassesKeepOrder | src/FilterDefinitions.C:812-883 | under every value the members stand in the order of the packets and, within one packet, in its own order |
| EndToEnd.RunSound | src/InternalNode.C:124-175 | in every run each relay's filter sees its children's results, in order and without gaps |
| EndToEnd.ResultIsFlatFold | src/Stream.C:543-664 | for any tree and any interleaving, the k-th result of a node is the flat fold of the k-th packets of all end points below it, all of which have sent that far; an end point's own packets pass through its filter too, one bypassing call each |
| EndToEnd.NothingHeldBack | src/Stream.C:543-664 | once the links are drained a node has exactly as many results as its slowest end point has sent packets |
| FrontEndResults.SumAtFrontEnd | src/FilterDefinitions.C:90-225 | the tool's k-th sum is the total over all back ends when the type holds it, and otherwise the number in the type's literal range that differs from it by a multiple of the type's power of two |
| FrontEndResults.ExtremeAtFrontEnd | src/FilterDefinitions.C:227-500 | the tool's k-th minimum or maximum is that over all back ends |
| FrontEndResults.ClassesAtFrontEnd | src/FilterDefinitions.C:812-883 | in one run the tool's k-th classes list each value once, in ascending order, and hold under every value exactly what all back ends listed under it |
| TimeKeeping.TimeKeeper.NotifyElapsed | src/TimeKeeper.C:26-60 | exactly the timers that have run out are removed and reported, the others are reduced, and the stored minimum is the least of the default and what is left |
| TimeKeeping.TimeKeeper.GetTimeout | src/TimeKeeper.C:15-18 | the wait returned is the least of the default and all running timers |
| TimeKeeping.TimeKeeper.RegisterTimeout | src/TimeKeeper.C:63-85 | a stream without a timer gets one and the minimum stays exact; one with a timer keeps it and is told so |
| TimeKeeping.TimeKeeper.ClearTimeout | src/TimeKeeper.C:87-111 | the timer goes and the minimum stays exact, by a recomputation with no time elapsed when needed |
| TimeKeeping.ClearSparesOthersIff | src/TimeKeeper.C:87-111 | clearing leaves all other timers alone exactly unless it recomputes while another stands at zero |
| TimeKeeping.PositiveTimersStayPositive | src/TimeKeeper.C:26-111 | when only positive timeouts are registered no timer ever stands at zero, so clearing expires no stream |
| TimedSync.TimeOutFilter.Push | src/FilterDefinitions.C:1716-1918 | one call passes everything through without a time-out, flushes everything on an empty call, and otherwise places, arms the timer if there is a timer service, and pops a complete wave, with the state of the value model; on the topology-update stream every sender counts as a peer. Without a time-out, and for a single packet of the node's own, the output is the input and timer and living ranks' queues are left alone |
| TimedSync.TimeOutFilter.Flush | src/FilterDefinitions.C:1880-1905 | every queued packet leaves, slot by slot in rank order |
| TimedSync.ArrivalMeans | src/FilterDefinitions.C:1789-1918 | in any other call with packets a rank that has not failed holds what it had queued and what it sends; when at least as many ranks hold something as the stream has children, each one's first packet goes out, in rank order, and the timer counts as stopped; otherwise nothing goes and the timer is registered unless one is thought to be running |
| TimedSync.ExpiryMeans | src/FilterDefinitions.C:1870-1905 | a call without packets sends everything of every rank that has not failed, ranks in ascending order and each in its own, and leaves nothing behind |
| TimedRuns.TimedConservation | src/FilterDefinitions.C:1756-1915 | over any run of arrivals, failures, ticks and expiries each packet taken in is released, dropped with its failed sender, or queued, once and in per-child order |
| TimedRuns.AlwaysWatched | src/EventDetector.C:277-334 | whatever is buffered is under a running timer no longer than the time-out, or an expiry is on its way |
| TimedRuns.NoPacketWaitsLonger | src/EventDetector.C:277-334 | by the time the clock has advanced by the time-out and no expiry is left to handle, everything taken in before is gone |
| Wire.NumberRoundTrip | src/pdr_mem.c:60-315 | a number of any width survives between any two byte orders |
| Wire.TokensBack | src/Packet.C:607-618 | every list of tokens can be written as a format and is cut back into the same tokens |
| Layout.TokensAre | src/Packet.C:607-618 | every format is cut into its maximal stretches between white space and percent signs, in order |
| Layout.FitsIff | src/DataElement.C:205-297 | which values each token takes: c and uc one byte, hd and uhd two, d, ud and f four, ld, uld and lf eight, s a string; behind a an array of at most 2^31 - 1 of them, behind A of at most 2^64 - 1; nothing for any other token |
| Layout.StoreIsDigits | src/pdr_mem.c:60-315 | byte k of a stored number is its k-th digit to base 256, from the low end on a little-endian machine and from the high end on a big-endian one |
| Layout.ValueStands | src/pdr.c:34-498 | the length and every byte of each kind of value: a number in its width, a string behind its four-byte count and before a zero, an array behind its eight-byte count |
| Layout.DataStands | src/Packet.C:594-845 | the values stand one right after another, each at the sum of the lengths before it |
| Layout.HeaderStands | src/Packet.C:557-593 | the position of every header field, and the header's length |
| Layout.OnlyEncodedNumbers | src/pdr.c:34-127 | a decoder takes for a number exactly bytes an encoder of the announced order writes for one |
| Layout.OnlyEncodedArrays | src/pdr.c:415-469 | the same for arrays of numbers: what is accepted is within the literal limits and is what the encoder writes |
| Layout.OnlyCountedStrings | src/pdr.c:263-333 | a string is accepted only from as many bytes as its own count says, at least one, and is what stands before the first zero among them |
| Wire.ValueBack | src/pdr.c:187-498 | every value of every type, within its limits, is read back unchanged, leaving what follows it |
| Wire.DataBack | src/Packet.C:594-845 | every list of values is read back unchanged between any two byte orders |
| Wire.HeaderBack | src/Packet.C:557-593 | every header is read back unchanged, and its own last byte tells the reader whether to swap |
| PdrStream.ByteSwap | src/byte_order.c:8-17 | every element of the output is the reversed element of the input |
| PdrStream.Pdr.Put | src/pdr_mem.c:22-38 | in a buffer the bytes are appended if they fit, else nothing happens; a counting handle only adds up |
| PdrStream.Pdr.Get | src/pdr_mem.c:96-109 | the next number as the sender meant it, or failure when too few bytes are left |
| PdrStream.Pdr.Num | src/pdr.c:34-127 | a scalar goes out or comes in, as the handle's operation says |
| PdrStream.Pdr.Str | src/pdr.c:263-333 | a string goes out with its count and terminator unless it is too long, or comes in as its bytes up to the terminator |
| PdrStream.Pdr.Numbers | src/pdr.c:415-469 | a counted array goes out or comes in element by element, unless it exceeds its limit or the space |
| PdrStream.Pdr.Bytes | src/pdr.c:212-250 | counted raw bytes are the same on the wire as a counted array of one-byte numbers |
| PacketCodec.PacketHeader | src/Packet.C:557-593 | the one walk over the header fields writes, counts or reads exactly the header's bytes |
| PacketCodec.PacketData | src/Packet.C:594-845 | the one walk over the format's tokens writes, counts or reads exactly the values' bytes |
| PacketCodec.Packet.EncodeHeader | src/Packet.C:20-52 | the counted size is exactly what the encoder fills: stream, tag and source in bytes 0, 4 and 8, the format from 12, the counted destinations, and last the byte that names this machine's order |
| PacketCodec.Packet.EncodeData | src/Packet.C:54-85 | the same for the data: the buffer is the values of the format's tokens, each in the token's own width and at the sum of the lengths before it, and a new one exactly when the format has tokens |
| PacketCodec.Packet.DecodeHeader | src/Packet.C:87-104 | the fields parsed with the order the last byte names, or failure; an empty buffer is skipped |
| PacketCodec.Packet.DecodeData | src/Packet.C:106-132 | the values parsed with the order the header named, once; an empty buffer has no values |
| PacketCodec.PacketRoundTrip | src/Packet.C:20-132 | what one machine encodes, any machine decodes to the same header and the same values with no byte left over |
| Messages.Message.AddPacket | src/Message.C:395-402 | the packet joins the end of the queue; the null packet does not |
| Messages.Message.Send | src/Message.C:201-333 | everything queued goes out as one message, from the preallocated buffers or from fresh ones alike: the order, the count, two eight-byte sizes for each packet, one byte to spare, and the buffers one right after another |
| Messages.Message.Recv | src/Message.C:48-163 | what is received is exactly the parse of the next message, and the rest of the bytes is left |
| Messages.FrameBack | src/Message.C:48-163 | between equal byte orders a message is parsed back to its packets, consuming exactly its own bytes |
| Messages.OnlyFrames | src/Message.C:48-163 | whatever is accepted as a message from a machine of the same byte order is one a sender writes, to the last byte |
| Messages.ReadBackIffSameOrder | src/Message.C:117-123 | a non-empty message is recovered exactly when both ends have the same byte order, because the sizes are read in the receiver's own |
| Messages.DeliveredInOrder | src/Message.C:201-402 | over any run of additions and sends, what the receiver has read and what is still queued is everything added, in order |
| StreamProtocol.RunSound | src/ParentNode.C:212-347 | in every interleaving requests and success acknowledgements happen at most once per node, and a waiting node's count is the number of its children heard from |
| StreamProtocol.SuccessCoversSubtree | src/ParentNode.C:590-625 | a node that has succeeded, or whose success is on its way up, has the stream registered throughout its subtree |
| StreamProtocol.FrontEndSuccess | src/ParentNode.C:590-625 | if creation succeeds at the front end every node of the tree has the stream |
| StreamProtocol.QuietMeansCreated | src/BackEndNode.C:162-176 | without failures, when nothing is left to do, creation has succeeded at the front end |
| StreamProtocol.SmoothRunsEnd | src/ParentNode.C:212-347 | a run without failures takes at most four steps for each node of the tree |
| StreamProtocol.CreationCompletes | src/ParentNode.C:590-625 | however far a run without failures has come, it can be continued until creation has succeeded at the front end |
| StreamFailures.AbortTells | src/ParentNode.C:604-625 | a node that gives up drops the stream and sends its parent one failure |
| StreamFailures.HoldsIff | src/ParentNode.C:585-625 | in every run a node has the stream exactly when it made it and has not given up; one that could not pass the request on keeps it |
| StreamFailures.FailureReported | src/ParentNode.C:284-347 | in every run the failure of a node that gave up is on its way, was processed while its parent waited, or was lost before: exactly one of the three, and only if it gave up |
| StreamFailures.GivesUp | src/ParentNode.C:212-347 | a waiting node with a failed child that knows of a failure or is about to be told gives up in at most two steps, drops the stream and tells its own parent |
| StreamFailures.ParentPassesIff | src/ParentNode.C:212-347 | in every run a waiting node one of whose children has given up gets past its wait, without further failures of its own or of other children, exactly when it has seen a child fail or some child's failure was not lost before the wait |
| StreamFailures.EarlyFailureIsLost | src/ParentNode.C:284-316 | a tree of three nodes in which a child gives up before its parent waits, and the parent then waits for good |

## Left out

- Node objects and aliasing: the topology's nodes are records under their ranks, so a node pointer is a rank; sharing of one object between `_nodes`, `_orphans` and child sets is not captured.
- `_parent_nodes`, `_backend_nodes` and the cached sub-tree height: indexes nothing here relies on; `reset` does not clear the first.
- Update packets between replicas: one shared topology is modelled, and every method is one process's own.
- NetworkTopology.Topology.AddNode: a rank already in the table, whose record `new_Node` overwrites while other nodes still point to the old object, is excluded.
- NetworkTopology.Topology.AddSubGraph: texts that repeat a rank, or name the node they are hung under or one above it, are described by the value walk only; as with `set_Parent` the result may have a cycle.
- NetworkTopology.Topology.FindNewParent: any candidate may be returned; scores, random keys and the retries after a failed connection are not modelled.
- NetworkTopology.Topology.GetProximity: `set_Parent` leaves the ascendant sets below the moved node stale; where that makes the second loop run off the top of the tree the source reads through a null pointer, and that input is excluded.
- SerialGraph.FieldsReadBack: ranks are below 2^31, where `atoi` is defined, and hosts are free of brackets and colons.
- Overlaps.OverlapSafeIff: the adopters are those of the tree before any of the failures; an orphan that hears of another failure or recovery before it searches is not covered, and an orphan whose adopter has failed too reports nothing.
- Sockets, threads, process launch and the Cray, LIBI and RSH start-up paths.
- Reverse packets: two of their paths send the other vector.
- Explicit destination lists: each destination gets its own send, so nothing is delivered exactly once there.
- The average filter, whose integer division depends on the tree; floats travel through the codec as bit patterns.
- Reductions.Sum: signed overflow, undefined in C++, is taken to wrap as two's complement; float and double sums, whose rounding depends on the tree, are left out.
- Reductions.Min: float and double inputs are left out, because with a NaN the result depends on the order of the packets.
- Reductions.Max: float and double inputs are left out, for the same reason.
- EquivalenceClasses.IntEqClass: counts and totals are unbounded where the source adds them in 32 bits.
- TimedSync.TimeOutFilter.Push: whether the stream really takes a sender it is asked to take depends on the router's outlet for it; the ranks asked for are returned.
- TimedRuns.AlwaysWatched: the stream's time-out is fixed over the run, its stream stays open, and nobody else registers or clears its timer.
- PdrStream.Pdr.Str: a received string with count zero, for which the source writes before its buffer, is a failure here; a received string without a terminator ends with its count.
- PacketCodec.Packet.EncodeHeader: a null format string and over-long fields stop the program in the source and are excluded.
- PacketCodec.Packet.EncodeData: formats with unknown tokens and over-limit values stop the program in the source and are excluded.
- PacketCodec.Packet.DecodeData: the elements a failed decoding leaves behind, and a second attempt on top of them, are not described.
- The free operation of PDR, heap ownership, `va_list` handling and references through `pdr_pointer`.
- Messages.Message.Send: headers are already encoded, socket writes do not fail part way, and a queue holds fewer than 2^31 packets.
- Messages.Message.Recv: packet counts of 2^31 and more, whose double wraps in 32 bits and for which the source then reads past its arrays, are taken without wrapping.
- ParsedGraphs.ParsedGraph.Validate: nodes are known by rank and every child is a node of the graph.
- StreamProtocol.FrontEndSuccess: the tree does not change while the stream is created, and one stream is created at a time; heterogeneous streams, which wait for nothing, are left out.
- Stream and network bookkeeping (`new_Stream`, `delete_Stream`, `recv` over streams), performance data, event pipes, shutdown and filter loading: they would only add easy members.
