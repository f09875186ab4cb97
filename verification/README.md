# A verified model of the OpsBro agent

OpsBro is a monitoring agent. The agents of a cluster find each other by gossip, elect a leader per zone, share a
replicated key-value store, and roll up time series. This project models the parts of it that other parts rely on,
in Dafny, and proves what they are for. `dafny verify dfyconfig.toml` checks all of it.

Where the agent changes objects step by step, the model has classes and methods with loops; each method is proved
against a function of its inputs or of the old state, and the laws are proved about those functions, or about every
run of a transition system built from them.

## What is modelled

**Leader election** (`RaftNode.dfy`, `RaftCluster.dfy`, `RaftLiveness.dfy`, `RaftRecovery.dfy`). A node's handlers,
with its message dispatch and its idle pass, and a zone of such nodes over a bag of packets. A packet may be lost or
overtaken by others, and is delivered at most once; which nodes a forwarded request goes to and which timers have run
out is left open. The inductive invariant remembers who voted for whom, which votes were counted and who won.
Membership is one agreed list, because the quorum is computed from it when a vote arrives, and votes are counted
without a look at their sender, which is why a duplicated packet is outside the model. The relay in
`opsbro/raft.py:510-513` can never run: giving the election up two lines before has already put the node back to
waiting. `RaftNode.Receive` proves that branch dead. Beside safety there is what each delivery and each idle pass
achieves, and that no run is ever stuck: it can always go on to a leader that everybody follows.

**Gossip membership** (`GossipNode.dfy`, `GossipNetwork.dfy`, `GossipLaws.dfy`, `GossipSteps.dfy`, `GossipOrder.dfy`,
`GossipClash.dfy`). The table of records and everything that changes it: reports that arrive alone, merged tables,
answered and unanswered pings, forced leaves, ageing. The network keeps every report for ever, so loss, delay,
reordering and repetition are all included.
On the ping path the record handed to `set_alive` is the table's own, so its state has been overwritten before it is
compared and nothing is broadcast; the model does the same.

**Key ring and replication** (`Ring.dfy`, `Replication.dfy`, `Failover.dfy`). The lookup by bisection, with the wrap of
a negative list index, the choice of replicas by walking the same list backwards, and why the two meet when an owner
goes. Then a master, its backlog and its replicas, and the two together: the node that takes a key over has its data.

**IP addresses** (`IpText.dfy`, `IpParse.dfy`, `IpCase.dfy`, `IpPrint.dfy`, `IpCompress.dfy`, `IpForms.dfy`,
`IpMask.dfy`, `IpNet.dfy`). Parsing and printing at the level of characters, including Python's `int`, `split`, `join`
and `zfill`, the text forms of RFC 4291 section 2.2, the compression rules of RFC 5952 sections 4.2.2, 4.2.3 and 5,
netmask arithmetic, and the constructor that reads `address`, `address/prefix`, `address/netmask` and `first-last`.
Printing is that of single addresses, which carry no prefix.

**Zones** (`Zones.dfy`). The depth-bounded closure of the zone hierarchy, its converse, and the cache behind the dirty
flag.

**Broadcasts** (`Packing.dfy`, `Broadcasts.dfy`, `BroadcastLife.dfy`). The greedy packer, with the JSON writer as a
function that never writes a list shorter than a stretch of it, and the life of a broadcast in the queue. Sorting the
queue is an arbitrary reordering, since its comparison is not antisymmetric.

**Time series** (`TimeSeries.dfy`). Samples into minutes, minutes into hours, over real numbers, and what of them is
written to the database.

**Bloom filter** (`Bloom.dfy`, with `Bits.dfy`). Insertion and lookup with any seven 32-bit hash functions.

## Where the code falls short of its description

- `opsbro/misc/IPy.py:1363-1372` takes any single block of ones for a netmask, wherever it stands: 0.0.255.0 is /8.
  `IpMask.AcceptedIffBlock` says which masks are accepted, `IpMask.MaskOfPrefix` for which of them the answer is right,
  `IpMask.ZeroZero255ZeroIsTakenForSlash8` shows the failure.
- `opsbro/misc/IPy.py:1147-1185` accepts negative numbers as addresses. `IpNet.NegativeIffLooksNegative` says exactly
  which texts these are, and that every other accepted address fits its version; `IpNet.MinusIsAccepted` shows an
  endless family of them. The constructor never lets one through, because it splits its text at the minus sign first
  (`IpNet.AddressInRange`).
- `opsbro/zonemanager.py:17` expects more than 32 levels to mean a loop. A loop of 34 zones already loses a zone from an
  answer (`Zones.ThirtyFourZonesAreTooMany`). `Zones.CompleteIffNothingAfter` says for which hierarchies of any size an
  answer is complete; up to 33 zones it always is (`Zones.SmallHierarchiesAreComplete`).
- Reports with incarnations younger than the record do not commute. `GossipOrder.SwapIffNoClash` says exactly which
  pairs do, `GossipClash.OrderCanMatter` has a run in which the order shows.
- `opsbro/ts.py:196` writes the entry of the hour that is over under the key of the hour that begins.
  `TimeSeries.DatabaseHasHoursBefore` says which hour keys the database holds and what is under them,
  `TimeSeries.HourUnderTheNextKey` shows an input, and so no hour is ever found under its own key
  (`TimeSeries.NoHourIsUnderItsOwnKey`).
- `opsbro/ts.py:125-128` takes a least, or greatest, value of zero for none at all, so the next value replaces it: of 0
  and 5 the least is 5 (`TimeSeries.ZeroIsForgotten`). `TimeSeries.MinuteExtremes` and `TimeSeries.HourExtremes` say
  exactly when the values kept are the least and the greatest.
- `opsbro/gossip.py:650-669` answers a suspicion that is younger than the agent itself, as it may meet one after a
  restart, with a report that does not beat it: `GossipSteps.OwnReportsAreAnswered` says exactly which answers do. In
  runs without such restarts it cannot happen (`GossipLaws.IncarnationsAreOwned`).

## Model

| member | source | states |
|---|---|---|
| RaftCluster.ElectionSafety | opsbro/raft.py:268-298 | in every run, at whatever two moments, two nodes that lead in the same turn are the same node |
| RaftCluster.OneWinnerPerTurn | opsbro/raft.py:284-298 | two quorums of one turn share a voter, and a voter has one ballot a turn, so a turn has one winner |
| RaftCluster.OneVotePerTurn | opsbro/raft.py:268-280 | two votes of one node for one turn, seen anywhere in a run, are the same packet, present once |
| RaftCluster.CandidateVotesForItself | opsbro/raft.py:348-368 | a node that stands or leads in a turn at one moment, and has a vote of that turn on its way at any other, earlier or later, gave that vote to itself |
| RaftCluster.NextKeeps | opsbro/raft.py:447-579 | every step of every node keeps the election invariant: ballots are final, counts are of distinct voters, winners had a quorum, recorded leaders won |
| RaftCluster.DeliverKeeps | opsbro/raft.py:479-542 | handling any packet, of an older, equal or later turn, keeps the invariant |
| RaftCluster.IdleKeeps | opsbro/raft.py:544-579 | an idle pass, whatever the timers say, keeps the invariant |
| RaftCluster.CandidacyKeeps | opsbro/raft.py:348-368 | standing is a ballot for oneself, never given before in that turn |
| RaftCluster.VoteKeeps | opsbro/raft.py:284-298 | counting a vote adds a voter not counted before; reaching the quorum makes a winner |
| RaftCluster.AskVoteKeeps | opsbro/raft.py:268-280 | granting a vote uses a ballot that was still free |
| RaftCluster.LaterTurnKeeps | opsbro/raft.py:504-509 | catching up with a later turn, or giving the election up, keeps the invariant |
| RaftCluster.HistoryAlong | opsbro/raft.py:447-579 | along every run there are growing histories that satisfy the invariant, and every winner did lead at some moment |
| RaftCluster.TurnsNeverDecrease | opsbro/raft.py:406-422 | the election turn of a node never decreases along a run |
| RaftCluster.LeaderWasElected | opsbro/raft.py:302-326 | a node that records a leader follows, and that leader is another node that led at an earlier moment in a turn no later than the follower's |
| RaftCluster.AnotherLeaderUnreachable | opsbro/raft.py:308-310 | no announcement on its way can reach a sitting leader of its turn other than the node announced |
| RaftRecovery.ElectionCanSucceed | opsbro/raft.py:268-326 | every member of a zone of at least three can win the very first turn, with all the others following it |
| RaftRecovery.ElectionIsAlwaysPossible | opsbro/raft.py:447-579 | wherever a run has got to, whatever its nodes are doing and whatever is on its way, it can go on to a moment at which some node leads and all the other members follow it |
| RaftRecovery.Elect | opsbro/raft.py:268-368 | a node that waits in a turn that nobody has passed, among others that may vote in it, can win that very turn and be followed by all |
| RaftLiveness.AnnouncementIsRecorded | opsbro/raft.py:302-326 | an announced leader is recorded by every receiver of that turn that stands, follows or has voted, which then follows with no votes, and by followers of earlier turns; any other waits or stays as it is, and no sitting leader is ever met |
| RaftLiveness.RequestIsGranted | opsbro/raft.py:268-280 | a node without a leader that waits or follows, in a turn no later, sends its vote and passes the request on |
| RaftLiveness.OthersAreIgnored | opsbro/raft.py:268-290 | votes to nodes that do not stand, requests to nodes that have voted, stand, lead or know a leader, and greetings of the own turn change nothing |
| RaftLiveness.DeliveryCatchesUp | opsbro/raft.py:491-509 | a delivery brings its receiver to the turn of the message if that is later, and touches nobody else |
| RaftLiveness.LaggardIsWarned | opsbro/raft.py:485-488 | who sends a message of an old turn is warned, and is in the receiver's turn or a later one once the warning is delivered |
| RaftLiveness.TurnIsPassedOn | opsbro/raft.py:514-516 | a node that has caught up greets the nodes drawn in the new turn |
| RaftLiveness.TimersDecide | opsbro/raft.py:544-579 | which timers make which nodes give up, stand or wait; without them nothing changes |
| RaftLiveness.TimersSpeak | opsbro/raft.py:348-380 | candidates ask, leaders send heartbeats to all others, and nobody else says anything |
| RaftLiveness.NoTurnIsSkipped | opsbro/raft.py:406-411 | before a node is in some turn, somebody was in every turn before it |
| RaftLiveness.SmallZonesStayIdle | opsbro/raft.py:470-477 | a zone of fewer than three members never does anything |
| RaftNodes.Quorum | opsbro/raft.py:291 | the least number of votes that is more than half of the members |
| RaftNodes.RaftNode.constructor | opsbro/raft.py:118-153 | a node starts waiting in turn 0, without vote or leader |
| RaftNodes.RaftNode.SendToAllOthers | opsbro/raft.py:223-229 | one packet to each other member, tagged with the turn |
| RaftNodes.RaftNode.FailElection | opsbro/raft.py:406-411 | the next turn is awaited with everything forgotten |
| RaftNodes.RaftNode.ManageAskVote | opsbro/raft.py:268-280 | a vote is given, and forwarded, only without a leader and while following or waiting |
| RaftNodes.RaftNode.ManageVote | opsbro/raft.py:284-298 | a candidate counts, and leads and announces itself at ceil((n+1)/2) votes |
| RaftNodes.RaftNode.ManageLeaderElected | opsbro/raft.py:302-326 | an announced leader is recorded by candidates, followers and voters only |
| RaftNodes.RaftNode.Receive | opsbro/raft.py:479-542 | a message of an older turn is answered with a warning, one of a later turn makes the node catch up first |
| RaftNodes.RaftNode.Dispatch | opsbro/raft.py:521-539 | each kind of message goes to its handler |
| RaftNodes.RaftNode.Idle | opsbro/raft.py:470-579 | what the timers do in each state; below three members nothing |
| GossipLaws.IncarnationsAreOwned | opsbro/gossip.py:454-467 | in every reachable state no table record and no report about a node is younger than the node itself |
| GossipLaws.OwnRecordSurvives | opsbro/gossip.py:454-466 | the own record is always there, alive or leaving, of the agent's own incarnation; the unknown-broadcast exception never goes off |
| GossipLaws.RefutationWins | opsbro/gossip.py:638-669 | a living agent answers a false report exactly when it names its current incarnation, and the answer beats every record and report about it anywhere |
| GossipLaws.OneDeliveryRevives | opsbro/gossip.py:582-635 | one delivery of an alive report, at any moment and to any other agent: an older record becomes alive at its incarnation, any other stays as it is, an unknown node is taken in if admitted |
| GossipLaws.FalseReportIsUndone | opsbro/gossip.py:582-669 | the answer to a false report stays on the network; whenever it reaches any other agent, a record no younger than the false report becomes alive at the next incarnation, a younger one stays, and the false report changes nothing there any more |
| GossipLaws.HeardForEver | opsbro/gossip.py:582-848 | along a run the heard reports only grow and the agents stay the same ones |
| GossipLaws.HearProgress | opsbro/gossip.py:582-767 | a report accepted about another node moves its record strictly up in (incarnation, alive < suspect < dead < leave) and is broadcast once; any other changes nothing |
| GossipLaws.SuspectProgress | opsbro/gossip.py:638-685 | the same for suspicions |
| GossipLaws.LeaveProgress | opsbro/gossip.py:705-767 | the same for departures, forced or not |
| GossipLaws.BroadcastsAreBounded | opsbro/gossip.py:582-767 | while a node is at most I incarnations old, an agent that neither pings nor forgets it broadcasts about it at most 4(I+1) times in a whole run |
| GossipLaws.SuspectedSince | opsbro/gossip.py:672-685 | a suspected record was suspected in every state since the moment its time says |
| GossipLaws.DeadOnlyAfterTimeout | opsbro/gossip.py:1591-1613 | a record becomes dead only by ageing in a table that has suspected it without interruption for longer than the local timeout, never by a message |
| GossipSteps.ReportTakesEffect | opsbro/gossip.py:582-848 | a report about another node, alone or in a merged table, is believed under stated conditions, and then the record says what it says and everybody is told; otherwise nothing changes |
| GossipSteps.EntryIsPassedOver | opsbro/gossip.py:820-836 | table entries about the agent itself or of zones too high change nothing |
| GossipSteps.EveryEntryIsHeard | opsbro/gossip.py:820-848 | in a whole table every entry that is regarded does to the record of its node what it does alone, wherever it stands |
| GossipSteps.UntouchedByTable | opsbro/gossip.py:820-848 | records without such an entry stay as they are |
| GossipSteps.AnswerRevives | opsbro/gossip.py:1070-1074 | an answered ping makes the record alive at the incarnation it has and tells nobody |
| GossipSteps.SilenceIsSuspected | opsbro/gossip.py:638-685 | an unanswered ping makes a living record suspected from now on, and everybody is told |
| GossipSteps.ForcedLeaveWins | opsbro/gossip.py:705-767 | an agent told to leave is gone at its next incarnation, younger than anything said about it, and everybody is told |
| GossipSteps.OthersCanBeMadeToLeave | opsbro/gossip.py:705-767 | another node that is made to leave is gone for the agent from now on, and everybody is told |
| GossipSteps.RenewalIsTold | opsbro/gossip.py:454-467 | a renewal raises agent and record by one and is told |
| GossipSteps.TableIsShared | opsbro/gossip.py:1549-1562 | a push-pull of the own zone or of one above is answered with every record |
| GossipSteps.AgeingTakesEffect | opsbro/gossip.py:1591-1630 | overdue suspects are dead and announced, departures older than thirty timeouts are forgotten, and every other record stays |
| GossipSteps.OwnReportsAreAnswered | opsbro/gossip.py:582-767 | which reports on itself an agent answers, with what, and when the answer beats the report, for reports of any incarnation |
| GossipNetwork.NextKeeps | opsbro/gossip.py:582-848 | every step of every agent keeps ownership of incarnations; incarnations, the clock and the heard reports only grow |
| GossipNetwork.ActKeeps | opsbro/gossip.py:582-848 | whatever one agent does with sound input leaves it sound: only it raises its own incarnation |
| GossipNodes.CeilLog10IsLeast | opsbro/gossip.py:1593 | the scale of the timeout is the least k with 10^k at least the table size plus one |
| GossipNodes.Gossip.constructor | opsbro/gossip.py:72-108 | an agent starts with its own record alone |
| GossipNodes.Gossip.IncreaseIncarnationAndBroadcast | opsbro/gossip.py:454-467 | the own record and the agent move up together, and the record is broadcast or the exception raised |
| GossipNodes.Gossip.AddNewNode | opsbro/gossip.py:538-569 | a new node is taken in and announced, unless it is of a zone above and no proxy |
| GossipNodes.Gossip.ReceiveAlive | opsbro/gossip.py:582-635 | the alive report of another: only a younger one replaces the record; about oneself, only a younger one is outbid |
| GossipNodes.Gossip.PingAnswered | opsbro/gossip.py:582-635 | the ping path: the state is overwritten in place and nothing is broadcast |
| GossipNodes.Gossip.ReceiveSuspect | opsbro/gossip.py:638-685 | only a living record that is no younger than the report becomes suspect; a suspicion of oneself is refuted |
| GossipNodes.Gossip.ReceiveLeave | opsbro/gossip.py:705-767 | departures of others no older than the record are believed; the own one only when forced, else refuted |
| GossipNodes.Gossip.ManageMessage | opsbro/gossip.py:1764-1788 | a death is heard as a suspicion |
| GossipNodes.Gossip.MergeTable | opsbro/gossip.py:820-848 | entry by entry, without oneself and without zones too high |
| GossipNodes.Gossip.DeclareDead | opsbro/gossip.py:1600-1613 | exactly the suspects whose time is older than the timeout become dead and are announced |
| GossipNodes.Gossip.ForgetLeft | opsbro/gossip.py:1615-1630 | exactly the records that left more than 30 timeouts ago are removed |
| GossipNodes.Gossip.Age | opsbro/gossip.py:1591-1630 | the two together, with 5 * ceil(log10(n+1)) as timeout |
| GossipOrder.HearAllSettles | opsbro/gossip.py:582-767 | reports no younger than a record leave its incarnation alone, and its final state is read off the bag of reports |
| GossipOrder.OrderDoesNotMatter | opsbro/gossip.py:582-767 | any two arrival orders of the same reports end in the same incarnation and state |
| GossipOrder.ReplayChangesNothing | opsbro/gossip.py:582-767 | hearing any of them again changes nothing |
| GossipOrder.SwapIffNoClash | opsbro/gossip.py:582-767 | two reports of any incarnations may be swapped if and only if they do not clash on the record |
| GossipClash.SuspicionsClash | opsbro/gossip.py:638-685 | two suspicions of different incarnations clash on a living record that is no younger than either: whichever comes first stays |
| GossipClash.SuspectedTwice | opsbro/gossip.py:454-685 | a run puts two such suspicions on the network while an agent still holds the older living record |
| GossipClash.OrderCanMatter | opsbro/gossip.py:638-685 | two runs that differ only in the order of their last two deliveries leave one agent with different beliefs |
| Ring.FindGroupNodes | opsbro/gossip.py:326-335 | exactly the names in the table of that group that are neither dead nor gone, each once, whatever the iteration order |
| Ring.BisectRight | opsbro/gossip.py:358 | bisect_right: how many names are not after the key |
| Ring.BeforeIsLexicographic | opsbro/gossip.py:356-358 | names are ordered by the first character in which they differ, a prefix first |
| Ring.FindGroupNode | opsbro/gossip.py:349-360 | the owner of a key is the last name not after it, else the last of all; with no member, the node itself |
| Ring.OwnerIsUnique | opsbro/gossip.py:349-360 | a ring has one owner for a key |
| Ring.JoinMovesOnlyToNewcomer | opsbro/gossip.py:349-360 | when a node joins, a key keeps its owner or moves to the newcomer |
| Ring.LeaveMovesOnlyItsKeys | opsbro/gossip.py:349-360 | when a node leaves, only its own keys move |
| Ring.PickReplicas | opsbro/kv.py:391-397 | the walk backwards round the list collects exactly the replicas |
| Ring.GetMyReplicats | opsbro/kv.py:378-407 | a node's replicas are the nodes before it on the sorted ring, none without a place on it |
| Ring.ReplicasAreDistinctPredecessors | opsbro/kv.py:389-397 | they are min(R, n-1) distinct cyclic predecessors, never the node itself |
| Ring.KeyStaysOnAReplica | opsbro/gossip.py:349-360 | through as many owner losses in a row as there are replicas, the key is owned by one of the first owner's replicas, the nearest first |
| Ring.FailoverFindsTheReplica | opsbro/kv.py:378-407 | when the owner dies or leaves, the lookup on the new table finds exactly the node the owner replicated to |
| Replication.KVBackend.PutValue | opsbro/kv.py:121-150 | a put raises the modify index by one and stores value and time |
| Replication.KVBackend.StoreKey | opsbro/kv.py:311-344 | own and forwarded keys go into the backlog with the metadata just stored, forced ones do not, others are relayed |
| Replication.RunKeeps | opsbro/kv.py:311-441 | along every run the invariant holds and no replica goes back to an older version |
| Replication.NoWriteIsForgotten | opsbro/kv.py:311-441 | in every reachable state each key of the master waits in the backlog, or is on its way with its latest value, or is on the replica with the master's value and metadata |
| Failover.OwnersAfterLossesHaveTheKey | opsbro/kv.py:378-441 | after any run that ends with nothing pending, through as many owner losses in a row as there are replicas, the owner of a key has its latest value and metadata |
| Failover.FoundNodeHasTheKey | opsbro/gossip.py:349-360 | when the owner of a key dies or leaves with nothing pending, the node the lookup then finds has the latest value and metadata of the key |
| Replication.QuietReplicasAgree | opsbro/kv.py:410-441 | with nothing waiting and nothing on its way every replica agrees with the master |
| Replication.MasterHasLastWrite | opsbro/kv.py:311-344 | the master has the value and the time of the last write of a key, and its version counts the writes |
| Replication.QuietReplicasHaveLastWrite | opsbro/kv.py:410-441 | so has every replica once nothing is pending |
| Replication.PendingWritesCanBeSent | opsbro/kv.py:410-441 | from every reachable state all pending writes can be sent, after which every replica has what the master has |
| Zones.ZoneManager.GetSubZonesRec | opsbro/zonemanager.py:55-70 | the bounded recursion adds to the shared set exactly what is reached within the levels left |
| Zones.ZoneManager.ComputeSubZones | opsbro/zonemanager.py:38-42 | the downward closure of every zone |
| Zones.ZoneManager.ComputeTopZones | opsbro/zonemanager.py:44-46 | the upward relation is exactly the converse of the downward one |
| Zones.ZoneManager.Relink | opsbro/zonemanager.py:32-49 | after relinking the caches are those of the current zones |
| Zones.ZoneManager.AddZone | opsbro/zonemanager.py:73-79 | a named zone is added or replaced and the caches become stale |
| Zones.ZoneManager.GetTopZonesFrom | opsbro/zonemanager.py:88-94 | after any additions and queries the answer is that of the current zones |
| Zones.ZoneManager.GetSubZonesFrom | opsbro/zonemanager.py:102-108 | the same downwards |
| Zones.SubZonesAreShortWalks | opsbro/zonemanager.py:55-70 | the answer is exactly the zones that a walk of 1 to 33 steps leads to, cycles or not |
| Zones.TopZonesAreShortWalks | opsbro/zonemanager.py:40-47 | the top zones of a zone are exactly those from which a walk of 1 to 33 steps down leads to it |
| Zones.SmallHierarchiesAreComplete | opsbro/zonemanager.py:17 | with at most 33 zones the answers are complete, downwards and upwards |
| Zones.CompleteIffNothingAfter | opsbro/zonemanager.py:55-70 | for any hierarchy, the answer for a zone is its full closure if and only if the 34th step meets nothing new |
| Zones.TopsCompleteIffNothingBefore | opsbro/zonemanager.py:20-47 | for a hierarchy of any size the answer upwards is complete if and only if one level more would add nothing |
| Zones.ThirtyFourZonesAreTooMany | opsbro/zonemanager.py:17 | the bound is sharp: a circle of 34 zones |
| IpParse.SplitItems | opsbro/misc/IPy.py:1042-1073 | the loop over the text yields the tokens of the specification, with its errors |
| IpParse.ReplaceDotted | opsbro/misc/IPy.py:1075-1081 | a dotted last item becomes two groups; no '::' may follow it |
| IpParse.FillWithZeros | opsbro/misc/IPy.py:1085-1094 | the '::' stands for the missing groups, at least one |
| IpParse.AddUp | opsbro/misc/IPy.py:1097-1109 | the groups shifted together are the number they denote, an item that is no group raises |
| IpParse.ParseAddressIPv6 | opsbro/misc/IPy.py:1042-1109 | the whole loop computes the specification |
| IpParse.ScanFinds | opsbro/misc/IPy.py:1042-1073 | scanning finds the tokens of every well-formed text |
| IpParse.ScanIsSound | opsbro/misc/IPy.py:1042-1073 | whatever scanning accepts is the text of the tokens it returns |
| IpParse.AcceptedIffWritten | opsbro/misc/IPy.py:1042-1109 | a text is accepted with a value if and only if it is written by the grammar from tokens that evaluate to it |
| IpParse.ParseIPv6InRange | opsbro/misc/IPy.py:1092-1109 | an accepted value is a 128-bit number |
| IpCase.CaseDoesNotMatter | opsbro/misc/IPy.py:1046-1185 | texts that differ only in the case of hexadecimal digits are read as the same address, or both refused |
| IpText.Digits | opsbro/misc/IPy.py:1097-1109 | the value of every digit character, in either case |
| IpText.PyIntReadsNumerals | opsbro/misc/IPy.py:1097-1109 | int() reads exactly blanks, a sign, 0x for base 16, at least one digit, blanks, and their value is the one computed |
| IpForms.GroupsAreCounted | opsbro/misc/IPy.py:1074-1094 | an accepted text has eight groups or, with a double colon, fewer, a dotted tail counting for two and coming last |
| IpForms.HexIsRead | opsbro/misc/IPy.py:1147-1154 | 0x and digits are read as their number, of the version its size suggests, up to 128 bits |
| IpForms.DigitsAreRead | opsbro/misc/IPy.py:1159-1161 | 32 hexadecimal digits are read as an IPv6 address |
| IpForms.DecimalIsRead | opsbro/misc/IPy.py:1159-1185 | what a decimal number of any size is read as |
| IpForms.DottedIsRead | opsbro/misc/IPy.py:1163-1173 | two to four bytes, with zeros for those that are missing |
| IpForms.BadBytesRaise | opsbro/misc/IPy.py:1163-1173 | more than four parts, or a part that is no byte, are refused |
| IpPrint.IntToIp | opsbro/misc/IPy.py:1188-1223 | the loops print the dotted and the full form; negative, too large and other versions raise |
| IpPrint.DottedFromInt | opsbro/misc/IPy.py:1201-1204 | the byte loop writes the four bytes, highest first, with dots between |
| IpPrint.FullFromInt | opsbro/misc/IPy.py:1208-1219 | the digit loop writes the eight groups of the padded number with colons between |
| IpPrint.HextetsOfNumber | opsbro/misc/IPy.py:381 | the eight groups of 16 bits of an address stand for that address |
| IpPrint.ReadGroups | opsbro/misc/IPy.py:381 | splitting the full form and reading its parts gives the groups back |
| IpPrint.StrNormal | opsbro/misc/IPy.py:404-423 | the normal form writes every group without leading zeros |
| IpForms.IntToIpReadsBack | opsbro/misc/IPy.py:1188-1220 | exactly the addresses of the two versions have a text, and it is read back |
| IpForms.FullTextShape | opsbro/misc/IPy.py:425-440 | 39 characters, four digits in lower case to a group |
| IpForms.NormalTextShape | opsbro/misc/IPy.py:404-423 | eight groups in lower case without leading zeros |
| IpForms.DottedTextShape | opsbro/misc/IPy.py:1188-1200 | four decimal bytes without leading zeros |
| IpPrint.DottedReadsBack | opsbro/misc/IPy.py:1163-1173 | every IPv4 address is read back from its dotted text |
| IpPrint.AnyCompressionReadsBack | opsbro/misc/IPy.py:1085-1109 | whatever run of zero groups a '::' replaces, at the start, in the middle or at the end, the text is read back |
| IpCompress.CountFollowingZeros | opsbro/misc/IPy.py:1249-1256 | the number of zeros a list begins with: all those are zero and the next one is not |
| IpCompress.CountZeros | opsbro/misc/IPy.py:384-386 | the loop counts the zeros that follow each group |
| IpCompress.LongestRunIsFound | opsbro/misc/IPy.py:384-388 | the first position of the greatest count is the leftmost longest run of zeros |
| IpCompress.CompressionFollowsRfc5952 | opsbro/misc/IPy.py:388-402 | the run left out is the longest, leftmost of several, and never a single group |
| IpCompress.DeleteZeros | opsbro/misc/IPy.py:393-394 | the deleting loop removes exactly that run |
| IpCompress.JoinAround | opsbro/misc/IPy.py:395-400 | the empty strings added at the edges make the two colons, also at the start, the end, and alone |
| IpCompress.CompressHextets | opsbro/misc/IPy.py:381-402 | the whole compression |
| IpCompress.StrCompressed | opsbro/misc/IPy.py:359-402 | the compressed text of an address, with the IPv4-mapped form and the errors |
| IpCompress.MappedReadsBack | opsbro/misc/IPy.py:376-379 | the IPv4-mapped form is read back |
| IpForms.DottedIffMapped | opsbro/misc/IPy.py:359-402 | exactly the IPv4-mapped addresses are compressed to the dotted form of RFC 5952 section 5 |
| IpCompress.CompressedReadsBack | opsbro/misc/IPy.py:359-402 | every IPv6 address below 2^128 is read back from its compressed text |
| IpCompress.LongFormsReadBack | opsbro/misc/IPy.py:404-437 | every IPv6 address is read back from its normal and its full text |
| IpMask.Count1Bits | opsbro/misc/IPy.py:1281-1287 | the loop computes the number of binary digits |
| IpMask.BitLengthIs | opsbro/misc/IPy.py:1281-1287 | that number is k exactly between 2^(k-1) and 2^k |
| IpMask.Count0Bits | opsbro/misc/IPy.py:1290-1303 | the loop computes the number of trailing zeros, negative numbers raise |
| IpMask.TrailingZerosIs | opsbro/misc/IPy.py:1290-1303 | taking that power of two out leaves an odd number |
| IpMask.CheckNetmask | opsbro/misc/IPy.py:1338-1355 | the loop over the zeros and the loop over the ones accept exactly ones above zeros |
| IpMask.OnesAboveZerosIs | opsbro/misc/IPy.py:1338-1355 | ones above zeros are exactly the differences of two powers of two |
| IpMask.NetmaskToPrefix | opsbro/misc/IPy.py:1363-1372 | the three steps computed together |
| IpMask.AcceptedIffBlock | opsbro/misc/IPy.py:1363-1372 | a positive mask is accepted with prefix p if and only if it is one contiguous block of p ones |
| IpMask.PrefixOfMask | opsbro/misc/IPy.py:1375-1386 | the mask of every prefix 0..32 and 0..128 decodes to that prefix |
| IpMask.MaskOfPrefix | opsbro/misc/IPy.py:1363-1386 | an accepted IPv4 mask is the mask of its prefix if and only if it is empty or has its highest bit set |
| IpMask.ZeroZero255ZeroIsTakenForSlash8 | opsbro/misc/IPy.py:1363-1386 | the block of ones in 0.0.255.0 is accepted as /8, whose mask is 255.0.0.0 |
| IpMask.AndMask | opsbro/misc/IPy.py:1358-1360 | the and with a mask keeps exactly the multiples of the network size |
| IpMask.WorksIffAligned | opsbro/misc/IPy.py:1358-1360 | an address works with a prefix if and only if it is aligned to it |
| IpNet.AddressInRange | opsbro/misc/IPy.py:1147-1185 | without a minus sign an accepted address fits its version |
| IpNet.NegativeIffLooksNegative | opsbro/misc/IPy.py:1147-1185 | an accepted address is negative if and only if its text is read whole by int(), begins with a minus sign, blanks aside, and has a nonzero digit; every other accepted address fits its version |
| IpNet.MinusIsAccepted | opsbro/misc/IPy.py:1159-1185 | with a minus sign every decimal number from -100 down is accepted, as IPv4, or as hexadecimal IPv6 when it has 31 digits |
| IpText.PyIntSign | opsbro/misc/IPy.py:1161 | the sign and the size of what int() reads, from the text |
| IpNet.SlashRaises | opsbro/misc/IPy.py:1147-1185 | no accepted address contains a slash |
| IpNet.SlashAcceptedIffAligned | opsbro/misc/IPy.py:213-252 | address/prefix, the prefix any text without a dot, is accepted if and only if int() reads the prefix, it fits the version and the address is aligned to it; both are kept |
| IpNet.ShownPrefixIsRead | opsbro/misc/IPy.py:231-252 | a prefix length written in the usual decimal digits is read back as that length |
| IpNet.SlashNetmask | opsbro/misc/IPy.py:222-230 | address/netmask, the mask any text with a dot, is accepted if and only if the mask is an IPv4 address with a prefix length that fits the version and to which the address is aligned; both are kept |
| IpNet.AloneIsOneAddress | opsbro/misc/IPy.py:212-240 | an address alone is accepted if and only if it can be read, as the network of that one address |
| IpNet.RangesAreIPv4 | opsbro/misc/IPy.py:193-204 | the ends of an accepted range are IPv4 addresses in order |
| IpNet.TwoDashesRaise | opsbro/misc/IPy.py:229-230 | more than one minus sign is refused |
| IpNet.RangeAcceptedIffBlock | opsbro/misc/IPy.py:193-211 | first-last is accepted if and only if it is a block of 2^k addresses starting at a multiple of 2^k, and is that network |
| IpNet.IPint.Init | opsbro/misc/IPy.py:190-252 | the constructor on text, with the inner object it makes for ranges, computes the specification |
| IpNet.IPint.InitRange | opsbro/misc/IPy.py:193-211 | its range branch |
| IpNet.IPint.InitSingle | opsbro/misc/IPy.py:212-230 | its branch for an address, alone, with a prefix or with a netmask |
| IpNet.IPint.Finish | opsbro/misc/IPy.py:234-252 | its common end: the prefix by default, and the final check |
| Packing.JsonListIsMonotone | opsbro/gossip.py:1369 | list texts with brackets and separators never shrink when a list grows |
| Packing.PacketsAreACut | opsbro/gossip.py:1351-1383 | the packets concatenate to the messages in order, and each is at most 1400 long or holds one message |
| Packing.PacketsAreFull | opsbro/gossip.py:1367-1379 | a packet is closed only when the next message does not fit |
| Packing.FewestPackets | opsbro/gossip.py:1351-1383 | no other cut into consecutive packets that may be sent uses fewer packets |
| Packing.GreedyIsAhead | opsbro/gossip.py:1351-1383 | against any other cut the greedy one has fewer packets, or as many with a last one no larger |
| Broadcasts.Broadcaster.GossipPush | opsbro/gossip.py:1341-1390 | the loop packs the eligible broadcasts into those packets, counts the sendings, and leaves the queue without the expired ones |
| Broadcasts.Broadcaster.Stack | opsbro/gossip.py:1367-1379 | a message goes into the open packet or closes it |
| Broadcasts.Broadcaster.RemoveAll | opsbro/gossip.py:1387-1390 | removing by value takes out exactly the expired broadcasts and keeps the others in order |
| Broadcasts.RemoveDead | opsbro/gossip.py:1389-1390 | one removal leaves the living broadcasts alone and one expired one less |
| BroadcastLife.ChosenArePacked | opsbro/gossip.py:1351-1367 | the messages packed are those of the eligible broadcasts, in order |
| BroadcastLife.ChosenAreForTheTarget | opsbro/gossip.py:1351-1356 | a push takes the broadcasts without a group or of a group of its target, and no others |
| BroadcastLife.ChosenAppend | opsbro/gossip.py:1351-1356 | in the order of the queue |
| BroadcastLife.InvAlong | opsbro/gossip.py:1351-1390 | along every run packed sendings and owed ones add up to ten per appended broadcast |
| BroadcastLife.EachIsSentTenTimes | opsbro/gossip.py:1357-1364 | between pushes every waiting broadcast was sent fewer than ten times; what was appended has been packed ten times each exactly when none of it waits any more, and never more often |
| BroadcastLife.OnlyTheExpiredGo | opsbro/gossip.py:1387-1390 | kept and removed broadcasts make up the queue, and the removed ones are those just sent for the tenth time |
| BroadcastLife.TenPushesDrain | opsbro/gossip.py:1351-1390 | ten consuming pushes that serve a group, anywhere in a stretch of a run in which nothing is appended for that group and whatever else comes in between, empty the queue of its broadcasts |
| TimeSeries.TSBackend.constructor | opsbro/ts.py:30-35 | nothing is in memory at first |
| TimeSeries.TSBackend.AddValue | opsbro/ts.py:86-134 | a sample changes the entries of its key as specified, archiving the minute first when it belongs to another, and no other key; the database gets what archiving writes and nothing else |
| TimeSeries.TSBackend.ArchiveMinute | opsbro/ts.py:142-219 | a minute is written to the database and added to its hour, or to a fresh one after the hour that is over is written too |
| TimeSeries.SlotInHour | opsbro/ts.py:216 | the slot of a minute in its hour is in range and stands for that minute |
| TimeSeries.InsertMatches | opsbro/ts.py:120-134 | sum, count, least and greatest of a minute stay those of its samples, as far as these count |
| TimeSeries.AbsorbFits | opsbro/ts.py:203-219 | adding a minute keeps least and greatest of what counts, slots, count, sum and average of the hour |
| TimeSeries.EntriesMatchSamples | opsbro/ts.py:86-219 | after any samples in time order both entries in memory are those computed from the raw samples; least and greatest are those of the values that count |
| TimeSeries.MinuteExtremes | opsbro/ts.py:120-128 | the least of a minute is right if and only if some value is negative, none is zero, or the last one is; likewise the greatest with positive values |
| TimeSeries.HourExtremes | opsbro/ts.py:203-209 | the least of an hour is right if and only if some value is negative, none is zero, or some minute ends in a zero; likewise the greatest |
| TimeSeries.ZeroIsForgotten | opsbro/ts.py:125-128 | samples 0 and 5 leave 5 as the least |
| TimeSeries.DatabaseHasPastMinutes | opsbro/ts.py:142-163 | the database has exactly the minutes that are over and had samples, with count, sum, values and average computed from the raw samples, and the least and greatest of those that count |
| TimeSeries.DatabaseHasHoursBefore | opsbro/ts.py:174-196 | something is under the key of an hour exactly when a minute of that hour is over and some sample lies in an earlier hour other than 0; it is the entry of the last earlier hour with samples, computed from the raw samples |
| TimeSeries.HourUnderTheNextKey | opsbro/ts.py:174-196 | samples at 3600, 7200 and 7260 leave the entry of hour 3600 under the key of hour 7200 |
| TimeSeries.NoHourIsUnderItsOwnKey | opsbro/ts.py:174-196 | what is written under the key of an hour is always the entry of another hour, of an earlier one when the samples came in order |
| Bits.XorBelow | spike/bloom_filter.c:167-169 | folding stays within the bits folded into |
| Bloom.FoldedBits | spike/bloom_filter.c:167-169 | bit k of the place in the filter is set exactly when one, and only one, of the bits k and k + 20 of the hash is |
| Bloom.SetOne | spike/bloom_filter.c:170-171 | setting a bit sets that bit and no other |
| Bloom.InsertWord | spike/bloom_filter.c:159-173 | insertion sets exactly the seven folded bits of the word and clears none |
| Bloom.InDict | spike/bloom_filter.c:176-191 | a word is found exactly when all its bits are set |
| Bloom.LoadWords | spike/bloom_filter.c:131-156 | the character loop inserts exactly the finished lines, drops what follows the last line end, and stops at the character that overflows the buffer |
| Bloom.LinesMakeText | spike/bloom_filter.c:140-153 | the finished lines hold no line ends, and with these and the rest they make up the text |
| Bloom.SameWordsSameFilter | spike/bloom_filter.c:159-173 | the same words, in whatever order and however often, leave the same bytes |
| Bloom.ReportedIffCovered | spike/bloom_filter.c:159-191 | every inserted word is reported, and another word exactly when inserted words cover all its bits |

## Left out

- Election under changing membership, or with packets delivered twice: votes are counted without their sender, so
  neither supports election safety. When timers run out and to whom messages are forwarded is left open, so that an
  election can always succeed, but nothing says that it will.
- The frozen and enlarge-timeout flags of the election, which are off.
- RaftCluster.NextKeeps: timers run out nondeterministically, so that a leader heartbeat does not restart a follower's
  timer.
- Gossip after a restart that lost its incarnation, and a strong ping that holds a record the table has since
  replaced: neither keeps incarnations owned.
- Gossip events and their 300-second memory, node deletion through the interface, changes of groups and zones, the
  history and the callbacks of state changes.
- GossipLaws.BroadcastsAreBounded: does not cover a node the agent pings itself or forgets, since a ping answered
  moves a record back to alive without a broadcast.
- Replication.NoWriteIsForgotten: takes the sending of a key to a replica as always succeeding and a put as one step
  with respect to the flush; deletes and expiry are not replicated by the source and not modelled.
- Table entries without a zone, which are passed over; every record here has one.
- Values and metadata are two maps: a key that begins with the metadata prefix of the database is not captured.
- Python's underscores and non-ASCII digits in numerals, and white space beyond ASCII.
- Printing of networks with a prefix, reverse names, address types and comparison of addresses, constructing from
  numbers and with the make_net and version arguments.
- The zone dictionary handed out to callers, and the loading of zone keys.
- Encryption, sockets, HTTP, databases and threads; steps are atomic.
- The day rollup, the expiry times of database entries, the reaper, samples of the first minute of the epoch, which
  are never archived, and rounding in the time series.
- The concrete hash functions of the Bloom filter and words with a zero byte.
