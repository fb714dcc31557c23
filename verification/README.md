# Verified models of the Mininet switch library

Dafny models of the parts of `mininet/lib` (and of one user of its hash table) that keep state or compute something hard, with proofs of what
they promise.  `dafny verify dfyconfig.toml` checks the whole project.

| Files | Part of the library |
|---|---|
| `StpModel`, `StpSelection`, `StpInvariant`, `StpSteps`, `StpNetwork`, `StpForwarding`, `StpMessageAge`, `StpPriority`, `StpSending`, `StpHello`, `StpRelaying`, `StpHold`, `StpNewRoot`, `StpProgress`, `StpTopology`, `StpSettings`, `StpTime`, `StpExample`, `StpBridge` | Spanning Tree Protocol bridge, after clauses 8 and 9 of IEEE 802.1D-1998 |
| `Tag`, `MacTable`, `MacLearning`, `List` | MAC learning table, revalidation tags, intrusive list |
| `RconnModel`, `RconnRuns`, `RconnLimits`, `RconnProgress`, `RconnReliable`, `Rconn`, `Queue` | reliable connection and its packet queue |
| `DhcpOptions`, `DhcpMsg` | DHCP option codec and the memory block behind it |
| `StreamFraming`, `StreamVconn` | OpenFlow messages over a byte stream |
| `Bits`, `HmapMask`, `Hmap`, `HashInt`, `MatchFields` | hash table, integer hash, and the match fields of `mininet/oflib` that rely on both |
| `Wrappers` | values that may be missing |
| `PortArray` | sparse array with shared empty nodes |
| `Checksum` | Internet checksum and its incremental update, section 3 of RFC 1624 |

Code that changes structures in place is a class whose methods are proved against functions on values; what
the library promises is then proved of those functions, over whole runs where it is about runs.  Clocks, random
tags, hashes of MAC addresses and the outcome of system calls are parameters.  Integer widths are explicit where
they matter: 16-bit message ages, 32-bit checksums, sequence numbers and hashes.

In the spanning tree files the BPDUs a bridge sends are the field `sent`; a network is a sequence of bridges and
the LAN behind each of their ports.  In the connection files the callers' counters are named cells of the map
`counters`, and `sends` lists how the underlying connection will answer.  In `PortArray` nodes are numbered, and
number 0 of each kind is the shared empty node.

## Where the code and its comments differ

The model follows the code.

- `mininet/lib/rconn.c:534-536` says a counter is decremented when its packet is discarded due to disconnection;
  giving a connection up, and losing an unreliable one, keep the queue and the counters (`RconnLimits.DiscardsWhenReliable`).
- `mininet/lib/dhcp.c:782-784` sends an empty option as present; a reader whose message has no data block yet drops
  it (`DhcpOptions.EmptyFirstIsLost`, `DhcpOptions.BlockRoundTrip`).
- `mininet/lib/dhcp.c:815-820` puts the message type besides the options, so a parsed message that is assembled
  again carries its type twice, and its vendor options doubled (`DhcpOptions.ReassembledDoubles`).
- `mininet/lib/mac-learning.c:204-212` and `273-280` drop entries without reporting their tags, so flows that went to
  the port of a dropped address are not revalidated (`MacTable.MissedExactly`).
- `mininet/lib/stp.c:651-669` selects port states again after a change of priority but not the root port
  (`StpExample.PriorityUnsettles`).
- `mininet/lib/stp.c:286-292` says leftover milliseconds are kept so that no ticks are lost; what is kept is parts of a
  tick, taken for milliseconds by the next call, so time runs fast (`StpTime.KeepsTimeExactly`, `StpTime.TwoMilliseconds`).
- `mininet/lib/stp.c:372-388` promises a relation of max age and forward delay that an odd max age can miss by one
  millisecond (`StpSettings.ForwardDelayRelation`).
- `mininet/lib/stp.c:730-733` and `1019` shift the one-byte flags out of reach on a little-endian host, so there a change is
  never acknowledged or announced (`StpTopology.AcknowledgedExactly`).
- `mininet/lib/stp.c:1004-1022` has no case for a bridge that becomes root by accepting a BPDU, which only its own, coming
  back, can bring about (`StpHello.AcceptHelloExact`, `StpExample.OwnEchoSilences`).
- `mininet/lib/stp.c:322-342` has no case for a root bridge that stops being root by its new identifier, and may leave a
  change it noticed unreported (`StpTopology.RenameReportsExactly`).
- `mininet/lib/csum.c:81-105` folds once, so a carry out of the fold is lost (`Checksum.FinishExact`,
  `Checksum.CarryLost`, `Checksum.StepEffect`, `Checksum.UpdateCarryLost`).

## Model

| member | source | states |
|---|---|---|
| `StpSelection.SupersedesTotal` | mininet/lib/stp.c:834-851 | of two ports with different numbers exactly one supersedes the other as root port |
| `StpSelection.SupersedesTransitive` | mininet/lib/stp.c:834-851 | superseding as root port is transitive, so it is a strict total order |
| `StpSelection.BestRootSelects` | mininet/lib/stp.c:853-877 | the scan for a root port ends with the least candidate, or with none exactly when there is no candidate |
| `StpSelection.ScanOrderIrrelevant` | mininet/lib/stp.c:853-877 | scanning the ports in any order chooses the same root port |
| `StpSelection.RootPortDesignatedExactly` | mininet/lib/stp.c:827-906 | the root port is also designated exactly when its path cost is zero and the bridge wins the tie for that LAN |
| `StpExample.FreePortIsRootAndDesignated` | mininet/lib/stp.c:674-683 | a new bridge whose port is enabled, given path cost zero and told of a better root by a greater bridge: the port is then both root and designated |
| `StpInvariant.InvMeans` | mininet/lib/stp.c:827-950 | the invariant read out: root port absent exactly on the root, root port never designated, blocking exactly without a role, forward-delay timer exactly while listening or learning, message-age timer exactly when not designated |
| `StpInvariant.ConfigurationUpdateSettles` | mininet/lib/stp.c:827-896 | root and designated-port selection settle every role, whatever the state before |
| `StpInvariant.StateSelectionSettles` | mininet/lib/stp.c:908-950 | port state selection then settles every port state and timer |
| `StpInvariant.ReselectSettles` | mininet/lib/stp.c:827-950 | selection followed by state selection leaves the whole invariant true |
| `StpSteps.ReceivedConfigInv` | mininet/lib/stp.c:991-1027 | receiving a config BPDU keeps the invariant |
| `StpSteps.ReceivedTcnInv` | mininet/lib/stp.c:1029-1038 | receiving a topology change notification keeps the invariant |
| `StpSteps.TickInv` | mininet/lib/stp.c:280-320 | a tick, with all its timer expiries, keeps the invariant |
| `StpSteps.SetBridgeIdInv` | mininet/lib/stp.c:322-342 | changing the bridge identifier keeps the invariant |
| `StpSteps.PortEnableInv` | mininet/lib/stp.c:642-649 | enabling a port keeps the invariant |
| `StpSteps.PortDisableInv` | mininet/lib/stp.c:621-639 | disabling a port keeps the invariant |
| `StpSteps.PortSetPathCostInv` | mininet/lib/stp.c:674-683 | changing a path cost keeps the invariant |
| `StpSteps.CreateInv` | mininet/lib/stp.c:226-270 | a new bridge satisfies the invariant |
| `StpSteps.StepInv` | mininet/lib/stp.c:280-683 | every public operation except a change of port priority keeps the invariant |
| `StpSteps.EveryRunSettled` | mininet/lib/stp.c:226-1167 | after every sequence of those operations on a new bridge, roles, port states and timers agree |
| `StpPriority.PriorityExact` | mininet/lib/stp.c:651-669 | a change of port priority keeps the invariant if and only if the port is disabled or designated, or the new identifier neither equals nor undercuts its own bridge's on that LAN, except by taking the LAN over on a port that is not the root port, and moves no tied candidate past the root port |
| `StpExample.PriorityUnsettles` | mininet/lib/stp.c:651-669 | a run that enables two ports of a new bridge and lets both hear the root, after which the bridge is settled and a change of priority leaves the wrong root port selected |
| `StpExample.RestExists` | mininet/lib/stp.c:834-950 | networks at rest exist: two new bridges joined by active ports once the greater has received the hello of the lesser |
| `StpNetwork.LoopFree` | mininet/lib/stp.c:834-927 | in every network at rest the ports that are not blocking contain no loop |
| `StpNetwork.AcrossIsCostlier` | mininet/lib/stp.c:879-906 | crossing a LAN from its designated port leads to a bridge with a strictly greater cost |
| `StpNetwork.RootAndCosts` | mininet/lib/stp.c:853-906 | in a connected network at rest every bridge names the least identifier as root and its cost is the least over all paths there, attained by one of them |
| `StpNetwork.CostsUnique` | mininet/lib/stp.c:853-906 | the costs of a network at rest are determined by its wiring: the local rules have one fixed point |
| `StpNetwork.RepeatedInfoKeeps` | mininet/lib/stp.c:757-792 | hearing again what a port already records changes no role, cost or port state |
| `StpNetwork.HelloKeepsRest` | mininet/lib/stp.c:991-1027 | the hello of a designated port leaves a network at rest at rest |
| `StpForwarding.HearingNeverWorsens` | mininet/lib/stp.c:757-782 | a config BPDU of another bridge never makes the pair of root and cost worse |
| `StpForwarding.OtherStepsHoldBack` | mininet/lib/stp.c:908-950 | apart from ticks an operation leaves a port's state alone or throws it back |
| `StpForwarding.StepMovesOn` | mininet/lib/stp.c:1079-1093 | a port moves on only in a tick, and only when its timer has been charged a full forward delay |
| `StpForwarding.TwoForwardDelays` | mininet/lib/stp.c:306-319 | over every run that takes a port from blocking or disabled to forwarding there are events l <= a < b such that the port listens and is root port or designated after each event from l to a, for a full forward delay; learns and has its role from a to b, for a full forward delay; and forwards in its role ever since; a and b are ticks |
| `StpMessageAge.ConfigFounded` | mininet/lib/stp.c:712-755 | a config BPDU that is sent either names its sender as root or passes on what the root port records, at least one tick older, costlier and below max age |
| `StpMessageAge.StepEvolves` | mininet/lib/stp.c:280-683 | no operation makes recorded information younger, and everything it sends is founded on what was recorded |
| `StpMessageAge.NetRunInv` | mininet/lib/stp.c:991-1027 | in every run of a network whose BPDUs may be lost, delayed, repeated or misdirected, every bridge is settled, and what a port records was delivered to that port of that bridge in an earlier event and is no younger |
| `StpMessageAge.OwnOrRelayed` | mininet/lib/stp.c:712-782 | every config BPDU a bridge sends in an event is its own claim to be root, or that bridge was delivered, no later than in that event, a BPDU sent in a strictly earlier one, a port of it still holds that, and it passes it on |
| `StpMessageAge.EveryClaimHasASource` | mininet/lib/stp.c:712-782 | so every config BPDU ends a chain of such relays that starts with a bridge naming itself as root |
| `StpMessageAge.ChainIsShort` | mininet/lib/stp.c:712-755 | every chain of relays goes strictly forward in time and names one root, and its number of hops is at most the age of its last BPDU, which is below the max age that carries |
| `StpSending.GenerateExact` | mininet/lib/stp.c:801-811 | config BPDUs go out on exactly the enabled designated ports that are not under hold, in the order of the ports |
| `StpSending.HelloIsSent` | mininet/lib/stp.c:294-296 | a root bridge whose hello time is over in a tick sends, on every enabled designated port that is not under hold, a config BPDU that names it as root with age 0, and starts the hello time again |
| `StpSending.HeldBackIsSent` | mininet/lib/stp.c:316-318 | a config BPDU that waits for a hold timer is sent in the tick in which that runs out |
| `StpHello.AcceptHelloExact` | mininet/lib/stp.c:1004-1022 | accepting a BPDU leaves a root bridge without hellos or with another's times if and only if it takes the last candidate for root port away from a bridge that does not run as root |
| `StpHello.RootHasHello` | mininet/lib/stp.c:280-1141 | after every run in which no BPDU of the bridge itself comes back to it, a root bridge has its hello timer running and goes by its own times |
| `StpExample.OwnEchoSilences` | mininet/lib/stp.c:1004-1022 | a new bridge that hears its own word of a better root becomes root and says no hello |
| `StpHello.RootSpeaks` | mininet/lib/stp.c:1040-1045 | a root bridge left alone for a hello time says hello in one of the ticks, whatever ticks the time passes in |
| `StpRelaying.FollowsTimes` | mininet/lib/stp.c:784-792 | a bridge that accepts a config BPDU takes its max age, hello time and forward delay over if the port is then its root port, and otherwise keeps its own and sends no config BPDU |
| `StpRelaying.PassesOnExactly` | mininet/lib/stp.c:1004-1022 | a bridge that follows a config BPDU sends exactly that root and those times on, a tick older and costlier by the path, on exactly the enabled designated ports not under hold, unless it is then too old |
| `StpRelaying.WorseIsAnswered` | mininet/lib/stp.c:1023-1025 | worse information on a designated port is answered with the bridge's own, now or when the hold time is over |
| `StpRelaying.StaleIsIgnored` | mininet/lib/stp.c:991-1001 | information as old as its max age, or for a disabled port, changes nothing |
| `StpHold.StepHold` | mininet/lib/stp.c:712-755 | no operation sends a config BPDU on a port whose hold time is not over, or on one the bridge is not designated for, and sending begins a new hold time |
| `StpHold.ASecondApart` | mininet/lib/stp.c:712-755 | over every run two config BPDUs on the same port are at least a second apart, unless it is enabled anew in between |
| `StpHold.EnabledIsFree` | mininet/lib/stp.c:1117-1129 | a port that is enabled may speak for its LAN at once, and nothing waits on it |
| `StpNewRoot.NewRootAnnounces` | mininet/lib/stp.c:1131-1141 | a bridge that becomes root by a disabled port or a new identifier says hello at once on every free designated port |
| `StpNewRoot.NewRootSpeaks` | mininet/lib/stp.c:1047-1064 | so does one whose last word of a better root grows too old |
| `StpNewRoot.OldRootReports` | mininet/lib/stp.c:1008-1015 | a root bridge that hears of a better one stops its hellos and reports the change it was announcing |
| `StpSettings.StepSettings` | mininet/lib/stp.c:226-711 | every operation changes the identifier, requested times, path cost, priority, enabling or change detection it is for and no other |
| `StpSettings.RunSettings` | mininet/lib/stp.c:226-711 | after every run these are what the management operations made them |
| `StpSettings.NewSettings` | mininet/lib/stp.c:226-270 | what they are on a new bridge, with the default priority for an identifier that has none |
| `StpSettings.RunTimesFit` | mininet/lib/stp.c:1199-1217 | after every run the bridge's own times are those last asked for, put into range |
| `StpSettings.InRangeIsGranted` | mininet/lib/stp.c:360-392 | times asked for that are in range are granted |
| `StpSettings.TimesInRange` | mininet/lib/stp.c:360-392 | whatever is asked for, the ranges and the relation of max age and hello time hold, and that of max age and forward delay to within two ticks |
| `StpSettings.ForwardDelayRelation` | mininet/lib/stp.c:372-388 | the latter holds in milliseconds if and only if max age is even or the forward delay asked for is above its least |
| `StpSettings.RelationFails` | mininet/lib/stp.c:372-388 | it fails at a max age of 6001 and a forward delay of 4000 milliseconds |
| `StpTime.ClockLaw` | mininet/lib/stp.c:286-292 | over every history of calls a thousand times the ticks given, plus what is left over, is 256 times the milliseconds passed plus 255 times what was carried from call to call |
| `StpTime.KeepsTimeExactly` | mininet/lib/stp.c:286-292 | over every history of calls the ticks given are those of the time that passed if and only if every call but the last passes a multiple of 125 milliseconds; otherwise they are too many |
| `StpTime.TwoMilliseconds` | mininet/lib/stp.c:1169-1183 | two calls of one millisecond give 65 ticks, a quarter of a second |
| `StpProgress.InformationAges` | mininet/lib/stp.c:306-310 | in a tick what a port goes on holding grows older by exactly the time that passes, and what is then as old as max age is gone |
| `StpProgress.RoleMovesOn` | mininet/lib/stp.c:1079-1093 | a port that keeps its role moves from listening to learning to forwarding exactly when its forward delay is over |
| `StpProgress.DesignatedForwards` | mininet/lib/stp.c:1079-1093 | a designated port left alone for one forward delay and then another forwards |
| `StpTopology.NoticeIsRepeated` | mininet/lib/stp.c:1095-1100 | a bridge that is not root repeats its notice on its root port every hello time |
| `StpTopology.StepReports` | mininet/lib/stp.c:964-989 | every operation but a change of identifier keeps a noticed change reported |
| `StpTopology.RunReports` | mininet/lib/stp.c:964-989 | over every run without one, a bridge that is not root and has noticed a change has the timer running that repeats its notices |
| `StpTopology.RenameReportsExactly` | mininet/lib/stp.c:322-342 | a change of identifier silences the report if and only if it makes a root bridge that has noticed a change follow another |
| `StpExample.RenameSilences` | mininet/lib/stp.c:322-342 | a bridge reached by public operations that a change of identifier silences so |
| `StpTopology.NoticeIsAnswered` | mininet/lib/stp.c:1029-1038 | a notice on a designated port is passed on towards the root, unless a change is reported already, and acknowledged once, now or when the hold time is over |
| `StpTopology.AcknowledgedExactly` | mininet/lib/stp.c:1019-1021 | a bridge that follows a BPDU stops reporting if and only if that acknowledges and the host is big-endian |
| `StpTopology.AnnouncementEnds` | mininet/lib/stp.c:1102-1107 | the root announces a change for a max age and a forward delay, and no longer |
| `StpTopology.ForwardingIsNoticed` | mininet/lib/stp.c:1079-1093 | a port with change detection that comes to forward is noticed, if the bridge is designated for some LAN |
| `StpTopology.BlockingIsNoticed` | mininet/lib/stp.c:938-950 | one that selection takes out of learning or forwarding is noticed |
| `StpBridge.Stp.constructor` | mininet/lib/stp.c:226-270 | a new bridge, as `Create` describes it, with the invariant true |
| `StpBridge.Stp.RootSelection` | mininet/lib/stp.c:853-877 | the scan leaves the state `RootSelection` describes; in place, with the same result as the function on values |
| `StpBridge.Stp.DesignatedPortSelection` | mininet/lib/stp.c:879-896 | the loop over the ports leaves the state the selection function describes; in place, with the same result as the function on values |
| `StpBridge.Stp.ConfigurationUpdate` | mininet/lib/stp.c:827-832 | both selections in order; in place, with the same result as the function on values |
| `StpBridge.Stp.PortStateSelection` | mininet/lib/stp.c:908-927 | the loop over the ports leaves the state `StateSelection` describes; in place, with the same result as the function on values |
| `StpBridge.Stp.TopologyChangeDetection` | mininet/lib/stp.c:964-975 | the root raises the flag, others send a notification; in place, with the same result as the function on values |
| `StpBridge.Stp.TransmitConfig` | mininet/lib/stp.c:712-755 | sends a config BPDU, or marks it pending while the hold timer runs; in place, with the same result as the function on values |
| `StpBridge.Stp.ConfigBpduGeneration` | mininet/lib/stp.c:801-811 | sends on every designated enabled port; in place, with the same result as the function on values |
| `StpBridge.Stp.BecomeRootBridge` | mininet/lib/stp.c:1131-1141 | takes up its own times and says hello; in place, with the same result as the function on values |
| `StpBridge.Stp.ReceivedConfigBpdu` | mininet/lib/stp.c:991-1027 | records, reselects, relays or answers; in place, with the same result as the function on values; keeps the invariant |
| `StpBridge.Stp.ReceivedTcnBpdu` | mininet/lib/stp.c:1029-1038 | detects the change and acknowledges it; in place, with the same result as the function on values; keeps the invariant |
| `StpBridge.Stp.MessageAgeTimerExpiry` | mininet/lib/stp.c:1047-1064 | the port becomes designated and the bridge reselects; in place, with the same result as the function on values |
| `StpBridge.Stp.ForwardDelayTimerExpiry` | mininet/lib/stp.c:1079-1093 | listening becomes learning, learning becomes forwarding; in place, with the same result as the function on values |
| `StpBridge.Stp.Tick` | mininet/lib/stp.c:280-320 | all timers in the order of the source; in place, with the same result as the function on values; keeps the invariant |
| `StpBridge.Stp.SetBridgeId` | mininet/lib/stp.c:322-342 | renames its designated ports and reselects; in place, with the same result as the function on values; keeps the invariant |
| `StpBridge.Stp.PortEnable` | mininet/lib/stp.c:642-649 | initialises the port and selects states; in place, with the same result as the function on values; keeps the invariant |
| `StpBridge.Stp.PortDisable` | mininet/lib/stp.c:621-639 | takes the port out and reselects; in place, with the same result as the function on values; keeps the invariant |
| `StpBridge.Stp.PortSetPathCost` | mininet/lib/stp.c:674-683 | changes the cost and reselects; in place, with the same result as the function on values; keeps the invariant |
| `StpBridge.Stp.UpdateBridgeTimers` | mininet/lib/stp.c:1193-1217 | clamps the requested times; in place, with the same result as the function on values; keeps the invariant |
| `Tag.CreateDeterministic` | mininet/lib/tag.c:64-72 | the tag made from a seed has exactly two bits set, so it is valid |
| `Tag.AddKeeps` | mininet/lib/tag.c:81-98 | adding a tag to a set loses no match it had |
| `Tag.AddMatches` | mininet/lib/tag.c:81-98 | after a tag is added everything that intersects it matches the set |
| `Tag.NeverMisses` | mininet/lib/tag.h:139-149 | over any history of additions a set matches whatever intersects a tag once added |
| `Tag.FewAreExact` | mininet/lib/tag.c:81-98 | a set of at most four tags matches exactly what intersects one of them |
| `Tag.MatchesWithinUnion` | mininet/lib/tag.c:81-98 | however many were added, it matches nothing that all of them together do not |
| `Tag.EveryChoiceIsMade` | mininet/lib/tag.c:64-72 | every choice of a bit and of one of the 31 others is made by some seed |
| `Tag.EveryPairIsChosen` | mininet/lib/tag.c:64-72 | every pair of bits is the tag of some choice |
| `Tag.TagSet.Add` | mininet/lib/tag.c:81-98 | in place, with the same result as the function on values |
| `MacTable.ApplyAllInv` | mininet/lib/mac-learning.c:188-292 | over every history keys stay unique, tags valid and the table within 1024 entries |
| `MacTable.StaleOrReported` | mininet/lib/mac-learning.c:188-292 | after a look-up, either some reported tag intersects its tag or its answer still stands |
| `MacTable.ChangedAnswerIsReported` | mininet/lib/mac-learning.c:188-292 | if the answer for an address changes without its eviction or a flush, every tag set given the tags reported since matches the tag the look-up returned |
| `MacTable.LearnReportsExactly` | mininet/lib/mac-learning.c:188-232 | learning reports a tag if and only if it changes the answer for the address, and then the one flows had from the old answer; the new answer has the new tag |
| `MacTable.RunReportsExactly` | mininet/lib/mac-learning.c:282-292 | an expiry run reports, in order, exactly the tags of the entries that go; their addresses flood, all others are answered as before, and none goes before it expires |
| `MacTable.GroupsNeverChange` | mininet/lib/mac-learning.c:236-268 | a group address floods whatever is learned or expires, and no reported tag touches flows to it |
| `MacTable.MissedExactly` | mininet/lib/mac-learning.c:188-280 | one operation changes an answer without reporting it if and only if the address is in the table and a flush drops it, or an eviction that reports a tag its own does not meet |
| `MacTable.EvictionFloods` | mininet/lib/mac-learning.c:204-212 | in a full table a new address turns the answer for the oldest one into flooding, reported exactly when the tag of the unknown new address meets the old tag |
| `MacTable.EvictionIsMissed` | mininet/lib/mac-learning.c:188-232 | a history of 1025 addresses whose last one evicts the first without a report |
| `MacTable.FlushFloods` | mininet/lib/mac-learning.c:273-280 | a flush turns every answer into flooding and reports nothing |
| `MacTable.HoldsMostRecent` | mininet/lib/mac-learning.c:188-292 | over every history of learning, expiry and flushes the table holds the addresses learned most recently, in the order last learned |
| `MacTable.HeldIfAndOnlyIf` | mininet/lib/mac-learning.c:188-292 | on a clock that does not run back an address is held if and only if it is among the last 1024 learned and since it was last learned there was no flush and no expiry run at or after its expiry |
| `MacTable.PortsAreLatest` | mininet/lib/mac-learning.c:188-232 | every entry names the port its address was last learned on |
| `MacTable.RunKeepsLive` | mininet/lib/mac-learning.c:282-292 | on a clock that does not run back, expiry removes exactly the expired entries |
| `MacLearning.BucketFinds` | mininet/lib/mac-learning.c:113-124 | the entry found in the bucket of a key is the one in use for that key |
| `MacLearning.BucketMisses` | mininet/lib/mac-learning.c:113-124 | a key absent from its bucket is absent from the table |
| `MacLearning.TouchOk` | mininet/lib/mac-learning.c:188-232 | refreshing an entry keeps lists and buckets sound and makes it the most recently learned |
| `MacLearning.FreeFrontOk` | mininet/lib/mac-learning.c:141-149 | freeing the oldest entry keeps lists and buckets sound |
| `MacLearning.LinkFreeOk` | mininet/lib/mac-learning.c:188-232 | giving a free entry to a key keeps lists and buckets sound |
| `MacLearning.MacLearning.constructor` | mininet/lib/mac-learning.c:152-170 | an empty table, all entries free |
| `MacLearning.MacLearning.SearchBucket` | mininet/lib/mac-learning.c:113-124 | the loop finds the entry in use for the key, or shows there is none |
| `MacLearning.MacLearning.Learn` | mininet/lib/mac-learning.c:188-232 | the lists then represent the table with the address learned; the tag returned is the one whose flows are stale |
| `MacLearning.MacLearning.Lookup` | mininet/lib/mac-learning.c:250-268 | port and tag of the entry, or flooding and the tag for the unknown address |
| `MacLearning.MacLearning.Flush` | mininet/lib/mac-learning.c:273-280 | the table is empty |
| `MacLearning.MacLearning.Run` | mininet/lib/mac-learning.c:282-292 | the entries expired at the front are gone and their tags are in the set |
| `List.Insert` | mininet/lib/list.c:44-52 | the ring with the element before the given node |
| `List.PushFront` | mininet/lib/list.c:74-80 | the ring with the element right after the head |
| `List.PushBack` | mininet/lib/list.c:82-88 | the ring with the element before the head |
| `List.Remove` | mininet/lib/list.c:101-109 | the ring without the element; its successor is returned |
| `List.PopFront` | mininet/lib/list.c:111-119 | the first element, and the ring without it |
| `List.Size` | mininet/lib/list.c:149-160 | the loop counts the elements |
| `List.EmptyMeans` | mininet/lib/list.c:162-167 | a head that points to itself is a ring without elements |
| `DhcpOptions.ParseChunks` | mininet/lib/dhcp.c:754-787 | an option of any length, cut into pieces of 248 bytes, reads back as one value |
| `DhcpOptions.BlockRoundTrip` | mininet/lib/dhcp.c:575-609 | a block of options reads back as itself if and only if it uses neither framing code and, for a reader without a data block, no empty option precedes the first with data |
| `DhcpOptions.AssembledAt` | mininet/lib/dhcp.c:789-841 | what each code of an assembled message reads back as: its type, its own bytes and the vendor block, in that order |
| `DhcpOptions.EmptyFirstIsLost` | mininet/lib/dhcp.c:782-784 | the block of one empty option reads back as no option at all |
| `DhcpOptions.MessageRoundTrip` | mininet/lib/dhcp.c:575-841 | reading an assembled message and then its vendor option rebuilds every standard and vendor option, wherever the vendor block was cut, if and only if the message holds no bytes for the type option, and none for the vendor option unless no vendor option is to be read there or held elsewhere |
| `DhcpOptions.ReassembledDoubles` | mininet/lib/dhcp.c:789-841 | a message that was read back and is assembled again reads back with its old type behind the new one and every vendor option doubled, and all else as it was |
| `DhcpOptions.TypeReadBack` | mininet/lib/dhcp.c:815-826 | the type reads back alone exactly when the options do not also hold it |
| `DhcpOptions.TypeTwice` | mininet/lib/dhcp.c:815-820 | a message with type 1 among its options that is assembled with type 2 reads back with both |
| `DhcpOptions.PadsChangeNothing` | mininet/lib/dhcp.c:590-592 | a pad between options changes nothing, whatever comes before and after |
| `DhcpOptions.EndEndsIt` | mininet/lib/dhcp.c:587-589 | the end code keeps exactly the options before it, whatever comes after |
| `DhcpOptions.CutEndsIt` | mininet/lib/dhcp.c:594-606 | so does an option whose length or payload is cut short |
| `DhcpOptions.EveryByteAccounted` | mininet/lib/dhcp.c:575-609 | any bytes at all read as the options in them; options, pads and what is not read account for every byte, and what is not read starts with the end code or a cut option |
| `DhcpMsg.CompactedKeeps` | mininet/lib/dhcp.c:170-183 | compaction leaves every option inside the live bytes, apart from the others, with the bytes it had |
| `DhcpMsg.MovedToEndKeeps` | mininet/lib/dhcp.c:196-200 | moving an option to the end changes no option's bytes |
| `DhcpMsg.ExtendedHolds` | mininet/lib/dhcp.c:196-206 | extending the last option changes that option alone |
| `DhcpMsg.StoredHolds` | mininet/lib/dhcp.c:203-206 | storing a new option changes that option alone |
| `DhcpMsg.DhcpMsg.constructor` | mininet/lib/dhcp.c:117-122 | no options and no data block |
| `DhcpMsg.DhcpMsg.AppendData` | mininet/lib/dhcp.c:161-168 | the bytes follow the used part; a message without a block gives a null pointer |
| `DhcpMsg.DhcpMsg.CopyData` | mininet/lib/dhcp.c:170-183 | the options point into the packed live bytes; the size assertion of the source holds at every step |
| `DhcpMsg.DhcpMsg.PreallocData` | mininet/lib/dhcp.c:146-159 | room for the bytes, and the same options, through relocation and compaction |
| `DhcpMsg.DhcpMsg.PutOption` | mininet/lib/dhcp.c:185-207 | the bytes are appended to one option and every other keeps its own |
| `DhcpMsg.DhcpMsg.Copy` | mininet/lib/dhcp.c:134-144 | the same options in a block of its own |
| `DhcpMsg.DhcpMsg.ParseOptions` | mininet/lib/dhcp.c:575-609 | the loop over the bytes puts what `Parse` describes |
| `DhcpMsg.EncodeOption` | mininet/lib/dhcp.c:766-787 | the loop appends the pieces of the option |
| `DhcpMsg.DhcpMsg.Assemble` | mininet/lib/dhcp.c:813-840 | the options part of the message, as `Assembled` describes it |
| `StreamFraming.RecvConserves` | mininet/lib/vconn-stream.c:113-169 | on any bytes: none is lost or invented, and a delivered message has the size its length field claims |
| `StreamFraming.DeliversExactly` | mininet/lib/vconn-stream.c:113-225 | however writes and reads cut the bytes, the messages delivered are the first of those accepted, whole and in order; every other byte is buffered or on the wire |
| `StreamFraming.NeverBadHeader` | mininet/lib/vconn-stream.c:128-143 | from such a sender the receiver never reports a protocol error |
| `StreamFraming.ArrivedIsDelivered` | mininet/lib/vconn-stream.c:125-157 | a message that has arrived whole is delivered by a call whose reads give what they are asked for |
| `StreamFraming.ErrorsExactly` | mininet/lib/vconn-stream.c:125-168 | a call reports the end of the stream, a protocol error or a failing socket exactly when its last read says so, telling an end between messages from one inside a message, or when a header claims less than itself |
| `StreamFraming.SendExactly` | mininet/lib/vconn-stream.c:201-225 | a message is accepted if and only if nothing is left over and the write does not fail; what the write takes is on the wire and the rest is left over |
| `StreamFraming.TxExactly` | mininet/lib/vconn-stream.c:179-199 | a write takes as much of what is left over as it can |
| `StreamFraming.NextIsDelivered` | mininet/lib/vconn-stream.c:113-169 | once nothing is left over at the sender a receiver that is behind delivers the next message |
| `StreamFraming.EverythingArrives` | mininet/lib/vconn-stream.c:113-225 | from any state of the link one write of all that is left over and one call for each message outstanding deliver all that was accepted |
| `StreamVconn.StreamVconn.RecvMessage` | mininet/lib/vconn-stream.c:113-169 | the loop does what `Recv` describes |
| `StreamVconn.StreamVconn.SendMessage` | mininet/lib/vconn-stream.c:201-225 | accepts a message only while nothing is left over |
| `StreamVconn.StreamVconn.DoTxWork` | mininet/lib/vconn-stream.c:179-199 | sends what is left over, or drops it on an error |
| `RconnRuns.RunStateInv` | mininet/lib/rconn.c:341-457 | a pass of the loop keeps the invariant and moves to another state only towards the end of the loop |
| `RconnRuns.Run` | mininet/lib/rconn.c:441-458 | `rconn_run` ends at any fixed clock reading and keeps the invariant |
| `RconnRuns.StepInv` | mininet/lib/rconn.c:240-589 | every public operation keeps the invariant |
| `RconnRuns.StepAccounted` | mininet/lib/rconn.c:543-589 | no operation loses, invents or reorders a packet, and every counter follows the packets queued against it |
| `RconnRuns.EveryRun` | mininet/lib/rconn.c:190-911 | over every run: a vconn exactly while connecting, active or idle; the sequence number odd exactly while active; what was accepted has been sent or dropped or is queued, in order; counters exceed their start by the packets queued |
| `RconnLimits.NeverOverLimit` | mininet/lib/rconn.c:567-589 | a counter charged only through limited sends never exceeds the limit |
| `RconnLimits.DiscardsWhenReliable` | mininet/lib/rconn.c:240-589 | connecting, connecting unreliably and disconnecting keep the queue and the counters; any other operation discards a packet only when it breaks a reliable connection, and then it leaves the queue empty; breaking an unreliable connection discards nothing |
| `RconnLimits.ChargedAfterDisconnect` | mininet/lib/rconn.c:264-281 | a packet and its counter can outlive the connection |
| `RconnLimits.BackoffDoubles` | mininet/lib/rconn.c:313-372 | while the peer does not answer, the wait after k failures is the smaller of 2^(k-1) seconds and the maximum |
| `RconnLimits.BackoffStarts` | mininet/lib/rconn.c:240-248 | `rconn_connect` starts that count, at one if the open is refused |
| `RconnLimits.OneAttemptASecond` | mininet/lib/rconn.c:335-347 | on a clock that does not run back, a connection left to itself opens at most once a second |
| `RconnProgress.TxWorkSends` | mininet/lib/rconn.c:374-389 | working on the queue sends its packets in order, all or all before the first answer that is not success; the rest waits, or goes with a connection that fails |
| `RconnProgress.RunIsTxWork` | mininet/lib/rconn.c:402-439 | on a connection that has not timed out `rconn_run` does that and no more |
| `RconnProgress.WaitingIsSent` | mininet/lib/rconn.c:374-458 | so what waits is sent as soon as the connection is run and takes it |
| `RconnProgress.AcceptedExactly` | mininet/lib/rconn.c:543-589 | a packet is accepted if and only if the connection is up and, for a limited one, its counter is below the limit |
| `RconnProgress.SentAtOnce` | mininet/lib/rconn.c:543-565 | to an empty queue it goes out at once if the connection takes it |
| `RconnProgress.ProbedExactly` | mininet/lib/rconn.c:391-400 | an active connection times out exactly a probe interval after it last heard anything |
| `RconnProgress.SilenceIsProbed` | mininet/lib/rconn.c:402-420 | a probe is then queued and the connection is no longer active |
| `RconnProgress.ProbeIsSent` | mininet/lib/rconn.c:402-420 | with nothing else to send it goes out at once and the connection is idle |
| `RconnProgress.UnansweredIsDropped` | mininet/lib/rconn.c:427-439 | an idle connection that times out is dropped |
| `RconnProgress.DroppedExactly` | mininet/lib/rconn.c:421-439 | which is a probe interval after it became idle, and not before |
| `RconnProgress.HeardExactly` | mininet/lib/rconn.c:480-518 | an idle connection is active again on any message but the reply to an older probe |
| `RconnProgress.ReplyRevives` | mininet/lib/rconn.c:402-518 | the reply to the probe itself always revives it |
| `RconnProgress.MessagesKeepAlive` | mininet/lib/rconn.c:391-518 | an active connection that hears a message and is run within the next probe interval stays active as long as its sends do not fail |
| `RconnProgress.ReopenedExactly` | mininet/lib/rconn.c:335-347 | a connection that backs off is opened again when its wait is over, and not before |
| `RconnProgress.ConnectedAtOnce` | mininet/lib/rconn.c:355-372 | one that is being opened becomes active and works on its queue, or backs off, as soon as that is decided |
| `RconnReliable.StepReliable` | mininet/lib/rconn.c:240-589 | a connection is made reliable by `rconn_connect` only and stays so until it is connected otherwise, disconnected, or reopened to something that cannot be reopened |
| `RconnReliable.NeverGivesUp` | mininet/lib/rconn.c:190-911 | over every run: a connection that is wanted, to a peer that can be reopened, is never given up whatever fails; one that is not wanted is never retried; waits stay within the bound asked for, a minute where none was |
| `RconnReliable.ErrorIsLoss` | mininet/lib/rconn.c:480-518 | a failing receive loses the connection, and nothing else about receiving does |
| `RconnReliable.HandedOver` | mininet/lib/rconn.c:250-262 | a connection handed over is up at once and lost for good when it fails |
| `RconnReliable.NotReopened` | mininet/lib/rconn.c:313-333 | so is one reopened to something that cannot be |
| `RconnReliable.ProbeWaits` | mininet/lib/rconn.c:785-811 | a probe that is not taken waits, and until it is sent any message at all revives the connection |
| `Rconn.Rconn.constructor` | mininet/lib/rconn.c:190-238 | a void connection |
| `Rconn.Rconn.Transition` | mininet/lib/rconn.c:898-911 | sequence number, state and time of entry; in place, with the same result as the function on values |
| `Rconn.Rconn.FlushQueue` | mininet/lib/rconn.c:855-872 | the loop drops every packet and takes each off its counter; in place, with the same result as the function on values |
| `Rconn.Rconn.Close` | mininet/lib/rconn.c:264-281 | back to void, with the queue kept; in place, with the same result as the function on values |
| `Rconn.Rconn.Drop` | mininet/lib/rconn.c:813-853 | backs off if reliable, else closes; in place, with the same result as the function on values |
| `Rconn.Rconn.Reconnect` | mininet/lib/rconn.c:313-333 | opens, or backs off; in place, with the same result as the function on values |
| `Rconn.Rconn.Connect` | mininet/lib/rconn.c:240-248 | closes and reconnects; in place, with the same result as the function on values |
| `Rconn.Rconn.ConnectUnreliably` | mininet/lib/rconn.c:250-262 | closes and is active at once; in place, with the same result as the function on values |
| `Rconn.Rconn.TrySend` | mininet/lib/rconn.c:785-811 | the head of the queue is sent, kept, or lost with the connection; in place, with the same result as the function on values |
| `Rconn.Rconn.DoTxWork` | mininet/lib/rconn.c:374-389 | the loop sends until the queue is empty or a send fails; in place, with the same result as the function on values |
| `Rconn.Rconn.Send` | mininet/lib/rconn.c:543-565 | queued exactly when connected; in place, with the same result as the function on values |
| `Rconn.Rconn.SendWithLimit` | mininet/lib/rconn.c:579-589 | queued exactly when connected and below the limit; in place, with the same result as the function on values |
| `Rconn.Rconn.Recv` | mininet/lib/rconn.c:480-518 | a message makes an idle connection active; in place, with the same result as the function on values |
| `Rconn.Rconn.RunState` | mininet/lib/rconn.c:306-439 | one pass of the state machine; in place, with the same result as the function on values |
| `Rconn.Rconn.Run` | mininet/lib/rconn.c:441-458 | the loop does what `Run` on values describes |
| `Queue.Queue.PushTail` | mininet/lib/queue.c:88-103 | the packet follows all others |
| `Queue.Queue.AdvanceHead` | mininet/lib/queue.c:70-86 | the first packet is gone and the rest stay linked |
| `Queue.Queue.PopHead` | mininet/lib/queue.c:105-114 | the first packet, and the queue without it |
| `Checksum.Continue` | mininet/lib/csum.c:63-79 | the loop adds the host's 16-bit words and an odd last byte, modulo 2^32 |
| `Checksum.FinishExact` | mininet/lib/csum.c:81-87 | a finished checksum cancels the sum modulo 65535 if and only if its halves sum to at most 0xffff |
| `Checksum.CarryLost` | mininet/lib/csum.c:38-87 | a packet whose checksum comes out wrong because the fold carries |
| `Checksum.StepEffect` | mininet/lib/csum.c:89-105 | a 16-bit update is right modulo 65535, or one too great when the sum is 0x1ffff |
| `Checksum.RecalcExact` | mininet/lib/csum.c:89-105 | a word-by-word update keeps the total modulo 65535 if and only if no step has that sum |
| `Checksum.UpdateCarryLost` | mininet/lib/csum.c:89-105 | an update from a packet and checksum that fold, to one that folds, which comes out as 0xffff where recomputing gives 0xfffe |
| `Checksum.RecalcFieldWords` | mininet/lib/csum.c:107-142 | the 32, 64 and 128-bit updates are updates word by word |
| `Checksum.UpdateExact` | mininet/lib/csum.c:89-142 | for every packet and aligned field the update agrees modulo 65535 with recomputing, if and only if no step drops a carry |
| `Checksum.UpdateEqual` | mininet/lib/csum.c:89-142 | and it then gives the very same 16 bits, except when the packet has become all zero |
| `Checksum.ShortFits` | mininet/lib/csum.c:67-79 | no packet of up to 64 KiB wraps the 32-bit sum around |
| `HashInt.HashIsPermutation` | mininet/lib/hash.h:67-78 | for every basis `hash_int` is a permutation of the 32-bit words, with its inverse |
| `HashInt.SameHashSameKey` | mininet/nbee_link/nbee_link.cpp:318-321 | two words with one hash are one word |
| `MatchFields.Match.Put` | mininet/oflib/ofl-structs-match.c:45-54 | the record joins the fields under the hash of its header, and every other keeps its header |
| `MatchFields.Match.VisitHeader` | mininet/udatapath/packet_handle_std.c:58-66 | the search by hash alone, which compares no headers, visits exactly the records with the wanted header, once each |
| `HmapMask.CalcMaskFits` | mininet/lib/hmap.c:103-121 | the mask is one less than a power of two, at least half the capacity, and no more than twice what that needs |
| `HmapMask.MaskPasses` | mininet/lib/hmap.c:81-82 | every such mask passes the test that `resize` asserts |
| `Hmap.Hmap.constructor` | mininet/lib/hmap.c:40-48 | an empty table of one bucket |
| `Hmap.Hmap.InsertFast` | mininet/lib/hmap.h:137-147 | the node is in the bucket of its masked hash and all others stay where they were |
| `Hmap.Hmap.Insert` | mininet/lib/hmap.h:149-158 | also expands, so that n / 2 is at most the mask, and changes no hash |
| `Hmap.Hmap.Remove` | mininet/lib/hmap.h:160-171 | the node is in no bucket and its own link is kept |
| `Hmap.Hmap.VisitWithHash` | mininet/lib/hmap.h:173-202 | visits exactly the nodes with the hash, once each |
| `Hmap.Hmap.ForEach` | mininet/lib/hmap.h:204-238 | visits every node exactly once, even while visited nodes are removed |
| `Hmap.Hmap.Resize` | mininet/lib/hmap.c:75-101 | the same nodes with the same hashes, each in its bucket under the new mask |
| `Hmap.Hmap.Reserve` | mininet/lib/hmap.c:123-131 | expands to the capacity and never shrinks |
| `Hmap.Hmap.Shrink` | mininet/lib/hmap.c:133-141 | never grows, and keeps two nodes a bucket if it held |
| `PortArray.SetExact` | mininet/lib/port-array.c:90-113 | a set changes one element of one array and nothing else of any array |
| `PortArray.InitExact` | mininet/lib/port-array.c:42-56 | a new array is empty and the others are as they were |
| `PortArray.EveryRun` | mininet/lib/port-array.c:42-113 | after every run of inits and sets on any number of arrays each element is what was last set there, and the shared empty nodes are still empty |
| `PortArray.NextFrom` | mininet/lib/port-array.c:115-153 | the least element from a given index on that is not null, or 65536 |
| `PortArray.First` | mininet/lib/port-array.c:155-163 | the least element that is not null, or 65536 |
| `PortArray.Next` | mininet/lib/port-array.c:165-174 | the least such element beyond the index, or 65536 |
| `PortArray.ForEach` | mininet/lib/port-array.c:155-174 | iterating meets exactly the elements that are not null, in increasing order |
| `PortArray.IndexParts` | mininet/lib/port-array.h:41-68 | the three parts of an index determine it |
| `PortArray.Memory.InitArray` | mininet/lib/port-array.c:42-56 | in place, as `Init` describes |
| `PortArray.Memory.SetElement` | mininet/lib/port-array.c:90-113 | in place, copying a shared node before writing, as `Set` describes |

## Left out

- Changes of port priority are not among the operations of runs, because they can break the invariant
  (`StpPriority.PriorityExact` says exactly when), and are modelled on values only.
- StpSteps.EveryRunSettled: path costs of zero are not legal in runs, because then a root port can be designated as well
  (`StpSelection.RootPortDesignatedExactly`, `StpExample.FreePortIsRootAndDesignated`), and received root path costs stay
  below 0x7fff0000, so that adding a path cost does not overflow the signed integers the code keeps costs in.
- StpSteps.StepInv: the same two bounds on the operation.
- StpSteps.ReceivedConfigInv: the same bound on received root path costs.
- StpSteps.PortSetPathCostInv: the path cost is not zero.
- StpNetwork.HelloKeepsRest: that a network left to its hellos and ticks comes to rest in the first place is not proved;
  a bridge on its own never loses ground by hearing others (`StpForwarding.HearingNeverWorsens`).
- The bytes of BPDUs: a BPDU is its fields. The queue of ports whose state changed (`stp_get_changed_port`): port states
  are read from the bridge itself.
- StpBridge.Stp.Tick: a tick here is a number of timer units, at least one; what `stp_tick` makes of milliseconds is modelled
  on values in `StpTime`.
- StpTime.KeepsTimeExactly: the product of milliseconds and 256 is taken not to overflow, which it does from 8388608
  milliseconds on.
- StpHello.RootHasHello: runs in which a BPDU of the bridge itself comes back are excluded (`StpHello.AcceptHelloExact` says
  exactly what one does).
- StpTopology.RunReports: runs with a change of identifier are excluded (`StpTopology.RenameReportsExactly` says exactly when
  one breaks it).
- RconnProgress.MessagesKeepAlive: about one message and one run; it applies again after each.
- MacTable.ChangedAnswerIsReported: evictions and flushes of the address are excluded, because they break the promise
  (`MacTable.MissedExactly` says exactly when).
- MacLearning.MacLearning.Learn: the free list, the buckets and the list in order of learning are sequences of entry numbers
  here; the intrusive rings are proved in `List` by themselves.
- `mac_learning_wait`, `tag_create_random`, `list_splice`, `list_replace`.
- DhcpMsg.DhcpMsg.PutOption: the bytes lie outside the message's own block; parsing the vendor option out of the block
  while putting into it is not modelled.
- The fixed header, option classes, `validate_options` and overloaded fields of `dhcp_parse`, and the typed accessors.
- StreamFraming.DeliversExactly: a write error in `stream_do_tx` drops the rest of a message, so it is excluded.
- Names, monitors, admission, statistics and connectivity questions of `rconn`; `maxBackoff` is not negative and doubling it
  does not overflow; the clock is below 2^32 - 1.
- Rconn.Rconn.Send: the queue is a sequence here; the linked queue is proved in `Queue` by itself.
- Hmap.Hmap.Resize: the inline bucket of a small table is an ordinary array of one bucket, and memory is not freed.
- PortArray.Memory.SetElement: node numbers stand for pointers, and `port_array_destroy` is not modelled.
- `hash_words`, `hash_bytes`, `ofpbuf`, `dhcp-client.c`, sockets, netlink, datapath and logging code.
