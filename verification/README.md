# PeerCove: verified model of the daemon's protocols

PeerCove connects the devices of a small network through WireGuard, with one host that relays and
keeps the books. Its daemon contains several small protocols and algorithms. This project models
them in Dafny and proves what they promise, over all inputs and all runs. Where the code does not
keep a promise that its comments make, the model follows the code, a lemma gives the input for which
it fails, and another says exactly when it holds.

`dafny verify dfyconfig.toml` checks everything.

| part | files | what is proved |
|---|---|---|
| key rotation | `Link`, `Rotation`, `RotationProtocol`, `RotationSwitch`, `RotationRecovery`, `Connections` | a member is never locked out by lost messages, reconnects, restarts or crashes; what each tick does about an answer, and exactly when it asks; which key the tunnel runs on, and exactly when that is in neither file; after a lost answer it finds the host's key within 45 s and one tick, with at most one switch; each answer reaches only the request with its number, in its session |
| groups | `Groups`, `GroupGossip` | updates commute and can be repeated; one version has one content; acknowledged means stored; quiet devices share the revision, and the contents exactly if they share its author; only members change a group |
| direct paths | `Direct`, `DirectPeers` | the tunnel has exactly the peers the manager knows, with the right routes, and the established ones were just heard; bounds on the rhythm of probing, and exactly how long two members probe together in each cycle |
| access rules | `AclPackets`, `PacketFormat`, `AclSessions`, `AclPolicy`, `AclMeaning`, `Relay`, `Ledger` | packets are read as RFC 791 has them written; a compiled policy decides as its configuration reads, told from the peers, groups, records and rules themselves; why a packet is relayed, over all runs of packets and changes of the rules; exactly which pairs are kept from direct traffic, and that direct traffic is allowed traffic |
| chat | `ChatLog`, `ChatRuns`, `ChatQueue`, `ChatDelivery` | the file mirrors memory, at an amortised cost; paging is complete; one owner for each message, through crashes of the sender, and exactly when that fails; nothing is shown twice; done means arrived |
| files | `Transfer`, `Inbox` | what is kept of a file is a beginning of it; a finished file is what its sender hashed; nothing received is ever replaced; an interrupted transfer goes on where it broke off |
| names | `Dns`, `DnsReplies` | every reply is read by a resolver as the simple lookup says |
| dates | `Calendar`, `QualityFiles` | the date arithmetic is the Gregorian calendar; pruning by age loses nothing that is not older than the cutoff, and room is made from the oldest |
| mentions | `Mentions` | segments put together are the message; for which names the scan finds everything; when what is highlighted agrees with what is notified |

Code that changes state is modelled as classes and methods with loops, each proved equal to a
function of the old state; the runs and theorems are about these functions. Times are numbers of
nanoseconds (of milliseconds in the dates), keys and addresses are opaque numbers, and a hash is the
content it was made from. `Options`, `Numerals` and `Texts` hold what several parts share.

## Where the code and its documentation differ

- `crates/peercove-cli/src/direct.rs:36-39` promises that probing windows repeat every 60 s and always overlap by 30 s. The cooldown starts only when the probe fails, so a cycle takes more than 105 s (`DirectPeers.ProbePeriod`); with ticks every 5 s it takes 110 s, and two members at any lag probe together for 50 s less the distance of their windows, if that is positive: 30 s exactly for a lag of at most 20 s or at least 90 s (`DirectPeers.SharedPerCycle`), and never exactly for one of 50 s to 60 s (`DirectPeers.WindowsMeetIff`).
- `crates/peercove-cli/src/groups.rs:96-98` says that equal revisions converge to the higher author. Acknowledgements compare revisions only, so two members that edit at once can fall silent with different contents (`GroupGossip.TieStaysSplit`). They agree exactly if both hold the version of one author, and always if only one made that revision (`GroupGossip.QuietDevicesShareTheRevision`).
- Pruning departed members is said to give the same contents on all devices; the author differs (`Groups.PruningAgrees`).
- A group target whose members all fail to resolve matches every address (`AclPolicy.GroupMeansItsMembersIff`). Any target that names no network does, and it means what it denotes exactly if it names one (`AclMeaning.MeansWhatItDenotesIff`).
- Rule ids that begin with `legacy-deny-` are reserved in effect but not refused; such a rule does not keep two members from direct traffic (`Ledger.PosingRuleIsBypassed`). A pair is not kept apart although a rule concerns it exactly if such a rule does, no other rule of the fine-grained kind matters to the two, and the control connection is not denied (`Ledger.OpenThoughRuledIff`).
- `docs/user-guide.md:668` says that a change of the rules takes effect in about 5 s. The session table survives it, so on a host under Windows two members that keep answering each other are relayed for as long as they do (`Relay.TalkOutlivesItsDenial`); a flow ends when it has been silent for its lifetime and a second (`Relay.SilenceEndsIt`).
- The send queue is saved so that a restart goes on delivering; a message that a pump holds while the queue is saved is not in the file, and a crash then forgets it (`ChatDelivery.SavedIff`, `ChatDelivery.CrashForgetsHeld`).
- `crates/peercove-cli/src/daemon.rs:776-777` takes a message that is not in the queue for one that was given up. It may as well be in the hands of a pump, and exactly then sending it again by hand gives it a second owner (`ChatDelivery.ResendKeepsOwnerIff`, `ChatDelivery.ResendDoubles`).
- Chat numbers are said never to repeat across a restart; clearing a one-to-one history alone can take the newest number away (`ChatRuns.ClearDirectKeepsNumberingIff`). The daemon always appends a note afterwards, and then they do not repeat (`ChatRuns.NumberingSurvives`).
- The scan for a mention goes on behind an occurrence that is part of a word, so it can miss one that begins within it. It finds everything, in every text, exactly if no mention of the name can begin within another (`Mentions.NothingIsMissedIff`); `Mentions.OverlapIsMissed` gives the text for every other name.
- The two judgements of a mention are said to agree; a longer name of somebody else can take the place of one's own (`Mentions.LongerNameWins`). They agree exactly if one is not mentioned, or is mentioned at some place where no longer name of somebody else is written (`Mentions.JudgementsAgreeIff`).

## Model

| member | source | states |
|---|---|---|
| Link.MemberLink.Send | crates/peercove-cli/src/control.rs:403-410 | a message goes to the back of the open session queue, and without one nothing changes |
| Link.MemberLink.TakeRotateResult | crates/peercove-cli/src/control.rs:412-415 | the answer to a rotation is handed out once |
| Link.MemberLink.Request | crates/peercove-cli/src/control.rs:494-550 | a request gets a number no other ever had, and a waiter exactly if it was sent |
| Link.MemberLink.PutResult | crates/peercove-cli/src/control.rs:551-617 | a reply resolves the waiter of its own number only; an unknown number changes nothing |
| Link.MemberLink.PutRotateResult | crates/peercove-cli/src/control.rs:582-584 | the answer is kept for the next tick |
| Link.MemberLink.Attach | crates/peercove-cli/src/control.rs:557-569 | a new session drops every waiter and the old rotation answer |
| Link.MemberLink.Detach | crates/peercove-cli/src/control.rs:571-580 | the end of a session drops every waiter |
| Link.RunValid | crates/peercove-cli/src/control.rs:494-617 | in every run, waiting and closed numbers are apart and none exceeds the counter |
| Link.CounterGrows | crates/peercove-cli/src/control.rs:494-545 | the counter never goes back, not even over sessions |
| Link.NumbersAreUnique | crates/peercove-cli/src/control.rs:494-545 | no two requests of a run share a number |
| Link.OpenIff | crates/peercove-cli/src/control.rs:494-617 | a waiter is open exactly if neither its session ended nor a reply with its number came since it asked |
| Link.AnsweredIff | crates/peercove-cli/src/control.rs:551-617 | a waiter holds an answer exactly if that was the first reply with its number within its session |
| Link.AnsweredAtMostOnce | crates/peercove-cli/src/control.rs:551-617 | what a waiter saw is final |
| Connections.Registry.RegisterConnection | crates/peercove-cli/src/control.rs:82-89 | a new connection takes the place of the old one, which is told to close |
| Connections.Registry.UnregisterConnection | crates/peercove-cli/src/control.rs:91-106 | only the connection that is registered is removed |
| Connections.NewestIsRegistered | crates/peercove-cli/src/control.rs:82-106 | after any order of comings and goings the registry has exactly the newest connection that has not ended |
| KeyFiles.KeyStore.CommitPending | crates/peercove-ops/src/keyfiles.rs:51-64 | wherever the commit fails, the key stays readable in one of the two files |
| KeyFiles.KeyStore.EnsurePending | crates/peercove-ops/src/keyfiles.rs:27-48 | a waiting key is reused, and is on disk before it is returned |
| KeyFiles.KeyStore.DiscardPending | crates/peercove-ops/src/keyfiles.rs:67-69 | only the waiting key goes |
| Rotation.Machine.constructor | crates/peercove-cli/src/rotate.rs:67-86 | the machine knows from the files whether it runs on the waiting key |
| Rotation.Machine.Tick | crates/peercove-cli/src/rotate.rs:88-181 | one round follows its specification, whose effects the rows of RotationSwitch state; a waiting key disappears only by refusal or by becoming the key |
| RotationProtocol.CommitKeeps | crates/peercove-ops/src/keyfiles.rs:51-64 | committing keeps the invariant when the waiting key is the one the host holds |
| RotationProtocol.DiscardKeeps | crates/peercove-ops/src/keyfiles.rs:67-69 | discarding keeps it when the host refuses the waiting key |
| RotationProtocol.MintKeeps | crates/peercove-cli/src/rotate.rs:152-181 | a key made anew keeps it |
| RotationProtocol.RequestKeeps | crates/peercove-cli/src/rotate.rs:152-181 | asking once per session keeps it |
| RotationProtocol.AskedKeeps | crates/peercove-cli/src/rotate.rs:152-181 | the whole fourth step of a tick keeps it |
| RotationProtocol.AnswerKeeps | crates/peercove-cli/src/rotate.rs:106-125 | acting on an answer keeps it |
| RotationProtocol.TrialKeeps | crates/peercove-cli/src/rotate.rs:127-143 | hearing the host on the waiting key, or giving it up, keeps it |
| RotationProtocol.FallBackKeeps | crates/peercove-cli/src/rotate.rs:145-150 | trying the waiting key on a dead link keeps it |
| RotationProtocol.TickKeeps | crates/peercove-cli/src/rotate.rs:88-181 | every tick keeps it |
| RotationProtocol.HandleKeeps | crates/peercove-cli/src/control.rs:685-716 | the host accepting, refusing or confirming a key keeps it |
| RotationProtocol.NextKeeps | crates/peercove-cli/src/rotate.rs:88-181 | every action of member, host, network and crash keeps it |
| RotationProtocol.NeverLockedOut | crates/peercove-cli/src/rotate.rs:88-181 | in every run the key the host has registered is in member.key or member.key.new |
| RotationProtocol.LateReplyWouldLockOut | crates/peercove-cli/src/control.rs:557-569 | a run to a world in which an answer from an earlier session, taken for a current one, would lock the member out |
| RotationSwitch.AcceptedMovesOver | crates/peercove-cli/src/rotate.rs:106-118 | after an accepting answer, on a disk that takes it, the tunnel runs on the key in member.key, which is the one the host holds |
| RotationSwitch.RefusedStays | crates/peercove-cli/src/rotate.rs:119-125 | after a refusing answer the waiting key is gone and the tunnel runs on as before, on the key of the host |
| RotationSwitch.AnswersTakeEffect | crates/peercove-cli/src/rotate.rs:106-125 | so it is in every run |
| RotationSwitch.TrialEnds | crates/peercove-cli/src/rotate.rs:127-143 | traffic on the waiting key makes it the key, and silence takes the tunnel back |
| RotationSwitch.DeadLinkTries | crates/peercove-cli/src/rotate.rs:145-150 | a link silent for 45 s brings the tunnel up with the waiting key |
| RotationSwitch.AsksIff | crates/peercove-cli/src/rotate.rs:152-181 | a tick sends a request exactly under these conditions, one in each session, for the waiting key that is on disk |
| RotationSwitch.RunningInNeitherFileIff | crates/peercove-cli/src/rotate.rs:88-181 | in every run the running key is in neither file exactly if member.key is unreadable and the waiting key is another, and then that is the one of the host |
| RotationRecovery.NeverLeaves | crates/peercove-cli/src/rotate.rs:95-106 | on the key the host holds, with traffic every 35 s, the link never looks dead |
| RotationRecovery.Switches | crates/peercove-cli/src/rotate.rs:128-151 | on the other key a tick waits or switches to the key the host holds |
| RotationRecovery.RunProgresses | crates/peercove-cli/src/rotate.rs:95-151 | over any run there is at most one switch and the waiting stays within the dead-link time |
| RotationRecovery.FindsTheHostsKey | crates/peercove-cli/src/rotate.rs:95-151 | at most one switch, on the key of the host within 45 s and one tick gap, and never away from it |
| Groups.GroupStore.Load | crates/peercove-cli/src/groups.rs:55-73 | a loaded store has the groups of the file, or none if it is missing or broken, and no acknowledgements |
| Groups.LoadsWhatWasSaved | crates/peercove-cli/src/groups.rs:55-73 | whatever the order in which the groups were written, they are read back |
| Groups.GroupStore.Apply | crates/peercove-cli/src/groups.rs:99-115 | a group is taken in exactly if it is newer, and afterwards nothing older is stored |
| Groups.GroupStore.MarkAcked | crates/peercove-cli/src/groups.rs:119-124 | acknowledged revisions only rise |
| Groups.GroupStore.PendingSync | crates/peercove-cli/src/groups.rs:138-184 | exactly the peers that are due get exactly the stored group, and are noted as tried |
| Groups.DueIff | crates/peercove-cli/src/groups.rs:138-184 | in plain terms, who is due |
| Groups.TriedAgainIff | crates/peercove-cli/src/groups.rs:168-180 | a peer that did not answer is tried again exactly when the interval has passed |
| Groups.GroupStore.PruneDeparted | crates/peercove-cli/src/groups.rs:209-232 | one update, one revision up, for each group that lists oneself and somebody departed, with exactly the departed taken out, and no others |
| Groups.PruningAgrees | crates/peercove-cli/src/groups.rs:200-232 | two members that take the same people out make the same group but for the author |
| Groups.ValidGroupName | crates/peercove-cli/src/daemon.rs:1146-1156 | a name is refused exactly if nothing is left between white space or that is longer than 256 bytes |
| Groups.Propagate | crates/peercove-cli/src/daemon.rs:1161-1213 | an update goes to exactly those concerned, and the host, that are online and not oneself |
| Groups.GroupCreate | crates/peercove-cli/src/daemon.rs:961-1021 | when founding a group is refused, what it is otherwise (the founder first, each member once), and who is told |
| Groups.GroupUpdate | crates/peercove-cli/src/daemon.rs:1028-1100 | when an edit is refused, that it makes the next revision with exactly the members asked for, and who is told, those taken out included |
| Groups.GroupLeave | crates/peercove-cli/src/daemon.rs:1105-1143 | what stays behind is the group without the one who left, and who is told |
| Groups.HandleGroupUpdate | crates/peercove-cli/src/msg.rs:350-374 | an update of a known group is acknowledged exactly if it is well-formed and its sender is among the members stored, one of an unknown group if among its own; then the sender counts as having it, and it is merged |
| Groups.MergeAllKeepsLatest | crates/peercove-cli/src/groups.rs:99-115 | after any updates the store holds, for each group, one of them and none that is newer is left out |
| Groups.HighestIsKept | crates/peercove-cli/src/groups.rs:96-115 | the highest revision is kept, and of equal ones that of the highest author address |
| Groups.OrderAndRepetitionDoNotMatter | crates/peercove-cli/src/groups.rs:96-115 | any order and multiplicity of the same agreeing updates give the same store |
| Groups.DisagreementDependsOnOrder | crates/peercove-cli/src/groups.rs:96-115 | two contents under the same revision and author would depend on the order |
| GroupGossip.MadeAnew | crates/peercove-cli/src/daemon.rs:1043-1075 | an edit makes a revision its author never used for that group |
| GroupGossip.NextKeeps | crates/peercove-cli/src/msg.rs:350-373 | every edit, send, loss, repetition, receipt, acknowledgement and restart keeps the invariant |
| GroupGossip.SameVersionSameContents | crates/peercove-cli/src/groups.rs:88-115 | in every run, same group, revision and author means same contents on any two devices |
| GroupGossip.AcknowledgedMeansStored | crates/peercove-cli/src/groups.rs:119-124 | in every run, an acknowledgement on record means the peer stores at least that revision |
| GroupGossip.QuietDevicesShareTheRevision | crates/peercove-cli/src/groups.rs:138-184 | once nothing is owed, two devices that list each other share the revision, the contents exactly if they share its author, and so whenever one device alone made that revision |
| GroupGossip.OnlyMembersReplace | crates/peercove-cli/src/groups.rs:75-94 | in every run a stored group is replaced only by an edit of its own device as a member, or by an update from a member of the version replaced |
| GroupGossip.LeaveIsTakenIn | crates/peercove-cli/src/daemon.rs:1105-1143 | in every run a leave is taken in by each device that still holds the version that was left |
| GroupGossip.TieStaysSplit | crates/peercove-cli/src/groups.rs:96-98 | a run after which two members stay apart at the same revision with nothing left to send |
| Direct.WgBackend.AddPeer | crates/peercove-cli/src/direct.rs:199-210 | adding a peer again keeps its endpoint when none is given |
| Direct.DesiredOf | crates/peercove-cli/src/direct.rs:257-291 | exactly the keys of eligible ledger lines, each with the address and endpoint of such a line |
| Direct.DirectManager.Tick | crates/peercove-cli/src/direct.rs:100-236 | a tick moves each key of the tunnel as the one-key specification says, and all keys at once; the rows of DirectPeers state what that means |
| Direct.DirectManager.ForgetOld | crates/peercove-cli/src/direct.rs:108-110 | failures older than two intervals are forgotten |
| Direct.DirectManager.DropGone | crates/peercove-cli/src/direct.rs:128-147 | peers no longer eligible go, without a cooldown, and nothing else changes |
| Direct.DirectManager.TickOne | crates/peercove-cli/src/direct.rs:149-235 | one key: probe, establish, fail or rest, and no other key is touched |
| Direct.DirectManager.HandshakesAlive | crates/peercove-cli/src/direct.rs:117-126 | the loop computes who is alive |
| DirectPeers.AliveIff | crates/peercove-cli/src/direct.rs:117-126 | alive is exactly whose last statistic has a handshake at most 180 s old |
| DirectPeers.OnlyTheJustHeard | crates/peercove-cli/src/direct.rs:149-233 | after a tick established peers were heard within 180 s; one that was not has lost route and tunnel entry and rests; one that is heard is established |
| DirectPeers.StaysAimed | crates/peercove-cli/src/direct.rs:149-233 | the tunnel keeps sending to the recorded endpoint |
| DirectPeers.WantedIff | crates/peercove-cli/src/direct.rs:257-291 | wanted are exactly the members on a line that is online, unbarred, in the network and seen within 300 s |
| Direct.DirectManager.AddProbe | crates/peercove-cli/src/direct.rs:293-333 | a probe is recorded only if the tunnel took the peer |
| Direct.DirectManager.DropPeer | crates/peercove-cli/src/direct.rs:336-347 | the record goes even if the tunnel cannot remove the peer |
| DirectPeers.StepKeepsSound | crates/peercove-cli/src/direct.rs:149-233 | a probe routes nothing, an established peer its one address, and nobody is both tried and resting |
| DirectPeers.RouteMatchesRecordIff | crates/peercove-cli/src/direct.rs:199-224 | without a stable address, record and route agree exactly if the address did not change while probing |
| DirectPeers.AfterTick | crates/peercove-cli/src/direct.rs:100-236 | after a tick the peers of the tunnel are the others, untouched, and exactly the known ones, all eligible, those with a route just heard |
| DirectPeers.CycleBounds | crates/peercove-cli/src/direct.rs:149-233 | where in its cycle an unanswered probe is, at any pace of ticks |
| DirectPeers.ProbePeriod | crates/peercove-cli/src/direct.rs:29-41 | unanswered probes begin more than 105 s and less than 105 s + 2 d apart |
| DirectPeers.RegularInStep | crates/peercove-cli/src/direct.rs:149-233 | with ticks every 5 s and no answer, ten ticks out of every 22 are within a probe |
| DirectPeers.OpenAtIff | crates/peercove-cli/src/direct.rs:149-233 | so a member probes for the first 50 s of every 110 s |
| DirectPeers.SharedPerCycle | crates/peercove-cli/src/direct.rs:36-41 | two members at any lag, to the nanosecond, probe together in each cycle for exactly 50 s less the distance of their windows, and for the promised 30 s exactly if the lag is at most 20 s or at least 90 s |
| DirectPeers.WindowsMeetIff | crates/peercove-cli/src/direct.rs:36-41 | two members ever probe together exactly if the lag, within a cycle, is less than 50 s or more than 60 s |
| AclPackets.Ipv4 | crates/peercove-core/src/acl.rs:502-516 | a readable header lies within the packet and is at least 20 bytes long |
| PacketFormat.HeaderIsRead | crates/peercove-core/src/acl.rs:502-516 | from every packet written after section 3.1 of RFC 791 the source, destination, protocol and header length are read as written |
| PacketFormat.FieldsAreRead | crates/peercove-core/src/acl.rs:483-500 | and the destination port, exactly of first fragments of TCP and UDP that contain it |
| PacketFormat.KeysAreRead | crates/peercove-core/src/acl.rs:518-585 | the session keys of TCP, UDP and echo messages are those written, the way back turned round |
| PacketFormat.FragmentKeyIsRead | crates/peercove-core/src/acl.rs:592-614 | fragments are told by offset and identification as written, and later ones answer nothing |
| PacketFormat.OpeningIff | crates/peercove-core/src/acl.rs:518-560 | opening are exactly UDP, TCP with SYN and no ACK, and echo requests |
| PacketFormat.ReversesIff | crates/peercove-core/src/acl.rs:518-585 | one message answers another exactly between the same ends and ports the other way, or as echo of the request |
| PacketFormat.ReadableIff | crates/peercove-core/src/acl.rs:502-516 | readable are exactly the packets of this format |
| AclPackets.KeyMeansReversed | crates/peercove-core/src/acl.rs:518-585 | a packet meets the key under which another opened a session exactly if it goes the opposite way |
| AclSessions.AclSessionTracker.RemoveExpired | crates/peercove-core/src/acl.rs:248-256 | expired entries go, at most once a second |
| AclSessions.AclSessionTracker.Insert | crates/peercove-core/src/acl.rs:221-233 | a full table renews but takes in nothing new |
| AclSessions.AclSessionTracker.ObserveAllowed | crates/peercove-core/src/acl.rs:155-181 | an allowed packet opens or renews the way back |
| AclSessions.AclSessionTracker.AllowsReply | crates/peercove-core/src/acl.rs:183-195 | a denied packet passes exactly if its session is in the swept table, and then renews it |
| AclSessions.AclSessionTracker.NoteForwardedFragment | crates/peercove-core/src/acl.rs:197-205 | only a first fragment with more to come is noted |
| AclSessions.AclSessionTracker.AllowsFragment | crates/peercove-core/src/acl.rs:207-213 | a later fragment passes exactly if its first one is noted |
| AclSessions.AclSessionTracker.Clear | crates/peercove-core/src/acl.rs:215-219 | clearing leaves nothing |
| AclSessions.RunSound | crates/peercove-core/src/acl.rs:153-256 | in every run each entry was renewed along a chain that an opening packet began |
| AclSessions.LetThroughIsLinked | crates/peercove-core/src/acl.rs:183-256 | a reply passes only along such a chain, each link within the lifetime and one second |
| AclSessions.ReplyNeedsOpening | crates/peercove-core/src/acl.rs:153-195 | a denied packet passes only if the policy allowed an opening packet of exactly the opposite flow |
| AclSessions.AnswersAreTimely | crates/peercove-core/src/acl.rs:133-195 | an answer passes only within 301 s over TCP, 31 s over UDP, 11 s for echoes, of a packet of its flow |
| AclSessions.RunBounded | crates/peercove-core/src/acl.rs:221-246 | in every run the table holds at most 16384 sessions and as many fragments |
| AclSessions.IdealIsLetThrough | crates/peercove-core/src/acl.rs:183-256 | while there is room, whatever an exact tracker would let through is let through |
| AclSessions.FragmentNeedsInitial | crates/peercove-core/src/acl.rs:197-246 | a later fragment passes only within 16 s of the first one of its datagram |
| Relay.Device.SetAcl | crates/peercove-cli/src/backend/windows/device.rs:189-192 | new rules replace the old ones and leave the sessions as they are |
| Relay.Device.EvaluateIpv4Packet | crates/peercove-core/src/acl.rs:343-351 | the rules decide on what the packet says, and the default on what cannot be read |
| Relay.WrittenIsEvaluated | crates/peercove-core/src/acl.rs:343-351 | a written packet is judged by its very source, destination, protocol and destination port |
| Relay.Device.RelayPacket | crates/peercove-cli/src/backend/windows/device.rs:361-390 | which packets are relayed, and what the session table is afterwards |
| Relay.WrittenPacketIsJudged | crates/peercove-cli/src/backend/windows/device.rs:361-390 | what becomes of a written packet, told from the configuration of the rules |
| Relay.TableIsRun | crates/peercove-cli/src/backend/windows/device.rs:361-390 | over any run of packets and changes of the rules the session table goes through a run of its own kind |
| Relay.RelayedHasReason | crates/peercove-cli/src/backend/windows/device.rs:361-390 | a packet is relayed only if the rules allow it, or it answers along an unbroken chain a packet they allowed then, or it is a later fragment of a datagram whose first one was relayed within 16 s |
| Relay.ReasonIsRelayed | crates/peercove-cli/src/backend/windows/device.rs:361-390 | while there is room, what is allowed or answers along an exact chain is relayed |
| Relay.SilenceEndsIt | crates/peercove-core/src/acl.rs:183-256 | a flow that is silent for its lifetime and a second is over |
| Relay.TalkOutlivesItsDenial | crates/peercove-cli/src/backend/windows/device.rs:189-192 | for any number of rounds two members that answer each other at least every 30 s are relayed although new rules deny all of it |
| AclPolicy.EvaluateFrom | crates/peercove-core/src/acl.rs:312-341 | a decision names the first applicable rule, or none applies and it is the default |
| AclPolicy.DeciderOf | crates/peercove-core/src/acl.rs:312-341 | the rule that a decision names is the first that applies |
| AclPolicy.Evaluate | crates/peercove-core/src/acl.rs:312-341 | the loop returns the decision of the first applicable rule |
| AclPolicy.ForceRelayPairs | crates/peercove-core/src/acl.rs:354-371 | exactly the ordered pairs that some fine-grained rule could concern |
| AclPolicy.UnforcedIsUnruled | crates/peercove-core/src/acl.rs:354-371 | a pair not forced is decided, both ways, by default Allow or by a legacy rule |
| AclPolicy.SideNetworksAre | crates/peercove-core/src/acl.rs:441-451 | the side of a denied pair is the address and exactly the subnets of the first member that holds it |
| AclPolicy.ParseRange | crates/peercove-core/src/acl.rs:453-470 | a parsed range is within 1 to 65535 and not empty |
| AclPolicy.PortsRoundTrip | crates/peercove-core/src/acl.rs:453-470 | every single port and every range, written in decimal, is parsed to itself |
| AclPolicy.ResolveRules | crates/peercove-core/src/acl.rs:285-305 | each enabled rule, in order, resolved; an error exactly if any of them is in error; what a resolved rule means is stated by AclMeaning.RuleMeans |
| AclPolicy.LegacyRulesAre | crates/peercove-core/src/acl.rs:274-284 | each denied pair makes two mirrored rules with the same number |
| AclPolicy.SortedSet | crates/peercove-core/src/config.rs:61-70 | sorted, each pair once, the same pairs |
| AclPolicy.Compile | crates/peercove-core/src/acl.rs:271-310 | the loops build the compiled policy or an error; what it decides is stated by AclMeaning.CompiledMeans |
| AclPolicy.GroupMeansItsMembersIff | crates/peercove-core/src/acl.rs:384-402 | a group target covers exactly its members exactly if one of them resolves |
| AclPolicy.DeniedPairsAreDenied | crates/peercove-core/src/acl.rs:272-284 | a denied pair, and all that is behind it, is denied both ways for every protocol and port |
| AclPolicy.LegacyDecides | crates/peercove-core/src/acl.rs:272-284 | where a denied pair concerns a packet, no later rule is asked |
| AclMeaning.ContainsIff | crates/peercove-core/src/acl.rs:472-474 | a network is the interval of addresses that share the bits of its prefix |
| AclMeaning.ResolvedNames | crates/peercove-core/src/acl.rs:374-436 | a target resolves to exactly the networks it names among peers, groups, subnets and records |
| AclMeaning.TargetResolvesIff | crates/peercove-core/src/acl.rs:374-436 | which targets exist; a service needs a port and an address and can only be a destination |
| AclMeaning.MeansWhatItDenotesIff | crates/peercove-core/src/acl.rs:384-402 | a target means what it denotes, for every address, exactly if it names some network |
| AclMeaning.RuleResolvesIff | crates/peercove-core/src/acl.rs:285-305 | which rules are accepted |
| AclMeaning.RuleMeans | crates/peercove-core/src/acl.rs:285-341 | a resolved rule applies to exactly the packets it is written for: own source, own destination, protocol and ports |
| AclMeaning.SideMatchesIff | crates/peercove-core/src/acl.rs:441-451 | the side of a denied pair is its address and what lies behind the first member that holds it |
| AclMeaning.CompiledRuleMeans | crates/peercove-core/src/acl.rs:271-310 | so does, in order, each enabled rule behind the denied pairs |
| AclMeaning.CompiledMeans | crates/peercove-core/src/acl.rs:271-341 | denied pairs first, then the first enabled rule written for the packet, then the default |
| Ledger.Distribute | crates/peercove-cli/src/commands/tunnel.rs:754-789 | the barred pairs that go out are exactly the denied ones, those denied even the control connection, and the forced ones with their first rule |
| Ledger.DeniedPairs | crates/peercove-cli/src/commands/tunnel.rs:768-777 | exactly the pairs whose control connection is denied both ways |
| Ledger.FirstTouchingIs | crates/peercove-cli/src/commands/tunnel.rs:760-766 | the reason given for a forced pair is the first rule that concerns the two |
| Ledger.LedgerMessageFor | crates/peercove-cli/src/control.rs:133-197 | each visible line is the ledger line of that recipient, in order; isolated devices have no names and no aliases; the rest is passed on |
| Ledger.LineShows | crates/peercove-cli/src/control.rs:169-188 | a line is what the host knows but for pairs kept apart, which lose the endpoint and show why |
| Ledger.WaitingIsHidden | crates/peercove-cli/src/control.rs:135-164 | a device that waits for approval is shown to administrators only, and every other one to all |
| Ledger.AliasIsHeldBackIff | crates/peercove-cli/src/control.rs:142-168 | an alias is held back exactly if the label of a waiting device stands in it between dots |
| Ledger.Lines | crates/peercove-cli/src/control.rs:135-191 | a member sees exactly the visible lines, barred partners without an endpoint |
| Ledger.FreeIsAllowed | crates/peercove-core/src/acl.rs:312-341 | if no rule concerns two members everything between them is allowed by default |
| Ledger.OnlyLegacyDenies | crates/peercove-cli/src/commands/tunnel.rs:767-779 | if no fine-grained rule matters to two members, a rule that concerns them has a reserved name, or even the control connection is denied |
| Ledger.FreeIff | crates/peercove-cli/src/commands/tunnel.rs:754-779 | no rule concerns two members exactly if none of the fine-grained kind matters, the control connection is not denied and no rule with a reserved name concerns them |
| Ledger.ShutIff | crates/peercove-cli/src/commands/tunnel.rs:754-789 | two members are kept from direct traffic exactly if a fine-grained rule matters to them or the control connection is denied |
| Ledger.EndpointIsToldIff | crates/peercove-cli/src/control.rs:169-188 | one member is told the endpoint of another exactly if no fine-grained rule matters to the two and the control connection is not denied |
| Ledger.OpenThoughRuledIff | crates/peercove-cli/src/commands/tunnel.rs:754-789 | a pair is not kept apart although some rule concerns it exactly if a rule with a reserved name does and nothing else keeps them apart |
| Ledger.OpenIsAllowed | crates/peercove-core/src/acl.rs:312-371 | every packet between two members that are not kept apart is allowed by default or decided by a rule with a reserved name |
| Ledger.PeerWasTold | crates/peercove-cli/src/direct.rs:257-291 | each direct peer stands on a ledger line that tells its endpoint |
| Ledger.DirectMeansAllowed | crates/peercove-cli/src/direct.rs:100-291 | after a tick, every packet between a member and any of its direct peers is allowed by default, or decided by a rule with a reserved name that concerns the two |
| Ledger.BarredIsNotDirect | crates/peercove-cli/src/control.rs:169-188 | a barred pair has no direct peer after one tick, on either side |
| Ledger.PosingNamesAreValid | crates/peercove-core/src/acl.rs:286-288 | names with the reserved beginning pass validation |
| Ledger.PosingRuleIsBypassed | crates/peercove-core/src/acl.rs:354-371 | with such a name a pair is told its endpoints although packets between the two are denied |
| ChatHistory.ChatLog.Load | crates/peercove-cli/src/chat.rs:396-419 | the newest readable lines, and the number after the last |
| ChatHistory.ChatLog.Append | crates/peercove-cli/src/chat.rs:428-460 | the entry gets the next number; memory and file as specified, also when the disk refuses |
| ChatHistory.ChatLog.Rewrite | crates/peercove-cli/src/chat.rs:462-477 | the file becomes what is in memory, without marks of failure |
| ChatHistory.ChatLog.SetFailed | crates/peercove-cli/src/chat.rs:479-491 | only the first entry of that number is marked, and only in memory |
| ChatHistory.ChatLog.ClearDirect | crates/peercove-cli/src/chat.rs:500-513 | exactly the one-to-one entries from or to that address go, and the answer says whether there were any |
| ChatHistory.ChatLog.ClearAll | crates/peercove-cli/src/chat.rs:518-524 | everything goes, the numbering stays |
| ChatHistory.ChatLog.ContainsId | crates/peercove-cli/src/chat.rs:528-530 | whether any entry has the identifier |
| ChatHistory.ChatLog.Fetch | crates/peercove-cli/src/chat.rs:535-549 | the newer entries up to the first that does not fit |
| ChatHistory.TakenFrom | crates/peercove-cli/src/chat.rs:538-547 | a reply runs up to the first entry beyond 200 or beyond 128 KiB, but holds at least one |
| ChatRuns.AppendMirrors | crates/peercove-cli/src/chat.rs:428-477 | after an append the file still reads back as memory |
| ChatRuns.NextIsSound | crates/peercove-cli/src/chat.rs:396-524 | every operation and every restart keeps the mirror, the bound and the order of numbers |
| ChatRuns.RunIsSound | crates/peercove-cli/src/chat.rs:396-524 | in every run a restart finds what memory held and memory holds at most 10000 entries |
| ChatRuns.StepIsPaid | crates/peercove-cli/src/chat.rs:441-477 | the lines an operation writes are paid from what was saved up |
| ChatRuns.WritesAreAmortized | crates/peercove-cli/src/chat.rs:26-29 | a fresh file stays within 11000 lines and n appends write at most 11 n lines |
| ChatRuns.NumberingSurvivesIff | crates/peercove-cli/src/chat.rs:411-412 | a restart goes on with the same number exactly if the newest entry is still there |
| ChatRuns.ClearDirectKeepsNumberingIff | crates/peercove-cli/src/chat.rs:497-513 | clearing a one-to-one history alone keeps the numbering exactly if the newest entry was not part of it |
| ChatRuns.NumberingSurvives | crates/peercove-cli/src/daemon.rs:607-641 | after any steps of the daemon a restart goes on with the next number |
| ChatRuns.NewerAfterPage | crates/peercove-cli/src/chat.rs:532-549 | asking again from the last number received gives what the reply left out |
| ChatRuns.TakePage | apps/peercove-ui/src/chat.ts:99-106 | the client takes in the whole page |
| ChatRuns.CatchUp | apps/peercove-ui/src/chat.ts:96-108 | repeated fetching ends with every newer entry, each once and in order |
| ChatQueues.DirectGoesOutIff | crates/peercove-cli/src/daemon.rs:2438-2453 | a one-to-one message is held back exactly if the ledger shows another member, or none, at its address |
| ChatQueues.Addresses | crates/peercove-cli/src/daemon.rs:2476-2501 | exactly the other online members, within the group if there is one |
| ChatQueues.OthersGetIt | crates/peercove-cli/src/daemon.rs:2457-2501 | any other message goes to exactly the other online members, of the whole network or of a group one belongs to |
| ChatQueues.ChatQueue.Due | crates/peercove-cli/src/daemon.rs:2368-2377 | the numbers of the items whose time has come, in order |
| ChatQueues.DueIff | crates/peercove-cli/src/daemon.rs:2368-2377 | due is an item exactly from its time on |
| ChatQueues.ChatQueue.Take | crates/peercove-cli/src/daemon.rs:2379-2386 | the first item of that number is taken out, or nothing changes |
| ChatQueues.ChatQueue.PutBack | crates/peercove-cli/src/daemon.rs:2410-2427 | an item is done exactly if its partner, or anybody, has it; otherwise it goes to the end of the queue for its next turn |
| ChatQueues.ChatQueue.Requeue | crates/peercove-cli/src/daemon.rs:783-792 | the first item of that number becomes due, and the answer says whether there was one |
| ChatQueues.ChatQueue.Lose | crates/peercove-cli/src/daemon.rs:846-846 | exactly what was called back, cleared or addressed to departed members goes, and the rest stays in order |
| ChatQueues.HandleChat | crates/peercove-cli/src/msg.rs:306-349 | a message is acknowledged unless it breaks the rules, and taken in exactly if it is new |
| ChatDelivery.ResendKeepsOwnerIff | crates/peercove-cli/src/daemon.rs:778-838 | sending again by hand keeps one owner exactly if the message is not with a pump or in the queue under another number |
| ChatDelivery.NextKeepsOwner | crates/peercove-cli/src/daemon.rs:2359-2431 | every other action, a crash of the sender included, keeps each message in exactly one place |
| ChatDelivery.EachMessageHasOneOwner | crates/peercove-cli/src/daemon.rs:2356-2431 | in every run without such a doubling a message that was sent is in exactly one place: once in the queue, with one pump, delivered, or given up |
| ChatDelivery.SavedIff | crates/peercove-cli/src/chat.rs:320-373 | what a restart finds, after a save, is exactly what is neither delivered nor given up nor held by a pump |
| ChatDelivery.CrashForgetsHeld | crates/peercove-cli/src/daemon.rs:2379-2429 | a run in which a crash forgets for good a message that nobody got |
| ChatDelivery.ResendDoubles | crates/peercove-cli/src/daemon.rs:778-838 | a run after which one message is in the queue and with a pump |
| ChatDelivery.FinishedMeansArrived | crates/peercove-cli/src/daemon.rs:2410-2416 | a one-to-one message counts as delivered only when its partner has it, any other only when somebody has |
| ChatDelivery.OneRoundDelivers | crates/peercove-cli/src/daemon.rs:2359-2431 | a message whose partner answers is delivered and done with in one round |
| ChatDelivery.OnlyThePartnerGetsIt | crates/peercove-cli/src/daemon.rs:2457-2475 | nobody but its partner ever gets a one-to-one message |
| ChatDelivery.AcknowledgedIsLogged | crates/peercove-cli/src/msg.rs:320-347 | an acknowledged message is in the history of its receiver at that moment |
| ChatDelivery.NothingTwice | crates/peercove-cli/src/msg.rs:320-345 | in every run, crashes of the sender and sending by hand included, no history shows an identifier twice, and what it shows is what was sent |
| Transfer.SendBody | crates/peercove-cli/src/msg.rs:969-1009 | from an offset exactly the rest of the file goes out, however it is read, and the hash is of the whole file |
| Transfer.ReceiveBody | crates/peercove-cli/src/msg.rs:714-781 | the part grows by exactly what arrived, up to the size, and is complete exactly if its hash is the one sent |
| Transfer.CompleteIff | crates/peercove-cli/src/msg.rs:701-781 | over an unbroken connection the file is complete exactly if what was there is a beginning of what is sent |
| Transfer.PrefixStays | crates/peercove-cli/src/msg.rs:745-763 | wherever the connection breaks, the part is the beginning of the file of that length |
| Transfer.CompleteIsWhatWasHashed | crates/peercove-cli/src/msg.rs:767-781 | complete means equal to what the sender hashed |
| Transfer.CopyNamesDiffer | crates/peercove-cli/src/msg.rs:1068-1076 | no two attempts at a name are equal |
| Inboxes.Find | crates/peercove-cli/src/msg.rs:810-850 | the first usable marker of the listing is used and removed, and none is missed |
| Inboxes.Inbox.FindResumable | crates/peercove-cli/src/msg.rs:810-850 | the search follows its specification |
| Inboxes.Inbox.UniquePath | crates/peercove-cli/src/msg.rs:1062-1077 | there is always a free name, and the first in order is taken |
| Inboxes.Inbox.Begin | crates/peercove-cli/src/msg.rs:556-573 | a transfer goes on with a usable part or begins one under a free name |
| Inboxes.Inbox.Close | crates/peercove-cli/src/msg.rs:626-664 | complete files get their name; broken ones go; interrupted ones stay with a marker if the sender can resume |
| Inboxes.NextIsSound | crates/peercove-cli/src/msg.rs:557-850 | no transfer disturbs another and no received file is replaced |
| Inboxes.EveryFileIsWhatWasHashed | crates/peercove-cli/src/msg.rs:767-800 | in every run each finished file is one whose hash its sender has sent |
| Inboxes.CloseKeepsPrefixes | crates/peercove-cli/src/msg.rs:701-804 | between honest partners no checksum fails, and a transfer completes with the file or leaves a beginning of it |
| Inboxes.HonestRuns | crates/peercove-cli/src/msg.rs:557-1020 | through interleaved transfers, interruptions, resumptions and crashes all parts are beginnings and all files whole |
| Inboxes.UnbrokenTransferGetsOn | crates/peercove-cli/src/msg.rs:639-664 | an unbroken transfer completes or uses up a marker for good, whatever parts lie about |
| Inboxes.InterruptedIsKept | crates/peercove-cli/src/msg.rs:639-664 | an interrupted transfer leaves what reached the disk, with a marker for the same offer |
| Inboxes.InterruptedGoesOn | crates/peercove-cli/src/msg.rs:810-850 | if the file is offered again and nothing else kept fits, only the rest goes over the wire and the file completes |
| Inboxes.NothingIsKeptInVain | crates/peercove-cli/src/msg.rs:639-664 | of a transfer that cannot be taken up again nothing but a complete file is kept |
| Dns.ReadLabels | crates/peercove-cli/src/dns.rs:282-303 | reading stays in bounds and labels have 1 to 63 bytes |
| Dns.ParseName | crates/peercove-cli/src/dns.rs:282-303 | the loop reads exactly the labels of section 4.1.2 of RFC 1035, in lower case, up to 253 bytes |
| Dns.ParseQuestion | crates/peercove-cli/src/dns.rs:282-308 | name, type and class of the question, and where it ends |
| Dns.EncodeName | crates/peercove-cli/src/dns.rs:155-168 | the loop writes the labels with their lengths and the root |
| Dns.LabelsAreReadBack | crates/peercove-cli/src/dns.rs:155-168 | whatever was encoded, its labels, cut to 63 bytes, are read back |
| Dns.QuestionRoundTrip | crates/peercove-cli/src/dns.rs:155-308 | parsing what was encoded gives the valid ASCII name in lower case |
| DnsReplies.WildcardIsStarred | crates/peercove-cli/src/dns.rs:149-152 | the wildcard of a name replaces its first label by a star |
| DnsReplies.RespondResolves | crates/peercove-cli/src/dns.rs:209-275 | the reply is decided by exact address, wildcard address, exact alias, wildcard alias, in this order |
| DnsReplies.QuestionReads | crates/peercove-cli/src/dns.rs:207-207 | the echoed question is read as it was asked |
| DnsReplies.RecordReads | crates/peercove-cli/src/dns.rs:221-228 | the record is read back exactly if its data fits the two-byte length |
| DnsReplies.RepliesAreRead | crates/peercove-cli/src/dns.rs:172-275 | every reply is read as the simple lookup says, exactly unless an unresolved alias exceeds 65535 bytes |
| DnsReplies.AliasDataIsRead | crates/peercove-cli/src/dns.rs:254-262 | the data of an alias is the labels of its target |
| Calendar.YearOfParts | crates/peercove-cli/src/quality.rs:463-470 | the year of the era is found from every day of it |
| Calendar.CivilDateSteps | crates/peercove-cli/src/quality.rs:463-476 | every day number gives a valid date and the next one the day after it |
| Calendar.CivilDateIsNth | crates/peercove-cli/src/quality.rs:461-476 | the date is the one found by counting from the first of January 1970 |
| Calendar.DayNumberOfCivilDate | crates/peercove-cli/src/quality.rs:461-476 | the date gives the day number back |
| Calendar.NamesOrderAsDays | crates/peercove-cli/src/quality.rs:475-475 | up to the year 9999 the printed dates order exactly as the days |
| Calendar.NamesTurnOver | crates/peercove-cli/src/quality.rs:475-475 | with the year 10000 that order turns over |
| QualityFiles.EarlierFileIsOlder | crates/peercove-cli/src/quality.rs:420-425 | a file of an earlier date holds only what is older |
| QualityFiles.LocalDayIs | crates/peercove-cli/src/quality.rs:454-459 | days begin at local midnight |
| QualityFiles.ByNameInOrder | crates/peercove-cli/src/quality.rs:419-419 | whatever the directory lists, sorting puts it in the order of the names |
| QualityFiles.QualityFolder.Prune | crates/peercove-cli/src/quality.rs:403-436 | exactly the files of earlier days go, then the first by name until the rest fits; what goes for its size is before all that stays |
| QualityFiles.RoomIsMadeFromTheOldest | crates/peercove-cli/src/quality.rs:419-436 | of two daily files the one before the other holds only older samples |
| QualityFiles.AgePruningIsSafe | crates/peercove-cli/src/quality.rs:403-425 | with a fixed offset pruning by age loses only samples more than seven days old |
| Mentions.HasMentionToken | apps/peercove-ui/src/mentions.ts:11-23 | whether the scan finds a mention that is no part of a word |
| Mentions.BoundariesMatter | apps/peercove-ui/src/mentions.ts:11-23 | a mention begins behind white space only and ends before no word character |
| Mentions.IsMentioned | apps/peercove-ui/src/mentions.ts:36-40 | whether All or the own name is mentioned |
| Mentions.FoundIffWritten | apps/peercove-ui/src/mentions.ts:11-23 | for a name no mention of which can begin within another the scan finds exactly the mentions that are written |
| Mentions.NothingIsMissedIff | apps/peercove-ui/src/mentions.ts:11-23 | the scan finds everything in all texts exactly for these names |
| Mentions.OverlapIsMissed | apps/peercove-ui/src/mentions.ts:11-23 | for every other name, a text whose only mention the scan misses |
| Mentions.CollectCandidates | apps/peercove-ui/src/mentions.ts:58-66 | All, the own name and the trimmed names of the members, each once, the first two standing for oneself |
| Mentions.SortByLength | apps/peercove-ui/src/mentions.ts:67-67 | the same candidates, longest first |
| Mentions.AddRanges | apps/peercove-ui/src/mentions.ts:75-90 | each mention of a candidate becomes a range or is covered by one no shorter, and ranges stay apart |
| Mentions.FindRanges | apps/peercove-ui/src/mentions.ts:74-91 | all ranges are mentions, apart from each other, and every mention is covered |
| Mentions.CutUp | apps/peercove-ui/src/mentions.ts:94-102 | the segments put together are the text and the mentions among them the ranges |
| Mentions.SplitMentions | apps/peercove-ui/src/mentions.ts:53-102 | all of this, and a self segment means mentioned, and mentioned means at least one mention segment |
| Mentions.SelfShownIff | apps/peercove-ui/src/mentions.ts:53-102 | a segment for oneself is shown exactly if somewhere one is mentioned and no longer name of somebody else is written there |
| Mentions.JudgementsAgreeIff | apps/peercove-ui/src/mentions.ts:43-52 | exactly when being mentioned and being shown so agree |
| Mentions.LongerNameWins | apps/peercove-ui/src/mentions.ts:43-52 | one may be mentioned and yet see no self segment |
| Mentions.OnlySomebodyElse | apps/peercove-ui/src/mentions.ts:53-102 | a message that is nothing but the mention of somebody else shows nothing for oneself |
| Mentions.CrossingNameHides | apps/peercove-ui/src/mentions.ts:53-102 | where a mention can begin within another name, that condition is not enough |

## Left out

- Key rotation: the host handles one request at a time and only for its newest session (`crates/peercove-cli/src/control.rs:82-106`, `1597-1603`); sessions are registered in the order in which they were opened; a restart of the tunnel ends the session; files that exist can be read; every save is atomic but the overwriting of `member.key`, which may be torn; input/output errors of the host (`crates/peercove-cli/src/control.rs:707-714`) do not happen, so it refuses a key only because it is taken.
- Link: the waiters with a single slot (DNS name, display name, invitation) are overwritten by a second request and are not modelled.
- Groups: saves succeed, revisions are unbounded, authors are honest about `updatedBy`, and each read, edit and apply is one step; the notes in the conversation and the members' display names are not modelled; an update that does not arrive is lost like any other.
- Direct paths: routes shown to the user and log lines are not modelled, nor does a peer move to another endpoint by itself between two ticks; a WireGuard call either works for a key throughout a tick or fails.
- DirectPeers.SharedPerCycle: each member ticks exactly every 5 s; how late a tick can be is covered by `DirectPeers.ProbePeriod` only.
- PacketFormat: the checksum and the total length of the header are carried and not checked, as in the code; TCP options and what follows the fixed parts are arbitrary bytes.
- Access rules: the diagnosis of errors is one error value; whether a configuration file parses is not modelled; member addresses are IPv4 numbers.
- AclSessions.IdealIsLetThrough: assumes that the table never filled up, because a full table turns new sessions away.
- Relay: the choice of the target, the isolation of devices that wait for approval, encryption and the tunnel are not modelled; under Linux the kernel does the same work.
- Relay.ReasonIsRelayed: assumes that the table never filled up; it and `Relay.RelayedHasReason` differ by the second within which expired sessions are swept.
- Ledger: how records and aliases are resolved and checked for health before they are distributed is not modelled.
- Chat log: a line torn by a crash in the middle of an append is not modelled; writes either happen or do not. Entries carry no file, system event or sending time.
- Chat delivery: the receiver looks for an identifier and appends under two locks (`crates/peercove-cli/src/msg.rs:322`, `344`), which is modelled as one step, and so is a save of the queue, which reads it and then writes the file; sends by hand of notes and files are refused; identifiers are drawn at random and taken to be unique.
- ChatDelivery.NothingTwice: speaks of the retained history; an identifier that fell out of the newest 10000 entries can be taken in again.
- Files: the cleaning of file names, the progress shown, the entry in the conversation and the `.pcvmeta` file are not modelled; finished files, parts and markers are kept in separate name spaces; nobody but the daemon changes the inbox; a crash leaves a part without a marker, which nobody resumes.
- Inboxes.Inbox.Begin: choosing a free name and creating the part are one step, while `crates/peercove-cli/src/msg.rs:563-573` and `714-733` leave room for two offers at the same moment to choose the same path.
- Inboxes.NextIsSound: for the same reason excludes that two transfers that begin at the same moment write to one part.
- Names: `merge_zones` and the sockets are not modelled.
- Dates: the offset of the local time is fixed.
- QualityFiles.AgePruningIsSafe: speaks of pruning by age; pruning by size drops the oldest files whatever they hold. Removing a file always succeeds.
- Mentions.SelfShownIff: for candidates no mention of which can begin within a mention of another, or of itself, at an at sign behind a space; `Mentions.CrossingNameHides` shows that the condition is not enough for others.
- Mentions.JudgementsAgreeIff: for the same candidates.
- Mentions: the display of suggestions is not modelled.
- Memo sharing, health probes, UPnP, DNS setup of the operating system, service installation, diagnostics, the IPC types and the views are not modelled: plumbing, or in code that is not part of this model.
