# wireplug: a verified model

wireplug lets WireGuard peers behind NATs find each other. A client (`wireplugd`) announces its own
key, the keys of peers it has lost, and a port to a coordination server (`wpcod`). The server
answers with what those peers announced for this client, and only then stores the announcement. The
client points its WireGuard device at the answer. This project models both programs and the protocol
between them, and proves what they keep to over every interleaving, every run and every input.

Check everything with `dafny verify dfyconfig.toml`.

## What is modelled

**The directory and its server.** `Peering` has the record map with its three operations (lookup,
store, sweep), each as a function and as a method on `Storage` that changes the map in place.
`Handler` is one connection as one piece of code, from the first byte read to the last counter.
`Server` is the whole server as a step machine: any number of connections, the expiry sweeper and
the status writer, three fair readers-writer locks (`FairLock`), and a clock that is set freely. A
step ends where the program can be suspended. `SoloPaths` and `HandledAlone` connect the two models:
a connection by itself ends by counting a failed TLS handshake, if and only if its handshake failed,
and otherwise in an end that the handler allows, with the same output; and the successful one can be
reached. `Refusals` says what becomes of every input that is not accepted, in terms of its bytes.
Every step machine theorem is about all runs:

- `ServerHistory`, `History` and `ServerGuarantees`: the directory is at every moment exactly what
  the latest stores wrote and no later sweep dropped; every answer was announced, for the asker.
- `Rendezvous`: among peers that name each other, one learns another exactly when the other stored
  before it looked up. Since every peer looks up before it stores, no two of them learn each other.
- `ServerProgress`: no deadlock, and without network and timers the server comes to rest within a
  bounded number of steps.
- `Fairness`: nobody who waits for a lock is overtaken, however many connections arrive meanwhile.
- `LockRules`: no two tasks are at program points where one writes what the other reads or writes, and
  a lock is granted exactly when that cannot happen and nobody is ahead.
- `Connections`: nothing is done for a connection before its handshake succeeded, and nothing stored
  before its whole answer is out and the connection closed.
- `Counters`: the two counters have counted everything but what tasks are on their way to count.
- `Sweeper`: the sweeper never stops, and sweeps by the clock as it was when it woke up.
- `StatusWriter`: every report takes the three locks, one after the other.
- `Staleness`: how old a record can be when it is given out.
- `SweepRace`: a record can be swept when it is stored.
- `Limits`: an answer can be too long for the client that asked.

**The wire.** `Postcard` is the body format (Postcard Wire Format, "Varint Encoded Integers" and
"Serde Data Model Types"), with the field order of the message types. `Wire` has frames, the
zero-padded buffer of the server, and both ends of an exchange on a `Stream` that can end early.
`Truncation` is about frames that leave out the end of a body. `Text` has UTF-8, since strings on the
wire are bytes and the key check scans characters; `Utf8` has its meaning.

What is read is held to a description that does not mention the decoders: `Frames` says by the literal
bytes what is a frame, `Grammar` which bytes are a code of which value, and `Messages` that each
decoder reads exactly those, up to the announcement that the server accepts and the answer that the
client receives.

**The client.** `NetStat` is the two-slot network monitor, held to the unbounded history of
observations. `Nat` has the two STUN-style probes and their classification. `OnLink` is the CIDR
arithmetic. `WgInterface` and `WgDevice` have the endpoint cache beside an abstract device, first as
functions, then in place; `EndpointChoice` says which address each kind of answer gives, and exactly
when an update fails. `Daemon` is the endless loop. `DaemonRuns` (timer and ports), `Detection` (when
the NAT is detected), `PeerRuns` (the cache and the list of inactive peers) and `TurnOutcomes` (when a
turn announces, and what ends the daemon) are about its runs.

**The whole way.** `Convergence` goes from the bytes that one client sends, through every
interleaving of the server, to the endpoint that another client's device ends up with. `Traversal`
adds the loops of both clients: after one turn, the other one's cache and device have the port that
the first one's NAT maps its device's listen port to.

`RelayPorts` has the port allocation of the relay manager, `RelayLookup` what lookups ask of it. Relaying is a flag of the model; the server
ships with it off (`server/src/peering.rs:15`).

## Findings

These are places where the code does less than a reader would expect. Each is a theorem here, with
the exact condition where there is one.

- *Two peers that announce at the same time both get nothing* (`Rendezvous.RendezvousOutcome`): both
  are told Unknown if and only if each looked up before the other stored.
- *A record that is stamped after the sweeper's reading of the clock is dropped at once*.
  `Peering.Storage.RemoveOldRecords` has the exact condition. The plain way to get there is a clock
  that is set back (`SweepRace.SetBackClockSweeps`). The other way is a schedule of the model in which
  the sweeper reads the clock and then waits for the lock while a store goes first
  (`SweepRace.FirstRecordCanBeSwept`). The server runs on one thread (`server/src/main.rs:109`) and
  keeps no guard of the storage while it waits for anything that takes long, so that its sweeper
  seldom waits there.
- *An answer can be too long for the client that asked* (`Limits.AnswerCanBeTooLong`), although all
  announcements fit. `Wire.ClientReadsResponse` has the exact condition: 4096 bytes. The server
  stores the announcement anyway.
- *A failed NAT detection is not repeated* (`Detection.FailedDetectionSticks`): the ports stay what
  they were for as long as the client is on that network or offline. `Detection.DetectionTurns` says
  exactly which turns detect. When it is the first detection that fails, the client announces port 0
  (`Detection.FirstFailureSticks`), which the server refuses (`Detection.PortZeroIsRefused`).
- *A spell offline erases the hard-NAT mark* (`NetStat.StatusTellsHistory`). The arm of the code that
  would return HardNat when the network comes back is never taken.
- *An endpoint that the kernel has moved is not set again* when the cache still holds the wanted one.
  `WgInterface.DeviceFollowsUnlessRoamed` has the exact condition.
- *The STUN server's reply can depend on earlier datagrams*, because its buffer keeps old bytes.
  `Nat.ReplyDependsOnDatagramAlone` has the exact condition on the datagram; the shortest one that old
  bytes complete is the empty one (`Nat.EmptyDatagramRepeatsLastRequest`).
- *The padded buffer completes short bodies* (`Wire.PaddingCompletes`): a frame that leaves out the end
  of an announcement is read as that announcement if and only if all it leaves out is zero
  (`Truncation.CutFrameIsRead`). Varint decoding accepts codes no encoder writes;
  `Postcard.DecodeThenEncode` says which.

## Model

| member | source | states |
|---|---|---|
| Text.AsciiScan | shared/src/protocol.rs:14-18 | scanning the characters of a UTF-8 string for a set of ASCII characters gives the same verdict as scanning its bytes |
| Protocol.IsValidWgKey | shared/src/protocol.rs:10-20 | the character scan accepts exactly the strings of 44 bytes that are all base64 characters |
| Protocol.KeyCharIsBase64 | shared/src/protocol.rs:14-18 | a key character is a letter, a digit, `+`, `/` or `=`, all of them ASCII, and nothing else is |
| Utf8.TextIsScalars | shared/src/protocol.rs:14 | a string is the encoding of its characters, which are Unicode scalar values |
| Utf8.ScalarsAreText | shared/src/protocol.rs:14 | the encoding of any scalar values is a string with exactly those characters |
| Handler.CheckAnnouncement | shared/src/protocol.rs:50-54 | the check accepts exactly when the initiator and every peer are valid keys and the port is at least 1024 |
| Postcard.VarintRoundTrip | shared/src/protocol.rs:22-30 | every number within the width's bound decodes from its varint, followed by any bytes, to itself and exactly those bytes |
| Postcard.VarintMeaning | shared/src/protocol.rs:22-30 | a varint written is canonical, and its seven-bit digits, least significant first, are the number |
| Postcard.DecodeThenEncode | server/src/server.rs:79 | a varint accepted re-encodes to the bytes it was read from if and only if it is one byte long or does not end in a zero byte |
| Postcard.AnnouncementRoundTrip | shared/src/protocol.rs:22-30 | decoding an encoded announcement followed by any bytes gives the announcement and exactly those bytes |
| Postcard.EndpointRoundTrip | shared/src/protocol.rs:57-74 | the same for each of the four kinds of endpoint |
| Postcard.ResponseRoundTrip | shared/src/protocol.rs:76-79 | the same for a response written in any iteration order of its hash map: the map comes back |
| Postcard.CollectEnumeration | shared/src/protocol.rs:76-79 | inserting the entries of any enumeration of a map one by one gives the map |
| Postcard.Entries | shared/src/protocol.rs:76-79 | iterating over a hash map yields every entry once |
| Postcard.StunRequestRoundTrip | shared/src/protocol.rs:91-94 | a probe request decodes to its port with any suffix left over |
| Postcard.StunResponseRoundTrip | shared/src/protocol.rs:102-111 | a probe response decodes to its result with any suffix left over |
| Postcard.SelfDelimiting | server/src/server.rs:77-79 | no encoded announcement is the beginning of another one's: equal byte strings mean equal announcements and equal rests |
| Messages.AnnouncementsAreRead | shared/src/protocol.rs:22-30 | an announcement is read from bytes if and only if they begin with a code of it: the fields in order, texts with their length, options and booleans as 0 or 1, numbers of at most 3 or 10 bytes, addresses in network order |
| Messages.ResponsesAreRead | shared/src/protocol.rs:57-79 | the same for an answer: tags 0 to 3 for the kinds of endpoint, and a later entry overrides an earlier one with the same key |
| Messages.StunMessagesAreRead | shared/src/protocol.rs:91-111 | the same for the two messages of a probe |
| Wire.UnframeFrame | client/src/announce.rs:31-54 | the header checks recover the body of a frame whatever follows it, and refuse exactly the bodies longer than 4096 bytes |
| Frames.UnframeByBytes | server/src/server.rs:53-78 | each of the five verdicts on any input, by its literal bytes: FD AC AF 01, the little-endian length, 4096 |
| Frames.BodyIsFramed | client/src/announce.rs:31-54 | a message is taken from nothing but an input that begins with its frame |
| Wire.ServerReadsAnnouncement | server/src/server.rs:53-84 | the server's zero-padded decode recovers and judges the client's announcement when it has at most 4096 bytes, and refuses it as oversized otherwise |
| Wire.ClientReadsResponse | client/src/announce.rs:43-59 | the client reads the server's answer, in any order of its entries, when it has at most 4096 bytes, and refuses it as oversized otherwise |
| Messages.AnnouncementIsAccepted | server/src/server.rs:53-84 | for every input: an announcement is accepted if and only if a frame holds, zero-padded to 4096 bytes, a code of it, its keys are 44 base64 characters and its port is at least 1024; invalid and undecodable are told apart exactly |
| Messages.ResponseIsReceived | client/src/announce.rs:31-59 | for every input: an answer is received if and only if the message of a frame begins with a code of it |
| Wire.PaddingCompletes | server/src/server.rs:77-79 | leaving trailing zero bytes off a body does not change how the server reads the frame |
| Truncation.CutFrameIsRead | server/src/server.rs:77-79 | an announcement's frame cut short anywhere in its body is read as that announcement if and only if every byte cut off is zero |
| Truncation.CutHead | server/src/server.rs:79 | a cut and zero-filled code of two parts whose first part still decodes to its value leaves a cut and zero-filled code of the second |
| Wire.ReadFrame | server/src/server.rs:53-78 | reading a stream piece by piece gives the verdict of the checks on the whole input, and fills the buffer with the body and nothing else |
| Wire.WritePieces | server/src/server.rs:94-99 | the four writes come to one frame, or to the part of it that could be written |
| Wire.SendAnnouncement | client/src/announce.rs:15-60 | the client sends exactly one frame and returns what the frame that arrives decodes to, or reports that writing failed after the part that went out |
| Limits.AnswerCanBeTooLong | client/src/announce.rs:46-52 | from the start of the server, a run stores three valid announcements that fit, and every encoding of the answer to the third is refused by the client as oversized |
| RelayPorts.GetNormalized | server/src/relay/mod.rs:78-90 | copying the two keys in place gives the smaller one followed by the larger one |
| RelayPorts.NormalizedIsUnorderedPair | server/src/relay/mod.rs:78-90 | normalizing ignores the order of the keys and tells any two different unordered pairs apart |
| RelayLookup.SmallerKeyFirst | server/src/relay/mod.rs:78-90 | the key with the smaller byte where the two first differ comes first, in either order of asking |
| RelayPorts.RelayManager.GetRelayPort | server/src/relay/mod.rs:115-146 | the answer and the tables after it are those of the lookup order established, pending, prospective, new; existing entries stay, and a new one has the announcing address |
| RelayPorts.AskAllKeeps | server/src/relay/mod.rs:115-146 | any sequence of calls keeps all entries and adds at most one per call |
| RelayPorts.RelayPortsAreStable | server/src/relay/mod.rs:115-146 | a pair once answered gets the same kind and port again, after any other calls and whichever port is free then |
| RelayPorts.PendingReverseSharesPort | server/src/relay/mod.rs:131-145 | a direction with no entry of its own takes its pending reverse's port, and the reverse keeps that port |
| RelayLookup.EstablishedServesBoth | server/src/relay/mod.rs:121-124 | an established relay answers both directions with its port, whatever else is on record, and changes nothing |
| RelayLookup.PendingComesNext | server/src/relay/mod.rs:125-127 | without an established relay, a pending one answers its own direction with its port, even when a prospective one is on record too, and changes nothing |
| RelayLookup.PortsFromStart | server/src/relay/mod.rs:115-146 | from an empty manager, any calls leave exactly the pairs asked for, each with the port that was free at its first call |
| RelayLookup.LookupAsks | server/src/peering.rs:92-154 | a lookup panics if and only if a relay is established with a relayed peer without a record; otherwise it asks for the relayed peers in turn and answers with the ports on record afterwards |
| Peering.LookupAnswers | server/src/peering.rs:82-158 | an answer names exactly the requested peers and says of each what the records say; with relaying off it neither panics nor touches the relay tables |
| Peering.Storage.GetPeerEndpoints | server/src/peering.rs:82-158 | the loop over the peers computes that answer and those relay tables, and leaves the records alone |
| Peering.Storage.PeerEndpoint | server/src/peering.rs:92-154 | the branches for one peer give the specified endpoint and relay tables, or the panic |
| Peering.Storage.ProcessAnnouncement | server/src/peering.rs:160-186 | from an IPv4 address the loop stores the announcement for every named peer; from an IPv6 address it fails and stores nothing |
| Peering.StoreAllAt | server/src/peering.rs:171-184 | after a store, the record of each named peer has the announcement's addresses, port and relay flag and the stamp of the peer's last mention, and every other record is as before |
| Peering.Storage.RemoveOldRecords | server/src/peering.rs:188-199 | a sweep drops exactly the records at least 3600 s old at the sampled time or stamped after it |
| History.DirectoryIsLatestStore | server/src/peering.rs:160-199 | after any history, the directory has a record at a pair if and only if the latest store for the pair survived every later sweep, and it is what that store wrote |
| History.StoresCommute | server/src/peering.rs:171-184 | stores by different initiators, each with its own stamps, lead to the same directory in every order |
| Handler.HandleConnection | server/src/server.rs:43-109 | whatever arrives, outcome and output are exact: a request that is not accepted changes nothing and is answered by at most a bare header; for an accepted one the directory is read as it was, as much of the answer goes out as there is room for, and it is stored and counted if and only if all of it went out, the close succeeded and the address is IPv4; a panic writes nothing |
| Refusals.RefusedByBytes | server/src/server.rs:53-84 | what becomes of every input that is not accepted, by its bytes: only another version is sent anything, FD AC AF 01 as far as there is room; outcome exact; nothing else changes |
| Refusals.SentIsPrefix | server/src/server.rs:91-99 | as much of the frame of the answer goes out as there is room for, or nothing when its length does not fit in 32 bits |
| Handler.AcceptConnection | server/src/server.rs:131-145 | a failed TLS handshake is counted and changes nothing else; otherwise the connection is handled |
| Handler.Answer | server/src/server.rs:86-108 | the lookup, reply, store and count of an accepted announcement, with the exact output and outcome of every way to fail |
| SoloPaths.EveryPathServes | server/src/server.rs:43-147 | whatever steps one connection takes from its acceptance to its end while no other task moves: a failed handshake is counted and is all, if and only if the handshake failed; otherwise the handler has an outcome with exactly what was sent and exactly what became of directory, relays and counter: refusals, panics, failed writes and closes, IPv6 and stores alike |
| Connections.HandledAfterHandshake | server/src/server.rs:131-145 | in every run, a task that has looked up, replied or stored has had its only handshake by then, and it succeeded |
| Connections.StoredAfterClosing | server/src/server.rs:94-103 | in every run, a task that has stored had sent its whole answer and closed its connection by then, and stored under the IPv4 address the connection came from |
| Counters.CountersAgree | server/src/server.rs:105-136 | at every point of every run, each counter and the tasks on their way to it make up the stores that ask for a relay, and the failed handshakes |
| HandledAlone.StepsServe | server/src/server.rs:43-109 | the successful end can be reached: an accepted request from IPv4 whose answer fits in a frame has a path to its end with the handler's effect, which leaves the other tasks and the locks as they were |
| HandledAlone.SurroundingsAreFree | server/src/server.rs:43-147 | in every state the surroundings decide freely: connections, the clock, the end of a handshake, free ports, whether an answer goes out and in which order, whether the connection closes, clock readings and status reports |
| FairLock.ChangeKeepsAgreement | server/src/server.rs:21 | requesting, granting and releasing keep a lock's readers, writer and queue equal to what the tasks do with it, and never let a reader in beside a writer |
| Server.LocksAlwaysAgree | server/src/peering.rs:89-90 | in every state of every run each lock's holders and waiters are exactly the tasks at the matching program points |
| LockRules.CriticalSectionsExclude | server/src/peering.rs:89-90 | at every point of every run, no two tasks are at program points where one writes records, relay tables or counters that the other reads or writes |
| LockRules.GrantedIff | server/src/server.rs:21 | a lock is granted to a task if and only if the task waits for it, is first in its queue, and nobody is in conflict with the point after it |
| ServerProgress.DeadlockFree | server/src/peering.rs:89-90 | whenever a task waits for or holds a lock, a step that needs neither network nor timer is enabled |
| ServerProgress.RunsAreDeadlockFree | server/src/status.rs:21-25 | the same in every state of every run |
| ServerProgress.LockStepsRunOut | server/src/server.rs:103-107 | without network and timers the number of steps is bounded by the rank of the tasks at the start |
| Fairness.NotOvertaken | server/src/server.rs:21 | along any path on which a task waits for a lock, the lock is granted at most as often as there were requests ahead of it, and each grant moves it one place forward |
| Fairness.WaitingIsBounded | server/src/peering.rs:89-90 | in every run, while a task waits for a lock, the lock is granted fewer times than there were requests for it at the beginning of the wait |
| ServerProgress.Drains | server/src/server.rs:111-147 | from every state in which the locks agree with the tasks, lock steps within that bound lead to one where no task waits for or holds a lock |
| ServerHistory.RunsKeepInv | server/src/server.rs:79-107 | in every state of every run the directory is the replay of the history; each task looks up at most once and in the directory of that moment, replies with what it looked up, and stores only afterwards, for a valid announcement from IPv4 |
| ServerGuarantees.StorageRefinesHistory | server/src/peering.rs:160-199 | under every interleaving the record at (X, Y) is the latest committed announcement by X naming Y unless swept since; it came in on a connection from the recorded IPv4 address and has a port of at least 1024 |
| ServerGuarantees.AnswersWereAnnounced | server/src/peering.rs:92-157 | with relaying off, every answer ever given names exactly the requested peers, says Unknown only of a peer with no record for the asker, and otherwise gives what that peer announced for the asker, on a port of at least 1024 |
| Rendezvous.LookThenStore | server/src/server.rs:86-103 | a task that stored had looked up before, once, for the same announcement |
| Rendezvous.LearnsIffStoredBefore | server/src/server.rs:86-103 | among peers that name each other, i learns j if and only if j's store comes before i's lookup |
| Rendezvous.LearningIsAnIntervalOrder | server/src/server.rs:86-103 | in every run learning is asymmetric and transitive and an interval order, so no two peers of a round learn each other |
| Rendezvous.RendezvousOutcome | server/src/server.rs:86-103 | in every run two peers both get Unknown if and only if each looked up before the other stored; who looks up after all others stored learns them all |
| Staleness.BoundedStaleness | server/src/peering.rs:92-95 | when the clock does not go back, a record read by a lookup is younger than 3600 s plus the time since the last completed sweep read its clock |
| Sweeper.SweeperNeverStops | server/src/main.rs:71-80 | in every state of every run the sweeper sleeps, waits for the storage or sweeps |
| Sweeper.SweepsReadClock | server/src/peering.rs:188-199 | every sweep of every run drops by the clock as it was when its task woke up |
| StatusWriter.ReportsReadAll | server/src/status.rs:17-25 | at every point of every run the status writer has been granted the storage as often as the relay tables and the counters, but for the report it is at, and always in that order |
| Staleness.RunsStayDated | server/src/peering.rs:188-199 | in every state of such a run no record is from the future, and none was an hour old at the last completed sweep's reading |
| SweepRace.FreshRecordCanBeSwept | server/src/peering.rs:188-199 | from every state where one task is next to store and the sweeper sleeps, five steps of the model drop the new record at its own timestamp |
| SweepRace.FirstRecordCanBeSwept | server/src/peering.rs:188-199 | so a run of the model from the start of the server drops its first record at its own timestamp |
| SweepRace.SetBackClockSweeps | server/src/peering.rs:188-199 | from the start of the server, a record is stored, the clock is set back, and the next sweep drops the record |
| NetStat.NetworkMonitor.SetHardNat | client/src/netstat.rs:108-112 | marks the current network, if any, and nothing else |
| NetStat.NetworkMonitor.CheckStatus | client/src/netstat.rs:114-150 | one observation gives the status and slots of the specification that the history lemmas are about |
| NetStat.SlotsTellHistory | client/src/netstat.rs:86-112 | after any observations and marks the slots hold the last seen and the last online network; an online current network equals the last online one, which is never marked, and is marked exactly when the history says so |
| NetStat.StatusTellsHistory | client/src/netstat.rs:114-150 | every status is decided by the history alone: new if and only if online and not the last online network, a return only after an offline spell, HardNat if and only if marked and seen unchanged ever since |
| Nat.StunServer.Receive | server/src/stun.rs:15-60 | the reply is that to the whole buffer, which holds the datagram followed by the old bytes |
| Nat.OverwrittenAt | server/src/stun.rs:15-19 | after a datagram each byte of the buffer is the datagram's where it reaches, and otherwise the old one |
| Nat.ProbeTellsObservedPort | client/src/nat.rs:30-55 | whatever the server's buffer held, the client learns from a probe exactly whether its port was changed on the way and to what |
| Nat.ReplyDependsOnDatagramAlone | server/src/stun.rs:15-48 | the reply to a datagram is the same whatever the buffer held if and only if the datagram has a wrong header byte or holds the port's varint to its end |
| Nat.OldBytesDecide | server/src/stun.rs:15-48 | every other datagram is answered after some datagrams and ignored after others |
| Nat.EmptyDatagramRepeatsLastRequest | server/src/stun.rs:15-48 | the shortest of these: an empty datagram after a request is answered as that request again, judged by the new source port |
| Messages.PortIsAnswered | server/src/stun.rs:27-56 | a buffer with the header and a code of a port is answered in one byte when that port is seen, and otherwise with the port seen |
| Messages.NothingElseIsAnswered | server/src/stun.rs:27-43 | a buffer without a code of a port after the header is not answered |
| Messages.ReplyIsRead | client/src/nat.rs:48-54 | a result is read from a reply if and only if the first 1024 of its bytes and zeros begin with a code of it |
| Nat.DetectionMatchesMapping | client/src/nat.rs:57-96 | detection yields a usable port if and only if both servers saw the same port, and then that one; behind a hard NAT the port is the local one; all four kinds and the inconsistency error are told apart exactly |
| Nat.ProbedMatchesMapping | client/src/nat.rs:57-96 | the same from the bytes of both probes: whatever the servers' buffers held, unless a probe is lost, the detection yields a usable port if and only if the NAT maps the port alike towards both, and then the mapped one, and behind a hard NAT the local one |
| OnLink.ContainsIsPrefix | client/src/utils.rs:62-64 | network <= x <= broadcast holds if and only if the families match and the addresses agree on the bits of the prefix |
| OnLink.OnLinkIsLongerPrefix | client/src/utils.rs:62-64 | two addresses are on link if and only if they are of one family and agree on the longer of their prefixes |
| OnLink.OnLinkIsEquivalence | client/src/utils.rs:62-64 | being on link is reflexive and symmetric, and transitive among equal prefix lengths |
| OnLink.FindLanCandidates | client/src/utils.rs:66-81 | the nested loops compute the candidates that CandidatesInOrder describes; unreadable local addresses count as none |
| OnLink.CandidatesInOrder | client/src/utils.rs:66-81 | the candidates are exactly the peer's addresses on link with one of ours, one per such pair, in order of ours and then of the peer's |
| WgDevice.PeerTracker.Update | client/src/wg_interface.rs:47-67 | a sample that exceeds the recorded one, or is the first, is recorded and counts as activity; any other changes nothing |
| WgDevice.InitPeersActivity | client/src/wg_interface.rs:384-395 | submits every peer the device shows, in its order |
| WgDevice.GetInactivePeersByRx | client/src/wg_interface.rs:421-435 | returns, in device order, exactly the peers without a handshake or with a counter not above the one on record before the call |
| WgDevice.UpdatePeer | client/src/wg_interface.rs:266-304 | sets device and cache together or changes neither, and reports whether it set them |
| WgDevice.ApplyEntry | client/src/wg_interface.rs:315-372 | the address is chosen per kind of endpoint, IPv6 first when both sides have it; without one, nothing changes |
| WgDevice.UpdatePeers | client/src/wg_interface.rs:306-375 | the loop over some order of the answer leaves device, cache and returned list as the specification of that order, stopping at the first error |
| WgInterface.ScanFindsQuietPeers | client/src/wg_interface.rs:421-435 | a scan that updates the tracker as it goes finds the peers that are quiet by the tracker as it was before |
| WgInterface.UpdateSettles | client/src/wg_interface.rs:306-375 | an update fails if and only if one of its entries would by itself; otherwise every wanted endpoint is set, the list has exactly the changed peers, each once, and all else is untouched |
| EndpointChoice.TargetByKind | client/src/wg_interface.rs:315-372 | each kind of endpoint gives an address, an error or neither, as its addresses, ours and the relay say; the LAN address is the first on link in order of ours and then of the peer's |
| EndpointChoice.UpdateFailsExactly | client/src/wg_interface.rs:266-375 | an update fails if and only if for some entry with a readable key there is no usable address, the relay does not resolve, the peer is not tracked, or the device is asked and refuses |
| EndpointChoice.UpdateFollowsAddresses | client/src/wg_interface.rs:306-375 | otherwise every peer with an address has it, by that description alone, and the others are untouched |
| EndpointChoice.UpdateStopsAtFirstError | client/src/wg_interface.rs:306-375 | whatever the keys, a failed update leaves device and cache as the entries before the first failing one made them |
| WgInterface.UpdateIsOrderIndependent | client/src/wg_interface.rs:306-375 | every iteration order of an answer fails or succeeds alike, and succeeds with the same device, cache and set of returned peers |
| WgInterface.UpdateIsIdempotent | client/src/wg_interface.rs:281-286 | repeating a successful update, in any order, changes nothing and returns no peer |
| WgInterface.DeviceFollowsUnlessRoamed | client/src/wg_interface.rs:272-303 | after a successful update the device uses a wanted endpoint if and only if the cache did not already hold it or the device already used it |
| WgInterface.CacheStaysCoherent | client/src/wg_interface.rs:266-304 | if only the client moves endpoints, cache and device agree after any sequence of scans and updates, failed ones included |
| WgInterface.CountersAreRunningMaxima | client/src/wg_interface.rs:47-67 | after any sequence of operations the counter on record for each peer is the largest sample ever submitted for it |
| Daemon.HandleInactivePeers | client/src/daemon.rs:16-50 | one to three announcements, of which only the last one can be answered; the answer updates the device, and the list is left with exactly the peers that were not moved, in their order; without an answer nothing changes |
| Daemon.Monitor.ChangeNetwork | client/src/daemon.rs:86-120 | a new network takes a port into use, restarts the list and moves the timer, or leaves off where the detection or the device fails |
| Daemon.Monitor.CheckAndAnnounce | client/src/daemon.rs:123-142 | the inactivity check when it is due, then the announcement of the listed peers |
| Daemon.Monitor.TakeTurn | client/src/daemon.rs:76-144 | one turn of the loop leaves the state that the run lemmas are about |
| Daemon.MonitorInterface | client/src/daemon.rs:65-145 | a device that cannot be read ends the daemon; otherwise all its peers are entered in the cache, and the loop over any number of turns, up to the first fatal error, leaves the state of the run |
| DaemonRuns.TimerBound | client/src/daemon.rs:72-124 | at every loop head the next check is at start + 25 s * (1 + changes + checks); each check happens after 25 s * (changes + checks) and the next one is due within 25 s * (1 + changes since) of the last |
| DaemonRuns.AnnouncementsMatchDevice | client/src/daemon.rs:86-141 | every announcement carries the port of the same detection as the device's listen port, 0 only before the first success, and the addresses of the network the turn saw, and asks for a relay only in the turn that detected a hard NAT, with the listen port itself |
| DaemonRuns.AnnouncedPortMatchesNat | client/src/daemon.rs:86-120 | with endpoint-independent NATs and detections made by probes over the wire, if the latest change of network was completed, every announced port is the NAT's image of the listen port and no relay is asked for |
| Detection.RunIsHistory | client/src/daemon.rs:76-105 | the loop's network monitor is at every loop head what its history of observations and marks makes of it, with one log entry a turn |
| Detection.DetectionTurns | client/src/daemon.rs:80-121 | a turn detects the NAT if and only if it is the first or is online on another network than the one last seen online; it takes a port into use if and only if moreover detection and device succeed |
| Detection.FailedDetectionSticks | client/src/daemon.rs:88-97 | after a detection failed on an online network, ports and listen port stay the same while the client is on that network or offline |
| Detection.FirstFailureSticks | client/src/daemon.rs:75-97 | when the first detection fails, no port is taken into use and only port 0 is announced while the client is on that network or offline |
| PeerRuns.RunDoes | client/src/daemon.rs:76-144 | device and cache of a run are what a sequence of scans and updates makes of them, which submits exactly the samples of the turns' checks |
| PeerRuns.CountersOfRunAreMaxima | client/src/daemon.rs:66-126 | at every loop head the counter on record for a peer is the largest sample submitted for it since the daemon started |
| PeerRuns.CheckFindsInactive | client/src/daemon.rs:123-127 | a check of a run finds a peer inactive if and only if it never shook hands or its counter does not exceed every sample submitted for it since the daemon started |
| PeerRuns.TurnUpdates | client/src/daemon.rs:25-42 | a turn that announces and is answered leaves device and cache as an update by that answer does, and ends the daemon if and only if that update fails |
| PeerRuns.CacheOfRunIsCoherent | client/src/daemon.rs:66-144 | from the start of the daemon on, cache and device agree at every loop head as long as only the client moves endpoints, failed turns included |
| PeerRuns.UpdatedAreMoved | client/src/wg_interface.rs:306-375 | an update reports exactly the peers whose endpoint in the cache it changes |
| PeerRuns.TurnAnnouncesList | client/src/daemon.rs:118-141 | every announcement asks for exactly the listed peers: those the turn's check found quiet, or else all of them on a new network, or else the list as it was |
| TurnOutcomes.TurnAnnounces | client/src/daemon.rs:76-143 | a turn of a live daemon announces if and only if its network is an old one or was taken into use, no due check fails to read the device and the list is not empty; then once for each try up to the first answered one, three at most |
| TurnOutcomes.UnansweredTurn | client/src/daemon.rs:25-50 | a turn without an answered announcement does no more to device and cache than its check, and keeps its list |
| TurnOutcomes.TurnEndsDaemon | client/src/daemon.rs:76-143 | a turn ends the daemon if and only if the device refuses the new port, its peers cannot be read, a due check cannot read it, or the update by the first answer fails |
| PeerRuns.InactiveUntilMoved | client/src/daemon.rs:118-142 | a peer is on the list if and only if it was on it when the list was last made and has not been given another endpoint since |
| Detection.PortZeroIsRefused | server/src/server.rs:81-84 | an announcement of port 0 is parsed and refused |
| Convergence.ReplyCarriesAnswer | server/src/server.rs:90-99 | in every history a run can have, the frame a task sent is read by the client as the answer that task looked up, or refused as oversized |
| Convergence.AnswerFollowsRecord | server/src/peering.rs:92-155 | the record that X had left for Y determines what Y's lookup is told of X |
| Convergence.RecordIsAnnounced | server/src/server.rs:77-103 | the record a lookup finds has the port, IPv6 address, LAN addresses and relay flag of the announcement whose bytes came in on the storing connection, and that connection's address |
| Convergence.UpdateReachesRecord | client/src/wg_interface.rs:314-374 | a successful update with an answer made from a record leaves the cache at the endpoint chosen from that record, and the device too if and only if the cache did not hold it or the device already used it |
| Convergence.DeviceConverges | client/src/wg_interface.rs:306-375 | while B's stored announcement naming A is the latest and not swept, any successful announcement of A naming B leaves A's cache at B's announced port and the address chosen from B's IPv6 address, LAN addresses and observed IPv4 address; A's device too, if and only if the cache did not hold that endpoint or the device already used it |
| Traversal.LookedForSent | server/src/server.rs:77-88 | a lookup is made for the announcement whose bytes came in on its connection |
| Traversal.ReplyUpdates | client/src/wg_interface.rs:306-375 | an update by the reply to A's message, whose lookup found B's record, leaves A's cache and device at the endpoint chosen from what B's message said |
| Traversal.DeviceIsGivenMappedPort | client/src/announce.rs:62-98 | when B's daemon, behind endpoint-independent NATs, announces itself and a turn of A's daemon asks for B and gets the server's reply, A's cache has B at the next loop head at the port that B's NAT maps B's listen port to and the address chosen from B's network; A's device too, if and only if the cache did not hold that endpoint or the device already used it |

## Left out

- TLS, sockets, the async runtime and Unix sockets: a connection is the bytes that arrive before it ends and the room for writing; in the step machine the four writes of a reply are one step.
- Device and netlink commands: the device is a listen port, endpoints, counters and handshakes whose updates succeed or fail as a whole.
- Time that passes inside a critical section: a lookup is one step, and the readings of the clock during a store are its stamps.
- Detection of addresses, DNS and HTTPS lookups and the random port are inputs; a relay name that does not resolve is one error, although the program panics where the lookup succeeds with no address.
- `relay/mod.rs` beyond `get_relay_port`: promotion of prospective relays, removal and packet filter rules are unfinished there; the byte form of a key and the choice of a free port are parameters, and pending and established entries keep only their ports.
- Cryptographic meaning of keys: parsing a key text is a parameter, assumed injective where the order of an answer matters.
- Widths of counters, of usize (64 bits here) and of lengths held in memory: receive counters and statistics are unbounded, and round trips assume encodings shorter than 2^64 bytes.
- Configuration, command line, logging, status text, sizes for display, daemonizing and privileges: formatting and setup only.
- `bpf/` and `wppriv`: platform capture and privilege code that the protocol does not depend on.
- Wire.SendAnnouncement: a wrong version in the answer is the outcome NoReply(WrongVersion); the client program exits there. A body of 4 GiB or more, where the client panics, is excluded.
- Peering.Storage.RemoveOldRecords: `retain` is one map comprehension instead of a loop over the table.
- Daemon.Monitor: keeps device and cache as one value, and a turn's answers as inputs, instead of holding the `WgDevice` objects; the sleeps between turns are in the times of the turns.
- Periods: the sweeper and the status writer may wake at any moment, not only after 60 and 3 seconds.
