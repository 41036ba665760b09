# l3-firewall: verified model

A Dafny model of the stateful core of l3-firewall, a packet firewall that judges NFQUEUE packets with
an embedded policy, and proofs of what its parts keep over whole runs.

| component | files |
|---|---|
| policy sync from etcd: reconnecting watch, deduplication, one-slot queue, reload rate limit | `SyncModel.dfy`, `SyncTheorems.dfy`, `SyncLoop.dfy` |
| packet parser: IPv6 header chain, L4 fields, IPv4 and IPv6 headers | `Packet.dfy`, `PacketTheorems.dfy`, `HeaderTheorems.dfy` |
| connection table: flows and companion maps, eviction, TCP states, rate ring | `TcpState.dfy`, `ConnRing.dfy`, `Conntrack.dfy`, `ConnTheorems.dfy`, `ConnRates.dfy`, `ConnTable.dfy` |
| EWMA rate limiter; the eviction it shares with the table | `RateLimit.dfy`, `RateTheorems.dfy`, `Eviction.dfy` |
| policy hot reload: two-lock swap, file polling | `Evaluator.dfy`, `PolicyFile.dfy` |
| capture files: rotation and retention | `Capture.dfy`, `CaptureTheorems.dfy`, `StringOrder.dfy`, `Decimals.dfy` |
| threat-intelligence blocklist | `Blocklist.dfy` |
| engine: gates, counters, block log, verdicts; its use of the connection table, the limiter and the blocklist | `Engine.dfy`, `EngineTheorems.dfy`, `Pipeline.dfy`, `Throttle.dfy`, `Screening.dfy` |

`dafny verify dfyconfig.toml` checks everything.

How it is built. Each component has a step function on values. The code that works by changing
fields is a class, or a method with the source's loops, proved equal to that step function; the
theorems are about runs of steps, of any length, in any order. What the surroundings decide is an
input of the step: clock readings, the order in which a Go map is ranged over, what etcd, the file
system, the compiler and the other threads do. Times are whole nanoseconds, rates are `real`.
Addresses are normalised by a function parameter; where a proof needs it to be idempotent, it says so.
Small lemmas beside the theorems, without a row below, fix defaults, limits and single exits, such as
`DefaultTimeouts`, `DefaultCapacity`, `DefaultPorts`, `DefaultRetention`, `GateReason`, `PolicyReason`,
`FailedRotationLeaves`, `OversizedIsSkipped`, `FirstPollLoads`, `TrackDrives`, `RateIsReciprocal`,
`UnlimitedKeepsAll` and `OtherProtocolsOpenPlainly`.

Where the code and its description differ, the model follows the code:

- A resync that reads an empty value does not drop the queued policy (`EmptyResyncRegresses`); all
  other resyncs cannot regress (`InOrderExactly`).
- The last event of an oversized response is not always the latest policy (`CollapseKeepsDue`,
  `CollapseLosesPolicy`).
- The description in `opa-demos/README.md` has SYN_RECEIVED lead to ESTABLISHED; no packet does that
  (`EstablishedExactly`, `BareSynNeverEstablishes`).
- The evaluator's field for the current policy source is not the governing policy after a failed
  prepare (`PolicyFieldTracksCompiles`, `PolicyFieldExample`).
- The load that was issued last need not govern: the order is that of the lock (`LatestLoadGoverns`,
  `IssueOrderExample`).
- Capture names stop sorting numerically at index 100000 (`NameOrder`), so that a scan can keep a stale
  file and remove a newer one (`InversionNeedsSixDigits`, `InvertedRetention`); and the index-based retention
  cap has a hole for every failed rotation (`OwnFileKeptExactly`, `FailedRotationExample`).
- `GetSrcFlowCount` does not normalise its argument (`FlowCountNeedsNormalSpelling`,
  `FlowCountExample`).
- Some recovered panics count a dropped packet as allowed (`AllowedExceedsAccepted`,
  `TwicePanickingPacket`).
- A policy file swapped between the stat and the read of one poll moves the record back
  (`MovesForwardExactly`, `SwappedEntryReloads`).
- Port history outlives the last flow of a source when expiry falls late between the two table calls of
  a packet (`PortHistoryExactly`, `LateSweepLeavesPorts`).

## Model

| member | source | states |
|---|---|---|
| `SyncLoop.Syncer.ApplyPolicy` | internal/syncer/syncer.go:122-130 | content equal to the last processed content is reported unchanged; otherwise it becomes the last processed content |
| `SyncLoop.Syncer.LoadCurrent` | internal/syncer/syncer.go:132-184 | errors, a missing key and an oversized value read nothing; new content is applied at once, outside the rate limit |
| `SyncLoop.Syncer.FlushPending` | internal/syncer/syncer.go:231-248 | the slot is applied only when set and a full interval after the end of the previous watch-path reload |
| `SyncLoop.Syncer.HandleResponse` | internal/syncer/syncer.go:304-369 | one watch response: flush, collapse to the last event when oversized, skip malformed, deleted and oversized events, queue new content, flush |
| `SyncLoop.Syncer.Resync` | internal/syncer/syncer.go:383-408 | after a termination the key is read again and a slot it supersedes is dropped |
| `SyncLoop.Syncer.Watch` | internal/syncer/syncer.go:250-416 | the nested loops compute exactly the run of steps the theorems are about |
| `SyncTheorems.StepSettles` | internal/syncer/syncer.go:317-408 | the last processed content is in the slot or was just applied after a step if and only if the step is not a resync that reads an empty value over a queued policy |
| `SyncTheorems.SlotOrApplied` | internal/syncer/syncer.go:219-248 | between all steps of a run the slot holds the last processed content or the last call applied it, in exactly the runs without such a resync: a dropped slot is always backed by an apply |
| `SyncTheorems.ReplaysAreIgnored` | internal/syncer/syncer.go:353-358 | a response whose usable events all carry the last processed content leaves what its two flushes leave |
| `SyncTheorems.CallsOnlyForChanges` | internal/syncer/syncer.go:122-130 | in every run the policy is recompiled at most as often as the delivered content, of events and Gets in order, differs from the one before |
| `SyncTheorems.OversizedIsIgnored` | internal/syncer/syncer.go:343-351 | in no run is content of more than ten mebibytes processed, queued or applied |
| `SyncTheorems.SmallIsProcessed` | internal/syncer/syncer.go:343-358 | content of at most that size becomes the last processed one, from a response as from a Get |
| `SyncTheorems.CollapseKeepsDue` | internal/syncer/syncer.go:308-322 | looking only at the last event of a response leaves the same policy due to govern if and only if that event is a usable PUT, or the response changes nothing |
| `SyncTheorems.CollapseLosesPolicy` | internal/syncer/syncer.go:25-27 | a response of 10001 events whose last one is a deletion leaves any written policy neither applied nor queued, against the comment that the last event is the latest policy |
| `SyncTheorems.NeverRegresses` | internal/syncer/syncer.go:387-408 | with events in write order and Gets that read the newest write, and no resync reading an empty value over a queued policy: over any number of terminations and resyncs the calls of a run replay the write history at non-decreasing positions: no older policy is applied after a newer one |
| `SyncTheorems.EmptyResyncRegresses` | internal/syncer/syncer.go:404-408 | every excluded resync of every run, followed by a timer, applies the queued older policy on top of the newer empty one |
| `SyncTheorems.InOrderExactly` | internal/syncer/syncer.go:387-408 | a run applies its policies in write order, wherever it is cut and whenever its timer then fires, if and only if it has no such resync |
| `SyncTheorems.EmptyResyncExample` | internal/syncer/syncer.go:170-183 | such a run exists |
| `SyncTheorems.ReloadRate` | internal/syncer/syncer.go:186-201 | watch-path reloads begin a full interval after the previous one ended, reconnects included, so a window holds at most its length in intervals plus one |
| `SyncTheorems.TimerIsLateEnough` | internal/syncer/syncer.go:255-265 | the timer armed for a queued policy does not fire before its interval has passed, waits no longer than that takes, and at least a millisecond |
| `SyncTheorems.SlotIsFlushed` | internal/syncer/syncer.go:304-372 | at any timer or response once the interval has passed, the next call carries the slot |
| `Packet.WalkHeaderChain` | internal/packet/parser.go:231-288 | the loop over the header chain computes the recursive walk and terminates on every byte string |
| `Packet.PopulateL4FromBytes` | internal/packet/parser.go:308-352 | protocol name, fields and the incomplete mark are filled in from the bytes at the offset, and nothing else of the record changes |
| `Packet.ParseIPv4Packet` | internal/packet/parser.go:81-154 | the in-place IPv4 parser computes the parse function, errors included |
| `Packet.ParseIPv6Packet` | internal/packet/parser.go:374-413 | the in-place IPv6 parser computes the parse function, errors included |
| `Packet.ParsePacket` | internal/packet/parser.go:63-79 | version dispatch and its two error cases |
| `PacketTheorems.WalkConsumes` | internal/packet/parser.go:236-287 | walking an encoded chain of any length consumes exactly its headers and goes on with the protocol behind it |
| `PacketTheorems.WalkEncoded` | internal/packet/parser.go:182-288 | round trip: protocol, offset, header names in order and fragment state of any well-formed chain are read back; with no byte behind it the offset is -1 |
| `PacketTheorems.WalkNonFirst` | internal/packet/parser.go:256-275 | behind any chain a Fragment header with a non-zero offset ends the walk with its protocol, offset and flag, and no L4 header |
| `PacketTheorems.WalkCut` | internal/packet/parser.go:236-255 | a packet that ends before or within the next extension header is reported as that header, which is named if any byte of it is there, and resolves no L4 header |
| `PacketTheorems.WalkOverrun` | internal/packet/parser.go:276-287 | an options header that claims more bytes than there are resolves no L4 header; the protocol it announces is reported |
| `PacketTheorems.WalkIsExact` | internal/packet/parser.go:199-230 | an L4 header is resolved at an offset if and only if the bytes before it are a well-formed chain announcing it: no header is skipped or invented |
| `PacketTheorems.ExtensionHeadersAreTransparent` | internal/packet/parser.go:218-224 | prepending any chain leaves protocol name, ports, flags, ICMP fields and the incomplete mark unchanged |
| `PacketTheorems.NothingInvented` | internal/packet/parser.go:63-352 | for every byte string: it is refused exactly when it is no fixed header of a version 4 or 6 packet; otherwise fields come from a complete header at the resolved offset or are zero, the incomplete mark is set exactly when a known header does not fit or an IPv4 first fragment has IHL below 5, and later fragments report neither |
| `PacketTheorems.ProtocolNameInjective` | internal/packet/parser.go:359-372 | a protocol name stands for one protocol number |
| `HeaderTheorems.SegmentRoundTrip` | internal/packet/parser.go:315-351 | ports, the four flags, ICMP type and code of any written TCP, UDP or ICMP header are read back, whatever the other bits are |
| `HeaderTheorems.V4RoundTrip` | internal/packet/parser.go:102-153 | addresses, protocol and fragment state of any written IPv4 header are read back; first fragments show the L4 fields behind any options, later fragments none |
| `HeaderTheorems.V6RoundTrip` | internal/packet/parser.go:374-413 | addresses, header names, protocol, size and the fragment state of the last Fragment header written are read back behind any chain; the payload shows its L4 fields or is marked |
| `HeaderTheorems.V6LaterFragment` | internal/packet/parser.go:256-275 | behind any chain a later fragment is reported with its offset, its more-fragments bit and its protocol, and no L4 field or mark |
| `HeaderTheorems.CutSegmentIsMarked` | internal/packet/parser.go:308-352 | a TCP, UDP or ICMP segment is marked incomplete if and only if it is cut within its first 20, 8 or 4 bytes, in both families, and then shows no field |
| `HeaderTheorems.OtherProtocols` | internal/packet/parser.go:354-372 | a protocol the parser knows no header of is reported by number, with nothing read or marked |
| `HeaderTheorems.FamiliesAgree` | internal/packet/parser.go:115-129 | one segment is judged alike, under its own protocol name, behind IPv4 options and behind any IPv6 chain, whole or as a first fragment |
| `ConnRing.RecordAt` | internal/conntrack/table.go:203-211 | one connection is counted in the slot of its second, a stale slot being restarted |
| `ConnRing.RateAt` | internal/conntrack/table.go:219-228 | the summing loop computes the window rate |
| `ConnRing.RingRefinesHistory` | internal/conntrack/table.go:190-228 | for every chronological history ten times the ring rate is the number of its entries in the last ten seconds: ten slots lose nothing |
| `ConnRates.RingIsHistory` | internal/conntrack/table.go:357-367 | in every run the ring of a source is that of its creation times since it last had no flow, through evictions, deletions and expiry |
| `ConnRates.RateIsExact` | internal/conntrack/table.go:369-388 | in every run with a positive clock that does not go back, at every moment, ten times the reported rate is the number of flows the source created in the last ten seconds since it last had no flow |
| `ConnTable.Drive` | internal/conntrack/table.go:428-494 | the switch computes the transition function, and the opening state of a new flow |
| `ConnTable.Table.LookupOrCreate` | internal/conntrack/table.go:299-349 | existing flows are touched, a source at its limit is refused, otherwise room is made and the flow, its counters and its ring are created |
| `ConnTable.Table.UpdateTCPState` | internal/conntrack/table.go:393-497 | the same, with the TCP record driven by the flags |
| `ConnTable.Table.DeleteFlow` | internal/conntrack/table.go:500-510 | a present flow is removed and its companions trimmed; an absent one changes nothing |
| `ConnTable.Table.ExpireIdle` | internal/conntrack/table.go:514-532 | collects the overdue keys of the range and removes them one by one; returns how many |
| `ConnTable.Table.EvictOne` | internal/conntrack/table.go:545-565 | the bounded scan removes the oldest of the sample |
| `ConnTable.Table.DecrFlowCount` | internal/conntrack/table.go:627-636 | the last flow of a source takes its counter, ports and ring with it |
| `ConnTable.Table.RecordDestPort` | internal/conntrack/table.go:569-584 | a new port is appended unless it is known or the list is full |
| `ConnTable.Table.ConnectionRate` | internal/conntrack/table.go:379-388 | an unknown source has rate 0, a known one that of its ring |
| `ConnTheorems.RunKeeps` | internal/conntrack/table.go:299-636 | in every run each source counter is the number of its flows, exactly the sources with flows have a counter and a ring, all limits hold, port lists have no duplicates, and created = present + expired + evicted + deleted |
| `ConnTheorems.EvictsOldestOfSample` | internal/conntrack/table.go:534-565 | a full table loses one flow and none of the first sixteen ranged over was quiet longer |
| `ConnTheorems.ExpiryIsExact` | internal/conntrack/table.go:285-294 | expiry keeps exactly the flows idle no longer than their protocol allows |
| `ConnTheorems.ExpiryIgnoresOrder` | internal/conntrack/table.go:519-530 | the random map order makes no difference to any of the maps expiry leaves |
| `ConnRates.EveryPacketAnswered` | internal/conntrack/table.go:307-342 | in every run each packet is exactly one of a hit, a new flow and a refusal |
| `ConnRates.KeyExactly` | internal/conntrack/table.go:299-305 | packets belong to one flow if and only if their addresses have the same normal form and protocol and both ports are the same |
| `ConnRates.OneFlowPerFiveTuple` | internal/conntrack/table.go:299-349 | in every run without a lost flow or a refused packet the flows are exactly the normal five-tuples seen |
| `ConnRates.RefusedExactly` | internal/conntrack/table.go:603-608 | a packet of an unknown flow is refused if and only if its source has as many flows as it may, and then only the refusal is recorded |
| `ConnRates.FlowAge` | internal/conntrack/table.go:120-124 | as long as a flow stays, it counts each of its packets once and its last-seen stamp is that of the latest |
| `ConnRates.FlowLife` | internal/conntrack/table.go:428-496 | as long as a flow stays, its TCP record follows its own segments alone: at most five changes, never CLOSE_WAIT, coherent flag, and CLOSED is final |
| `ConnRates.RstEndsFlow` | internal/conntrack/table.go:428-432 | in every run a RST on a flow closes it in whatever state it is, for as long as it stays |
| `ConnRates.PortsStayPruned` | internal/conntrack/table.go:616-636 | every operation keeps port history to sources with a flow, except recording a port for a source without one |
| `ConnRates.PortRecorded` | internal/conntrack/table.go:569-584 | a port is remembered if and only if it was known or the list had room; earlier ports and other sources keep theirs |
| `ConnRates.FlowCountNeedsNormalSpelling` | internal/conntrack/table.go:639-643 | this getter alone does not normalise: it reports the flows of an address if and only if given the normal spelling or there are none |
| `ConnRates.FlowCountExample` | internal/conntrack/table.go:639-643 | a run in which the address has one flow and its IPv4-mapped spelling is reported to have none |
| `TcpState.LifeOfAFlow` | internal/conntrack/table.go:393-497 | under every packet sequence at most five changes, CLOSED final whenever it is reached, CLOSE_WAIT never reached, flag true in ESTABLISHED and false in CLOSED |
| `TcpState.StaysCoherent` | internal/conntrack/table.go:428-488 | the established flag rises only on leaving SYN_SENT |
| `TcpState.FiveChanges` | internal/conntrack/table.go:441-487 | five changes do occur |
| `TcpState.EstablishedExactly` | internal/conntrack/table.go:434-445 | exactly which packet sequences reach ESTABLISHED |
| `TcpState.ClosedExactly` | internal/conntrack/table.go:428-488 | exactly which packet sequences end in CLOSED: those with a RST, in whatever state, and those with an orderly close of four packets |
| `TcpState.FlagExactly` | internal/conntrack/table.go:428-494 | exactly when a flow is reported established: from its confirmation, or a pure ACK that opened it, until it is closed |
| `TcpState.BareSynNeverEstablishes` | opa-demos/README.md:135 | a flow opened by a bare SYN never reaches ESTABLISHED and never reports it, unlike the documented path |
| `TcpState.PureAckReportsEstablished` | internal/conntrack/table.go:490-494 | a flow opened by a pure ACK reports established from SYN_RECEIVED on, until it is closed |
| `Pipeline.TableRun` | internal/engine/engine.go:271-303 | what packets and the expiry ticker do to the table, interleaved in any way, is a run of the table |
| `Pipeline.PortIsNoted` | internal/engine/engine.go:300-303 | a TCP or UDP packet that is not refused leaves its destination port in the history of its source unless that is full; no other packet does |
| `Pipeline.PortHistoryIsBounded` | internal/engine/engine.go:271-303 | in every run of packets and expiries counters and rings number at most the capacity of the table; so does port history, kept only for sources with a flow, if no expiry separates the two table calls of a packet by more than the idle timeout; each port list has its own cap |
| `Pipeline.PortHistoryExactly` | internal/engine/engine.go:300-303 | whatever the timing, that holds throughout a run if and only if every recorded port is for a source that still has a flow then |
| `Pipeline.LateSweepLeavesPorts` | internal/engine/engine.go:634-648 | an expiry that comes later between the two calls leaves a port behind for a source without a flow |
| `RateLimit.UpdateBucket` | internal/ratelimit/ratelimit.go:74-99 | the estimator update, with the substitute for a non-positive gap and both clamps |
| `RateLimit.Limiter.Allow` | internal/ratelimit/ratelimit.go:148-154 | the packet is recorded in the bucket of its address, and its rates are returned |
| `RateLimit.Limiter.AllowPort` | internal/ratelimit/ratelimit.go:158-164 | the packet is recorded in the bucket of its address and port |
| `RateLimit.Limiter.GetOrCreateBucket` | internal/ratelimit/ratelimit.go:112-122 | a missing bucket is created after making room |
| `RateLimit.Limiter.EvictOneSampled` | internal/ratelimit/ratelimit.go:126-145 | the bounded scan removes the oldest of the sample |
| `RateLimit.Limiter.CleanupIdle` | internal/ratelimit/ratelimit.go:217-230 | deleting while ranging leaves exactly the buckets that are not idle, in any order, and returns how many went |
| `RateTheorems.SteadyRate` | internal/ratelimit/ratelimit.go:81-90 | from any estimate b, at a constant rate R, the estimate after n further packets is R + (b - R) * 0.7^n |
| `RateTheorems.ConstantRateIsJudged` | internal/ratelimit/ratelimit.go:192-194 | whatever a source did before, after finitely many packets at a constant rate it is flagged if and only if that rate is above the limit, or equal to it with an estimate that was above: a flagged source that slows down is cleared; one that was not flagged and is not too fast never is |
| `RateTheorems.SteadyInRun` | internal/ratelimit/ratelimit.go:147-154 | in any run, whatever happens to other keys, the bucket of a source that keeps its pace is the steady one |
| `RateTheorems.SteadySourceIsJudged` | internal/ratelimit/ratelimit.go:147-194 | in every run such a source is judged as its rate deserves after finitely many packets, how many depending on its estimate, its rate and the limit alone |
| `RateTheorems.NewSourceStartsAtOne` | internal/ratelimit/ratelimit.go:84-86 | the first packet of a key sets its estimate to 1, so a new source at or below a limit of 1 or more is never flagged while it keeps its rate |
| `RateTheorems.SteadyBytes` | internal/ratelimit/ratelimit.go:82-90 | at a constant rate and size the byte rate stays the size times the packet rate, as it is in a new bucket |
| `RateTheorems.ByteLimitIsPacketLimit` | internal/ratelimit/ratelimit.go:192-194 | so a byte limit flags such a source exactly when the packet limit that is its size-th part would |
| `RateTheorems.PacedIsBounded` | internal/ratelimit/ratelimit.go:112-145 | with gaps of at least g and sizes up to 65535 the rates stay in (0, max(1, 1/g)] packets and that many packets of bytes, through evictions and cleanups |
| `RateTheorems.PacedIsNeverFlagged` | internal/ratelimit/ratelimit.go:186-194 | a source paced at or below a limit of at least 1 is never flagged |
| `RateTheorems.ClampsNeverFire` | internal/ratelimit/ratelimit.go:92-97 | with a whole-nanosecond clock that may go back and sizes up to 65535 neither clamp is reached in any run |
| `RateTheorems.RatesAreCapped` | internal/ratelimit/ratelimit.go:92-98 | whatever the sizes and the clock no run reports more than 1e9 packets or 1e15 bytes per second |
| `RateTheorems.BucketsBounded` | internal/ratelimit/ratelimit.go:115-117 | no run holds more buckets than the maximum |
| `RateTheorems.StampIsLastSent` | internal/ratelimit/ratelimit.go:75-79 | in every run a bucket is stamped with the latest packet of its key |
| `RateTheorems.EvictsOldestOfSample` | internal/ratelimit/ratelimit.go:124-145 | a new key in a full table displaces one bucket, no sampled one being older, and touches no other |
| `RateTheorems.KeysAreDistinct` | internal/ratelimit/ratelimit.go:63-71 | budgets of different addresses, and of the ports of one address, never share a bucket, although addresses contain the separator |
| `Evaluator.EmbeddedEvaluator.Load` | internal/opa/embed.go:144-191 | empty, uncompilable and wrong-package sources change nothing; a source that does not prepare replaces compiler and policy but not the prepared query |
| `Evaluator.EmbeddedEvaluator.Rebuild` | internal/opa/embed.go:194-216 | the prepared query is replaced only when preparing succeeds |
| `Evaluator.NewEmbedded` | internal/opa/embed.go:103-134 | an evaluator exists exactly for sources that compile, declare the package and prepare |
| `Evaluator.SoloLoad` | internal/opa/embed.go:154-190 | the steps of one uninterrupted thread do what Load does as a whole |
| `Evaluator.LastGoodPolicyGoverns` | internal/opa/embed.go:144-191 | after any sequence of loads the last policy that is not empty, compiles, declares the package and prepares governs |
| `Evaluator.LatestLoadGoverns` | internal/opa/embed.go:144-216 | in every interleaving and at every moment the prepared query is that of the latest successful load in the order of loadMu, or of the boot policy, whichever loads failed at whichever stage; and that of the load under way exactly once it is installed |
| `Evaluator.NeverRevertsToOlder` | internal/opa/embed.go:149-155 | of two evaluations in a run, the one that reads its query later reads that of the same or a later load |
| `Evaluator.ReadsNothingOlder` | internal/opa/embed.go:228-230 | an evaluation never reads a query older than that of a load that had succeeded at any moment before it |
| `Evaluator.EmptyNeverGoverns` | internal/opa/embed.go:144-147 | in no interleaving does an empty source govern |
| `Evaluator.PolicyFieldTracksCompiles` | internal/opa/embed.go:173-181 | at every moment, during loads too, the policy field names the latest load that compiled, which governs if and only if it was also prepared or has just installed its query |
| `Evaluator.PolicyFieldExample` | internal/opa/embed.go:173-181 | a run of one load that ends with a policy field that does not govern |
| `Evaluator.IssueOrderExample` | internal/opa/embed.go:149-155 | loads are serialised by the order of the lock, not of issue: for any two policies there is a run in which the one issued first governs in the end, both loads having succeeded |
| `PolicyFile.Watcher.PollPolicyFile` | cmd/server/main.go:442-471 | one poll: when it reads, when it loads, what it records and how long it sleeps |
| `PolicyFile.Watcher.WatchPolicyFile` | cmd/server/main.go:491-496 | the loop computes the run of polls |
| `PolicyFile.RecordIsVerified` | cmd/server/main.go:420-441 | in every run whose polls read a file no older than the one they saw, edits between stat and read included, the record never goes back and loads have strictly increasing mtimes |
| `PolicyFile.RecordIsOfLoaded` | cmd/server/main.go:459-464 | in every run, whatever is swapped under it, the record is the seed or the mtime of the content loaded last |
| `PolicyFile.UnchangedIsNotReloaded` | cmd/server/main.go:466-470 | polls after any history load nothing if and only if none of them stats a file newer than the record and then reads content the evaluator accepts |
| `PolicyFile.MovesForwardExactly` | cmd/server/main.go:448-464 | every load by a poll moves every record forward if and only if the poll cannot load, or reads a file no older than the one it saw in the stat |
| `PolicyFile.SwappedEntryReloads` | cmd/server/main.go:448-470 | that happens when a newer entry is swapped for the old file between the stat and the read of one poll: the old policy is loaded again |
| `Capture.Writer.WriteBlock` | internal/capture/capture.go:84-114 | size and closed checks, rotation when due, and the packet count |
| `Capture.Writer.RotateLocked` | internal/capture/capture.go:117-170 | every failure point: which of them consume an index or leave a file behind |
| `Capture.Writer.CleanupLocked` | internal/capture/capture.go:172-254 | removal by index, then by scan |
| `Capture.Writer.RemoveOldest` | internal/capture/capture.go:245-253 | the removal loop takes the first names in order, except the current file |
| `CaptureTheorems.RotationRetains` | internal/capture/capture.go:213-254 | after a successful rotation that listed the whole directory and removed what it chose, min(found, maximum) capture files remain, the current one among them, and every other survivor sorts after every file scanned away |
| `CaptureTheorems.CurrentFileSurvives` | internal/capture/capture.go:233-245 | in every run, whatever fails, the file being written is never unlinked and no file exceeds its packet share |
| `CaptureTheorems.PacketsCounted` | internal/capture/capture.go:84-114 | in every run the packet count is the number of packets written since the current file was opened; oversized packets, failed writes and failed rotations do not count |
| `CaptureTheorems.ForeignFilesStay` | internal/capture/capture.go:213-221 | no run removes a file whose name does not start with blocked_ and end with .pcap |
| `CaptureTheorems.OwnFileGone` | internal/capture/capture.go:173-185 | once rotation i + maximum has succeeded and its removal worked, file i is gone for good, even if the directory can never be read |
| `CaptureTheorems.OwnFileKeptExactly` | internal/capture/capture.go:136-185 | in every run that cannot list the directory from rotation i + maximum on, file i is still there if and only if it was there and that rotation failed, or its removal did: a failed rotation consumes its index without cleaning up |
| `CaptureTheorems.FailedRotationExample` | internal/capture/capture.go:136-160 | a run that keeps two files where one is allowed, although every removal worked |
| `CaptureTheorems.NameOrder` | internal/capture/capture.go:229-231 | for i < j the name of i sorts first if and only if i is at most j with its extra digits cut off |
| `CaptureTheorems.NamesSortNumerically` | internal/capture/capture.go:229-231 | below index 100000 names sort in rotation order |
| `CaptureTheorems.SixthDigitBreaksOrder` | internal/capture/capture.go:229-231 | file 100000 sorts before file 99999, against the comment |
| `CaptureTheorems.InversionNeedsSixDigits` | internal/capture/capture.go:223-254 | a scan keeps an older own file and removes a newer one only if the older index exceeds the newer one with its extra digits cut off, so never below 100000 |
| `CaptureTheorems.InvertedRetention` | internal/capture/capture.go:223-254 | it happens there: rotation 100001 keeps any leftover of 10001 to 99998 and removes file 100000 |
| `StringOrder.SortCorrect` | internal/capture/capture.go:232 | sorting permutes the names into byte order |
| `Blocklist.List.AddEntry` | internal/threatintel/threatintel.go:59-113 | both caps, deduplication of networks, junk ignored |
| `Blocklist.List.RemoveEntry` | internal/threatintel/threatintel.go:150-184 | the first equal network is spliced out, or the address deleted |
| `Blocklist.List.Contains` | internal/threatintel/threatintel.go:118-147 | the scan answers whether the address is listed or some network covers it |
| `Blocklist.LengthIsDistinctEntries` | internal/threatintel/threatintel.go:66-69 | on every run in which no cap turned a new entry away, addresses plus networks, the number the total cap looks at and Len reports, is the number of distinct entries added and not removed |
| `Blocklist.RepresentsStep` | internal/threatintel/threatintel.go:66-101 | a step agrees with the reference list if and only if no cap turned a new entry away |
| `Blocklist.AgreesWithReference` | internal/threatintel/threatintel.go:115-147 | on every run in which no cap turned a new entry away, the list blocks exactly the addresses a plain list of all entries added and not removed would |
| `Blocklist.RunSound` | internal/threatintel/threatintel.go:17-48 | in every run both caps hold, no network is listed twice and the keys are exactly the networks |
| `Blocklist.RemoveIsFinal` | internal/threatintel/threatintel.go:157-183 | one removal takes an entry away however often it was added |
| `Blocklist.CoversIsInterval` | internal/threatintel/threatintel.go:140-144 | a canonical network is the interval of addresses sharing its prefix |
| `Blocklist.CoversIsPrefix` | internal/threatintel/threatintel.go:139-144 | a network covers an address if and only if they are of one family and agree in the first digits, as many as its length, of 32 or 128 |
| `Engine.Firewall.RecordBlock` | internal/engine/engine.go:184-215 | truncation at a byte count, the hundred-entry window and the capped statistics |
| `Engine.Firewall.RunGates` | internal/engine/engine.go:288-438 | the gates in order, with the counter and log effects of each exit |
| `Engine.Firewall.EvaluatePacket` | internal/engine/engine.go:253-266 | the recovered panics and the second count they add |
| `Engine.Firewall.PacketHandler` | internal/engine/engine.go:445-493 | payload, parse and capture failures, a capture panic after a recovered evaluation panic included |
| `Engine.Firewall.HandleQueuePacket` | internal/engine/engine.go:515-534 | one verdict per identified packet, and when the loop is asked to stop |
| `EngineTheorems.CountersExactly` | internal/engine/engine.go:254-266 | with panics of every kind, two for one packet included: processed = handled + recounts, and allowed + blocked fall short of it by the panics before a verdict was counted |
| `EngineTheorems.PanicFreeBalance` | internal/engine/engine.go:266-438 | without panics processed = allowed + blocked = verdicts sent, and the accepted packets are the allowed ones |
| `EngineTheorems.OneVerdictEach` | internal/engine/engine.go:502-534 | each identified packet gets exactly one verdict in order, panics are dropped, and the hook asks to stop exactly when no verdict could be delivered |
| `EngineTheorems.AcceptedExactly` | internal/engine/engine.go:356-438 | the packets accepted in any run: parsed, without a panic, held by no gate in front of the policy, and allowed by it or denied in audit-only mode; a policy that fails drops, and without one the fail-closed setting decides |
| `EngineTheorems.AllowedExceedsAccepted` | internal/engine/engine.go:446-491 | in every run, with panics of every kind, the allowed counter exceeds the accepted packets by exactly the panics while parsing, those while capturing a blocked packet, and those that struck after the packet was counted as allowed |
| `EngineTheorems.TwicePanickingPacket` | internal/engine/engine.go:254-264 | a packet whose evaluation and capture both panic is dropped, counted three times as processed, and counted as allowed |
| `EngineTheorems.AuditOnlyLiftsPolicyAlone` | internal/engine/engine.go:414-438 | of two runs over the same packets, enforcing and audit-only, verdicts differ exactly at the packets held by the policy alone, and there the second accepts; without panics it leaves the log and statistics of an enforcing run that never saw those packets, and counts them as allowed |
| `Throttle.FloodIsDropped` | internal/engine/engine.go:316-333 | in every run of limiter and engine, of the packets a source sends at a constant rate above the limit the engine accepts no more than the few the estimate takes to settle; packets held before the limiter are dropped too |
| `Throttle.PacedIsUnthrottled` | internal/engine/engine.go:316-333 | a source that is not flagged and keeps to the limit gets for each packet the verdict of the other gates |
| `Screening.ListedIsDropped` | internal/engine/engine.go:355-365 | in every run of blocklist and engine a packet whose source is on the list when it is judged is dropped, in both modes and whatever the policy says; any other gets the verdict it would get without a list |
| `EngineTheorems.LogIsExact` | internal/engine/engine.go:188-214 | the log is the last hundred blocks and the statistics are the histogram up to the block that introduced the 256th reason |
| `EngineTheorems.RunLog` | internal/engine/engine.go:289-297 | the log of a run is that of its blocked packets in order |

## Left out

- Record pointers in the connection table and the limiter: flows, rings and buckets are values inside the maps, so a flow returned to the engine is a copy and later updates through it are not seen.
- Mutexes: table, limiter, blocklist, writer and engine operations are atomic steps; only the evaluator's two locks are modelled as interleaved sections.
- Packet decoding by gopacket: header fields are read from the raw bytes at the offsets the standards give; MAC addresses and the textual form of addresses are not modelled.
- Address and CIDR parsing: `normalizeIP` is a function parameter, blocklist entries arrive parsed and in canonical form.
- Rego compilation and evaluation, the etcd client, netlink and HTTP: outcomes of their calls are inputs.
- Panic recovery in the syncer's callback: a failed or panicking callback counts as a call, like a successful one; its error is not modelled.
- Stopping and closing the syncer, and context cancellation: a run may end after any step.
- Engine.Firewall.EvaluatePacket: the answers of conntrack, rate limiter, MAC filter, blocklist and policy are inputs; GeoIP, audit log and alerts change no verdict and are left out; a panic is placed before the verdict is counted or after it.
- Capture.Writer.RotateLocked: the directory changes only through the writer; files planted by others between two rotations are part of the starting directory only.
- Floating-point rounding: rates are exact.
- State persistence, metrics, admin API, alerts, GeoIP, audit log, MAC filter, feed download: wrappers, file handling and finite tables.
