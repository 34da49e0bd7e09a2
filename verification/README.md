# LanPi: a model of its industrial-network core

LanPi is a network tester that runs on a Raspberry Pi. Most of it wraps system programs; its Modbus,
PROFINET, S7, discovery and capture modules are algorithms and lock-protected state machines of its
own. This project models those modules in Dafny 4.11 and proves what they keep, compute and cost.
`dafny verify dfyconfig.toml` checks everything.

One module stands for one source file, or for one concern of it:

- `RegisterScan` finds the readable addresses of a Modbus device: chunking, bisection and merging, with
  the device and all other threads as an arbitrary environment. `UnitScan` and `ModbusPoll` are the
  unit-id scanner and the poller. Their threads supersede each other by an id under a lock; they are
  step systems with any number of workers, and classes whose methods are the lock sections and loops.
- `PcapSession` and `PcapLoop` are capture sessions: rotation, stopping, and who owns which tcpdump
  process. `PcapStorage` is the pruning of old captures and the storage bound.
- `NeighborCache` is the table that LLDP, CDP and MNDP discovery share, `IpConflict` the duplicate-address
  tracker, `ModbusTraffic` the passive request ledger, `TrafficStats` the packet counters, talkers and
  rate window, `Dhcp` the server table. Each has a ghost history, and its tables are proved to be what
  that history says.
- `Tlv`, with `Lldp`, `Cdp`, `Mndp` and `Dhcp`, `ProfinetDcp` and `Dispatcher` read wire formats;
  `ByteStream`, `S7` and `ModbusClient` read sockets that deliver their bytes in any chunks. The parsers
  are proved against encoders of the formats, also for inputs cut at any byte.
- `Crc16` and `ProfinetNames` decode PROFINET station names behind a checksum.
- `Wrappers`, `Bytes`, `Folds`, `Frames`, `Rounding`, `Sets`, `Sorting`, `MapSums`, `Listing` and `Admission` are shared helpers.

Conventions. MAC and IP addresses are octets or an arbitrary type, never formatted text. Times are
integer ticks, named in each module. The source reads the wall clock, which may run backwards; the
trackers are defined for any clock, and a ghost flag `steady` says how long the clock has behaved, on
which the results about order and windows depend. What the program gets from outside is a parameter: replies
of a device, bytes of a stream, outcomes of spawning, text decoding. Decoded JSON dictionaries are
datatypes with a field for each key.

Where the code and its documentation disagree, the model follows the code:

- The register scanner is said to need O(log n) requests on a mostly unreadable range
  (README.md:294-295, and the module's own comment). `ScanCostLower` and `NothingReadableCost` show that
  the cost grows with the number of unreadable addresses; `ScanCostUpper` is the bound that does hold.
- Pruning is said never to delete the file being written (backend/capture/pcap.py:31-34). Every call passes
  no protected name. `ActiveCanBeLost` shows a file deleted while it is written; `ActiveKeptIff` and
  `NewestKeptIff` say exactly when it is kept.
- A capture's id is computed in one lock section and stored in another (backend/capture/pcap.py:202 and 234).
  `OverlappingStartsShareId` shows two overlapping starts with one id, `SharedIdLosesControl` a capture that no stop
  can reach; `IdsSharedIff` says exactly when ids are shared. Who owns which process does not depend on it.
- `start` signals the running capture before it knows that it can replace it, counting on the new session
  being committed (backend/capture/pcap.py:195-201). A start that then fails has ended that capture, unless
  it was rotating: `FailedStartSignals`, `FailedStartEndsCapture`, `FailedStartMissesRotation`.
- A Modbus response that belongs to no relationship still removes the pending request with its
  transaction id (backend/capture/modbus_traffic.py:150-153): the ledger counts such requests as orphaned
  (`OtherUnitOrphans`, `OrphanedIff`).
- An S7 byte offset of 2^21 or more is accepted and silently read modulo 2^24 bits: `FarOffsetIsMisread`, `AddressIff`.
- An empty CDP software version raises, and the dispatcher drops the packet:
  `EmptyVersionLosesPacket`, and `Cdp.FieldsAreLast` for the exact condition.
- With a literal "x" before a token's second character, a converted station name decodes to another name:
  `LookAlikeIsLost`, and `StationNameRoundTrip` for the exact condition.

## Model

| member | source | states |
|---|---|---|
| RegisterScan.ProbeAccount | backend/tools/modbus_register_scan.py:68-102 | any device, any interleaving, stopped or not: the segments tile the range in order without gap or overlap, each readable or unreadable segment is backed by a read of exactly its addresses, every read has 1 to max addresses inside the range, and a worker still current has counted every address and touched nothing else |
| RegisterScan.ScanFindsMaximalRuns | backend/tools/modbus_register_scan.py:68-132 | on a device with a fixed map, a scan still current when it commits leaves `running` off, progress equal to total, and exactly the maximal runs of the device's per-address map |
| RegisterScan.ScanIndependentOfChunking | backend/tools/modbus_register_scan.py:68-132 | two such scans of the same range agree whatever their block sizes, schedules and worlds |
| RegisterScan.ProbeDescribes | backend/tools/modbus_register_scan.py:87-102 | on a fixed device the segments of a current worker say of every address what the device's map says |
| RegisterScan.MergedIsMaximal | backend/tools/modbus_register_scan.py:105-119 | merging any tiling yields a decomposition into maximal runs of the outcomes it describes |
| RegisterScan.MaximalRunsUnique | backend/tools/modbus_register_scan.py:105-119 | a range has only one decomposition into maximal runs |
| RegisterScan.ScanCostUpper | backend/tools/modbus_register_scan.py:75-102 | when u of N addresses are unreadable and exceptions are honest, a scan costs at most ceil(N/max) + 2u*ceil(log2 max) reads, and at most 2N - ceil(N/max) |
| RegisterScan.ScanCostLinear | backend/tools/modbus_register_scan.py:75-102 | on any device and under any interleaving, N addresses cost at most 2N - ceil(N/max) reads |
| RegisterScan.ReadsAreAccepted | backend/tools/modbus_register_scan.py:87-102 | every read of a scan that `start` accepted passes all checks of `modbus.read`, whatever device and interleaving |
| RegisterScan.ScanCostLower | backend/tools/modbus_register_scan.py:75-102 | an unstopped scan of a fixed device costs at least ceil(N/max) and at least 2u - ceil(N/max) reads |
| RegisterScan.NothingReadableCost | backend/tools/modbus_register_scan.py:7-12 | with nothing readable the cost is exactly 2N - ceil(N/max): the documented O(log n) for a mostly-unreadable range does not hold |
| RegisterScan.NoExceptionCost | backend/tools/modbus_register_scan.py:14-18 | if no read fails with a Modbus exception there is at most one read per chunk, so a dead link is not bisected |
| RegisterScan.ChunkCountIsCeil | backend/tools/modbus_register_scan.py:78-85 | the chunk count used in the bounds is N/max rounded up |
| RegisterScan.CeilLog2IsLeast | backend/tools/modbus_register_scan.py:99-101 | the number of bisection levels used in the bounds is the rounded-up binary logarithm |
| RegisterScan.ProbeStale | backend/tools/modbus_register_scan.py:72-73 | a superseded worker issues no read and reports its range as stopped |
| RegisterScan.OthersKeepCurrent | backend/tools/modbus_register_scan.py:57-65 | while an id stays current no section of another thread changes the shared state; ids never decrease |
| RegisterScan.StartIdIsFresh | backend/tools/modbus_register_scan.py:158-173 | the id of a later start is above every id seen before it |
| RegisterScan.StaleForever | backend/tools/modbus_register_scan.py:57-60 | once superseded, a worker's progress and result sections change nothing, ever |
| RegisterScan.RegisterScanner.StartScan | backend/tools/modbus_register_scan.py:139-180 | the first failing check, in the code's order, refuses and changes nothing; otherwise a fresh id, cleared segments and progress, and the total, set in one section |
| RegisterScan.RegisterScanner.StopScan | backend/tools/modbus_register_scan.py:198-204 | bumps the id and clears `running` exactly when a scan runs |
| RegisterScan.RegisterScanner.BumpProgress | backend/tools/modbus_register_scan.py:57-60 | adds to progress for the current id only |
| RegisterScan.RegisterScanner.FinishScan | backend/tools/modbus_register_scan.py:128-132 | stores the segments and clears `running` for the current id only |
| RegisterScan.RegisterScanner.ProbeRange | backend/tools/modbus_register_scan.py:68-102 | the recursive method computes the probe function that the account and cost lemmas are about, with the same reads and progress |
| RegisterScan.RegisterScanner.ProbeByChunks | backend/tools/modbus_register_scan.py:78-85 | the chunk loop computes the chunked probe |
| RegisterScan.RegisterScanner.MergeSegments | backend/tools/modbus_register_scan.py:105-119 | the merging loop, last element edited in place, computes the merge of the lemmas |
| RegisterScan.RegisterScanner.Run | backend/tools/modbus_register_scan.py:122-132 | the worker thread computes the scan of the main results |
| RegisterScan.StopFreezes | backend/tools/modbus_register_scan.py:198-204 | a stop of a running scan switches it off, takes its id away and leaves segments, progress and total; without a new start nothing that this worker or earlier ones do, and no further stop, changes the state |
| RegisterScan.StopEndsScan | backend/tools/modbus_register_scan.py:68-132 | a stop at any scheduling point of a current scan: no read follows it, whatever is reported other than stopped was read before it, and a scan that got that far ends superseded; without a new start it ends switched off with the stored segments as before |
| RegisterScan.StopAtYield | backend/tools/modbus_register_scan.py:57-74 | a stop that comes while the worker waits in front of a block has the block reported as stopped without a read, in front of counting has nothing counted, and leaves what it found |
| RegisterScan.ExceptionIff | backend/tools/modbus_register_scan.py:95-98 | a block is bisected only if the device has answered with a Modbus exception, and counts as readable only if it has answered with data |
| RegisterScan.RejectionIff | backend/tools/modbus_register_scan.py:139-157 | exactly which requests are accepted, and the first fault of the others |
| RegisterScan.TypesAre | backend/tools/modbus_register_scan.py:35-40 | the four register types and their function codes |
| RegisterScan.MergedSays | backend/tools/modbus_register_scan.py:105-119 | merging any segments, in any order, with gaps or overlaps, keeps what is said of each address |
| PcapSession.ProcessesAreOwned | backend/capture/pcap.py:118-268 | over every run, whoever overtakes whom: whatever a thread ever owned is its own and dead once it has returned, every live process is held by a thread or a start in flight, and the process at which either works is alive unless it exited by itself or a start or a stop has signalled it, so that no thread takes another's away |
| PcapSession.CaptureIsSafe | backend/capture/pcap.py:118-268 | over every run in which no start commits after another has committed since it began, overlapping or not: no id is shared, and `running` holds exactly when a current thread is at work whose process is the recorded one: alive, exited by itself or signalled by a start or a stop while the thread works at it, dead from the thread's own stop that begins a rotation until the next poll |
| PcapSession.SignalledIff | backend/capture/pcap.py:194-266 | over every run, the processes signalled from outside a thread are exactly those that some start or stop found recorded by a running session, whatever became of that start |
| PcapSession.TargetIsCurrent | backend/capture/pcap.py:194-266 | unless starts have overtaken each other, the process a start or a stop would signal is that of the current thread, and there is one exactly when there is such a thread |
| PcapSession.FailedStartEndsCapture | backend/capture/pcap.py:194-221 | a start whose tcpdump cannot be spawned, or ends at once, returns an error and leaves the session as it is, but when the process it has signalled ends between a spawn of the current thread and its next decision, that thread creates no further part and returns within four steps of its own, leaving the capture off unless started anew |
| PcapSession.FailedStartMissesRotation | backend/capture/pcap.py:141-221 | a current thread that has decided to rotate survives the same failed start: when its spawning succeeds the capture goes on with a new part and a live process |
| PcapSession.FailedStartSignals | backend/capture/pcap.py:194-213 | a concrete run: a second start fails to spawn, the first capture still counts as running with its process signalled, and ends four steps later |
| PcapSession.DoomedRun | backend/capture/pcap.py:133-164 | a thread whose process is dead before it decides to rotate creates no further part and returns, in every run |
| PcapSession.IdsSharedIff | backend/capture/pcap.py:186-244 | over every run, overlapping starts included: no two threads carry the same id if and only if no start commits after another has committed since it began |
| PcapSession.DisjointIsNotOvertaken | backend/capture/pcap.py:186-244 | starts that do not overlap never overtake each other, so all of this holds for them |
| PcapSession.RunKeepsLiving | backend/capture/pcap.py:118-268 | every run, in turn or not, keeps the account of who owns which process, and of every process at which a thread or a start works as alive, exited by itself, or signalled |
| PcapSession.StepKeepsInv | backend/capture/pcap.py:118-268 | every step of every thread, start and stop, and every end of a process, keeps the protocol invariant, unless it commits an overtaken start |
| PcapSession.RunKeepsInv | backend/capture/pcap.py:118-268 | so does every interleaving whose commits are in turn |
| PcapSession.StaleThreadWritesNothing | backend/capture/pcap.py:134-183 | a step of a thread whose id is not current leaves the shared state alone |
| PcapSession.StopEndsSession | backend/capture/pcap.py:118-268 | after a stop on a running capture, wherever it lands and whatever is started later, that session creates at most one further part, its thread returns within nine steps of its own, and the capture is then off unless started anew |
| PcapSession.WindingRun | backend/capture/pcap.py:130-183 | a stopped or superseded thread keeps within its budget of one part and its remaining steps in every run |
| PcapSession.StopCanLandMidRotation | backend/capture/pcap.py:166-183 | the bound is reached, in a run without an overtaken start: a stop in the middle of a rotation lets one more part appear |
| PcapSession.OverlappingStartsShareId | backend/capture/pcap.py:194-236 | two overlapping starts commit the same id with two live workers, since the id is computed and stored in different lock scopes |
| PcapSession.SharedIdLosesControl | backend/capture/pcap.py:118-268 | what that costs: once one of the two finishes, the capture is off while the other is current, polls and has a live process, and in every continuation without a further commit each stop changes nothing, so it is neither flagged nor signalled |
| PcapSession.OffHearsNoStop | backend/capture/pcap.py:118-268 | as long as nothing commits, a session that is off stays off, and no stop sets the flag or signals anyone |
| PcapSession.IdsSequentialIff | backend/capture/pcap.py:194-236 | the numbering of threads survives one step exactly when it is not the commit of an overtaken start |
| PcapSession.DecidesIff | backend/capture/pcap.py:141-151 | a thread leaves for good exactly when a stop was seen, the deadline has passed or its process is dead, and to rotate exactly when the file is oversize and none of that is so |
| PcapSession.DeadlineEndsCapture | backend/capture/pcap.py:129-164 | in every run, a thread that decides after its deadline creates no further part and returns with its second step from then; unless starts have overtaken each other the capture is then off, without a process, if it was not started anew |
| PcapSession.LeavingRun | backend/capture/pcap.py:151-164 | a thread that has left for good never polls or creates a part again, in any run, and returns with its remaining steps |
| PcapSession.SettlesOff | backend/capture/pcap.py:157-164 | settling for good clears the session exactly when the thread is current |
| PcapLoop.Capture.SessionLoop | backend/capture/pcap.py:129-183 | under any schedule of the others, the nested loops leave the state of a run in which each of the thread's own steps, with what it finds out at that moment, follows what the others do before it; it stops making steps only once it has returned or polled as often as it was given, and makes none after returning; once it decides after its deadline it never polls again and has returned in the end |
| PcapLoop.Capture.Rotate | backend/capture/pcap.py:153-183 | the part of the loop behind the polls makes steps of the same run, without a poll, up to the next poll or the return |
| PcapLoop.Capture.Poll | backend/capture/pcap.py:134-140 | the polling section: superseded, or the stop flag |
| PcapLoop.Capture.Settle | backend/capture/pcap.py:157-164 | the section behind pruning: clears the session only when current and finishing |
| PcapLoop.Capture.Publish | backend/capture/pcap.py:171-183 | the section behind spawning: records the part, clears the session if spawning failed, or changes nothing when superseded |
| PcapLoop.Capture.StartCapture | backend/capture/pcap.py:186-244 | what `start` refuses changes nothing; otherwise the state is that of a run of its own sections, with anything threads and later calls do in between, ending at a failed spawn, at a process that has ended at once, or with the id computed in its first section committed and its thread about to poll; a start that is not refused has signalled the process of a capture that was running, even if it fails |
| PcapLoop.Capture.StopCapture | backend/capture/pcap.py:261-268 | is the stop of the protocol: sets the flag and signals the recorded process exactly when a capture with a process runs |
| PcapLoop.Capture.PollTurn | backend/capture/pcap.py:133-140 | the poll is the thread's step, a superseded thread killing its process |
| PcapLoop.Capture.DecideTurn | backend/capture/pcap.py:141-152 | leaves the inner loop for exit, stop, deadline or size, and finishes exactly for the first three |
| PcapLoop.Capture.TerminateTurn | backend/capture/pcap.py:153-155 | after it the thread's process is dead |
| PcapLoop.Capture.SettleTurn | backend/capture/pcap.py:157-164 | the settling step |
| PcapLoop.Capture.SpawnTurn | backend/capture/pcap.py:166-169 | the spawning step: a new process owned by the thread, or none |
| PcapLoop.Capture.PublishTurn | backend/capture/pcap.py:171-183 | the publishing step: a process spawned by a superseded thread is killed |
| PcapLoop.DeadlineIsLast | backend/capture/pcap.py:129-164 | under any schedule of the others, after a decision that finds the deadline passed no later step of the thread is a poll |
| PcapLoop.StartRefusedIff | backend/capture/pcap.py:187-192 | exactly which durations are accepted, and that tcpdump must be there |
| PcapStorage.StorageIsBounded | backend/capture/pcap.py:90-183 | a session started from idle that writes at most B bytes between two polls keeps the directory within cap + rotation size + B through every rotation |
| PcapStorage.PruneIsShortestPrefix | backend/capture/pcap.py:90-115 | pruning removes, oldest first, the shortest prefix of the deletable files that brings the total to the cap, or else all of them, and nothing else; the cap is then exceeded by the files whose size could not be read |
| PcapStorage.UnprotectedKeptIff | backend/capture/pcap.py:90-115 | with no protected name, which is what every call passes, a file is kept if and only if it and the files not older than it fit under the cap |
| PcapStorage.ActiveKeptIff | backend/capture/pcap.py:155-205 | the file being written, listed when a new start prunes beside a running session or a superseded thread prunes late, is kept if and only if it and what comes behind it by modification time fit under the cap |
| PcapStorage.NewestKeptIff | backend/capture/pcap.py:155-205 | so when no file is newer it is kept if and only if its own size is within the cap |
| PcapStorage.ActiveCanBeLost | backend/capture/pcap.py:28-34 | against the documented promise: beside a file with a later modification time, the file being written is deleted |
| PcapStorage.ProtectedIsKept | backend/capture/pcap.py:107-108 | a protected file would never be removed |
| PcapStorage.UnremovableIsKept | backend/capture/pcap.py:109-115 | nor is a file that cannot be read or unlinked |
| PcapStorage.NothingLostUnderCap | backend/capture/pcap.py:90-183 | as long as what is stored and what a session writes fit under the cap and nobody deletes a file, every old file is still there after any rotations and the stored bytes grow by exactly what was written |
| PcapStorage.DeleteTakesOne | backend/capture/pcap.py:288-298 | deleting a file takes that file and nothing else |
| PcapStorage.PollOpensBurst | backend/capture/pcap.py:141-147 | a poll lets the part grow only below the rotation size, and the bytes written until the next one count from there |
| PcapStorage.PruneFitsCap | backend/capture/pcap.py:104-115 | with every file readable and removable, pruning leaves at most the cap |
| PcapStorage.StepWithin | backend/capture/pcap.py:129-183 | writing, polling, rotating and deleting keep the storage invariant |
| PcapStorage.CaptureDir.PruneOldest | backend/capture/pcap.py:90-115 | nothing happens when the files cannot be listed; else sorting, summing and deleting compute the pruning of the lemmas |
| PcapStorage.StoredBytes | backend/capture/pcap.py:98-103 | the summing loop is the total size of the files whose size can be read |
| PcapStorage.DeleteOldest | backend/capture/pcap.py:105-115 | the deleting loop leaves what the lemmas say of any total it is given, skipping the protected file and those that cannot be removed |
| NeighborCache.ReadIsExact | backend/discovery/lldp.py:114-159 | after any run of packets and reads with one staleness limit, a MAC is in the table exactly when its latest sighting is no older than the limit and fewer than 500 MACs were seen after it, and with that sighting's record |
| NeighborCache.RunRefines | backend/discovery/lldp.py:114-159 | every run keeps the table equal to the fresh part of its history and at most 500 entries |
| NeighborCache.StoreRefines | backend/discovery/lldp.py:125-130 | storing a sighting and evicting an oldest entry keeps the table equal to the fresh part of the longer history |
| NeighborCache.PurgeRefines | backend/discovery/lldp.py:146-149 | purging with a later threshold keeps it equal to the fresh part at that threshold |
| NeighborCache.SeenAfterIsNewer | backend/discovery/lldp.py:127-130 | the MACs seen after an entry's are exactly the table's newer entries |
| NeighborCache.RefiningTableIsBounded | backend/discovery/lldp.py:127-130 | a table that refines its history holds at most 500 entries |
| NeighborCache.RowsAreFresh | backend/discovery/lldp.py:152-159 | a listing shows exactly the fresh MACs, each with its latest sighting |
| NeighborCache.Cache.HandlePacket | backend/discovery/lldp.py:121-130 | stores the sighting, evicting an oldest other entry over the cap; while the clock is steady the table refines the history and stays within 500 |
| NeighborCache.Cache.GetNeighbors | backend/discovery/cdp.py:156-173 | deletes what is stale, lists the rest youngest first, each once; while the clock is steady that is exactly the fresh part of the history |
| NeighborCache.Cache.PurgeStale | backend/discovery/mndp.py:140-157 | the deletion loop leaves exactly the entries that are not stale |
| NeighborCache.Cache.FindOldest | backend/discovery/lldp.py:128 | an entry with the least last-seen time |
| NeighborCache.ListRows | backend/discovery/lldp.py:150-156 | one row for each entry, with its age |
| IpConflict.ConflictsReport | backend/capture/ip_conflict.py:103-114 | the entries with two or more MACs are exactly the addresses with two or more live claimants, with exactly those MACs and their latest times |
| IpConflict.ClaimRefines | backend/capture/ip_conflict.py:84-90 | storing a claim keeps the table equal to the live accepted claims; a new address is dropped only when 500 others are live |
| IpConflict.PruneRefines | backend/capture/ip_conflict.py:61-70 | pruning at a later time keeps the table equal to the live claims, without empty inner maps |
| IpConflict.RefiningTableKeys | backend/capture/ip_conflict.py:61-90 | the table tracks exactly the live addresses, each with exactly its live claimants |
| IpConflict.LiveMacsAreLive | backend/capture/ip_conflict.py:61-66 | a MAC is live on an address when any of its accepted claims is within the time limit |
| IpConflict.TrackedIpsBounded | backend/capture/ip_conflict.py:84-90 | at no time are more than 500 addresses tracked |
| IpConflict.AcceptedIsNondecreasing | backend/capture/ip_conflict.py:73-90 | the accepted claims are among those offered, in their order |
| IpConflict.ParsesArp | backend/capture/ip_conflict.py:48-58 | of an ARP packet in an Ethernet frame, the sender's protocol and hardware address; nothing of other or shorter frames |
| IpConflict.ConflictTracker.PruneStaleMacs | backend/capture/ip_conflict.py:61-70 | the nested deletion loops keep exactly the claims within the limit and the addresses that have any |
| IpConflict.ConflictTracker.HandlePacket | backend/capture/ip_conflict.py:73-90 | what is not an ARP claim, or a probe from 0.0.0.0, changes nothing; otherwise prune, then store the claim if its address is tracked or there is room |
| IpConflict.ConflictTracker.GetConflicts | backend/capture/ip_conflict.py:103-114 | while the clock is steady, exactly the addresses with two or more live claimants, and the number of live addresses |
| IpConflict.ConflictTracker.Reset | backend/capture/ip_conflict.py:117-120 | forgets every claim |
| IpConflict.ConflictIff | backend/capture/ip_conflict.py:103-114 | an address is reported exactly when two claims of it by different MACs are at most ten minutes old |
| IpConflict.PassedOverIff | backend/capture/ip_conflict.py:82-88 | a claim is passed over exactly when its address has no live claim and 500 others have |
| ModbusTraffic.RunKeepsInv | backend/capture/modbus_traffic.py:107-205 | in every state of every run each accepted request has one fate: requests = pending + timed + missing + superseded + orphaned, whatever the clock does; every pending request's relationship exists, counters are ordered, and min <= rounded average <= max |
| ModbusTraffic.HandledKeepsInv | backend/capture/modbus_traffic.py:117-164 | so for every message: pruning, then a request or a response |
| ModbusTraffic.PruneKeepsInv | backend/capture/modbus_traffic.py:107-114 | pruning loses no miss and leaves no pending request past the timeout |
| ModbusTraffic.AnswerIsTimed | backend/capture/modbus_traffic.py:107-164 | whatever other packets and reads come in between, a response within the timeout is timed with exactly the time since its request; a later one is not, and the request has been counted as missing |
| ModbusTraffic.OrphanedIff | backend/capture/modbus_traffic.py:148-153 | a response forgets a request without counting it exactly when it comes in time for its key and belongs to no relationship |
| ModbusTraffic.OtherUnitOrphans | backend/capture/modbus_traffic.py:148-153 | a run in which this happens: the request ends neither answered nor missing |
| ModbusTraffic.PendingBounded | backend/capture/modbus_traffic.py:134-147 | pending requests never exceed 65536 for each of at most 200 relationships |
| ModbusTraffic.TimedOk | backend/capture/modbus_traffic.py:158-164 | one more sample keeps exceptions and samples within responses and min <= rounded average <= max |
| ModbusTraffic.ParsesSegment | backend/capture/modbus_traffic.py:63-85 | of a TCP segment in an Ethernet frame, with options in either header: exactly its addresses, ports and payload |
| ModbusTraffic.ParsesAdu | backend/capture/modbus_traffic.py:88-104 | of a Modbus frame followed by anything: exactly its transaction, unit, function and exception |
| ModbusTraffic.TrafficAnalyser.PruneStalePending | backend/capture/modbus_traffic.py:107-114 | the loop over the stale keys charges each relationship with its number of stale requests and forgets them |
| ModbusTraffic.TrafficAnalyser.HandlePacket | backend/capture/modbus_traffic.py:117-164 | a packet without a Modbus message changes nothing; otherwise the ledger takes exactly the step of that message, and the books still balance |
| ModbusTraffic.TrafficAnalyser.RecordRequest | backend/capture/modbus_traffic.py:134-147 | a request over the relationship cap is ignored; otherwise it is counted and becomes pending, superseding one with the same key |
| ModbusTraffic.TrafficAnalyser.RecordResponse | backend/capture/modbus_traffic.py:148-164 | a response pops its pending request even when no relationship takes it, and is counted and timed otherwise |
| ModbusTraffic.TrafficAnalyser.GetStats | backend/capture/modbus_traffic.py:177-198 | prunes, and returns the whole table |
| ModbusTraffic.TrafficAnalyser.Reset | backend/capture/modbus_traffic.py:201-205 | empties both tables |
| ModbusTraffic.MessageOfFrame | backend/capture/modbus_traffic.py:117-149 | a Modbus frame in a TCP segment is a request of the sender if it goes to port 502, else a response to the receiver if it comes from port 502, else nothing, with its transaction, unit, function and exception bit |
| ModbusTraffic.ExchangeMatches | backend/capture/modbus_traffic.py:117-150 | the two packets of an exchange, with addresses and ports mirrored, belong to one relationship and one pending request |
| ModbusTraffic.ExchangeIsTimed | backend/capture/modbus_traffic.py:117-164 | the response packet of an exchange is counted, and timed with exactly the time between the packets when that is at most five seconds; later it is not, and the request has been counted as missing |
| ModbusTraffic.CountersAreExact | backend/capture/modbus_traffic.py:117-159 | in every run a listed relationship shows exactly the requests, responses and exception responses that passed since its first request, and the time of the last; one that is not listed had no request or found the table full |
| ModbusTraffic.TimesAreExact | backend/capture/modbus_traffic.py:155-164 | in every run least, greatest and mean response time of a relationship are those of its responses in time |
| ModbusTraffic.SupersededIff | backend/capture/modbus_traffic.py:139-142 | a request forgets an earlier one exactly when that one still waits under the same key |
| ModbusTraffic.IgnoresOthers | backend/capture/modbus_traffic.py:63-93 | other link protocols and other protocol ids are ignored |
| Rounding.RoundedBetween | backend/capture/modbus_traffic.py:164 | a mean rounded half to even stays between bounds of its samples |
| Rounding.RoundedIsNearest | backend/capture/modbus_traffic.py:164 | a rounded mean is the nearest integer, the even one of two |
| TrafficStats.TrafficIsConserved | backend/capture/traffic_stats.py:163-210 | total packets and bytes are the sums over the talkers plus the interface's own frames plus those of sources that found the table full |
| TrafficStats.TotalsAddUp | backend/capture/traffic_stats.py:163-179 | in every state, broadcast + multicast + unicast = packets, the link protocols together are at most packets, and DHCP, mDNS, SSDP and S7 together at most IPv4 |
| TrafficStats.ProtocolsAddUp | backend/capture/traffic_stats.py:106-179 | over classified frames, the link protocols together count no frame twice; DHCP, mDNS, SSDP and S7 together count only IPv4 frames, none twice |
| TrafficStats.CastsAddUp | backend/capture/traffic_stats.py:172-177 | broadcast + multicast + unicast = packets |
| TrafficStats.ClassifyIsShaped | backend/capture/traffic_stats.py:106-160 | a frame gets at most one link protocol, at most one above IPv4, and that only with IPv4 |
| TrafficStats.ClassifiesIpv4 | backend/capture/traffic_stats.py:106-150 | what an IPv4 packet in an Ethernet frame counts as, by destination, protocol, ports and data, wherever its header ends |
| TrafficStats.ClassifiesOther | backend/capture/traffic_stats.py:106-160 | what any other frame counts as, by type and destination |
| TrafficStats.BareSegmentIsNotS7 | backend/capture/traffic_stats.py:137-150 | a TCP segment without data is not S7, whatever its ports |
| TrafficStats.TotalsOne | backend/capture/traffic_stats.py:169-179 | one frame more takes the totals of the history to those of the longer history |
| TrafficStats.TalkerRefines | backend/capture/traffic_stats.py:191-210 | a frame of a listed source, or a new one with room, keeps the table the per-source summary of the history |
| TrafficStats.PassedOver | backend/capture/traffic_stats.py:188-199 | an own frame, or one of a new source with the table full, leaves the table in step with the history |
| TrafficStats.OverCapIff | backend/capture/traffic_stats.py:191-199 | a source is over the cap exactly when 500 others were seen before it |
| TrafficStats.DropStaleIsWindow | backend/capture/traffic_stats.py:181-186 | with a clock that does not run backwards, popping from the left leaves exactly the frames inside the window |
| TrafficStats.Collector.PopStale | backend/capture/traffic_stats.py:185-186 | the popping loop |
| TrafficStats.ClassifyAndRecord | backend/capture/traffic_stats.py:163-210 | a packet shorter than an Ethernet header changes nothing; any other is classified and recorded, and the counters still add up |
| TrafficStats.Collector.Record | backend/capture/traffic_stats.py:169-210 | totals, talkers and window remain those of the history with the frame added, the window as long as the clock is steady, and the counters add up |
| TrafficStats.Collector.GetStats | backend/capture/traffic_stats.py:222-275 | elapsed time, totals that add up, window rates and one row for each talker with its own rate, most bytes first, nothing else changed |
| TrafficStats.PerSecondIsExact | backend/capture/traffic_stats.py:248-249 | rounding a rate over the five-second window to two decimals loses nothing |
| TrafficStats.Collector.Reset | backend/capture/traffic_stats.py:278-284 | an empty history |
| TrafficStats.GroupRecent | backend/capture/traffic_stats.py:229-235 | the grouping loop gives every source its count and bytes in the window |
| TrafficStats.ListRows | backend/capture/traffic_stats.py:239-255 | one row for each talker |
| TrafficStats.RankedRows | backend/capture/traffic_stats.py:239-263 | the rows, sorted by falling bytes |
| TrafficStats.CastIs | backend/capture/traffic_stats.py:113-114 | broadcast is all ones, else the lowest bit of the first byte decides |
| TrafficStats.Ipv4Says | backend/capture/traffic_stats.py:122-149 | by numbers: which IPv4 packets count as DHCP, mDNS, SSDP and S7 |
| TrafficStats.ShortIpv4Says | backend/capture/traffic_stats.py:122-124 | a frame too short for an IPv4 header |
| TrafficStats.OtherSays | backend/capture/traffic_stats.py:119-158 | by numbers: what any other frame counts as |
| TrafficStats.RatesAreOfFresh | backend/capture/traffic_stats.py:222-268 | the rates shown are a fifth of the frames and bytes recorded in the window, overall and by source |
| Dhcp.ListedIff | backend/capture/dhcp_monitor.py:124-141 | a server is listed exactly when fewer than 50 others were seen before it; offers + acks is the number of its messages, and at most 5 offered addresses are kept |
| Dhcp.MessageRefines | backend/capture/dhcp_monitor.py:124-141 | a message of a listed server, or a new one with room, keeps each entry the summary of all of that server's messages |
| Dhcp.IgnoredRefines | backend/capture/dhcp_monitor.py:126-128 | a new server is ignored once the table is full, and the table still matches the history |
| Dhcp.HandlePacket | backend/capture/dhcp_monitor.py:106-141 | a packet without an offer or acknowledgement changes nothing; any other leaves the table of the history with its message added |
| Dhcp.Monitor.HandleMessage | backend/capture/dhcp_monitor.py:124-141 | the table is that of the history with the message added |
| Dhcp.Monitor.Reset | backend/capture/dhcp_monitor.py:172-175 | forgets every server |
| Dhcp.ParsesCutMessage | backend/capture/dhcp_monitor.py:88-103 | behind the right cookie, and no other, type, offered address and server identifier come from the last options of their kind wholly before the cut, wherever the options field is cut |
| Dhcp.ParsesDatagram | backend/capture/dhcp_monitor.py:44-121 | of a UDP datagram in an Ethernet frame, only an offer or acknowledgement from port 67 is a message, with its server, source and offered address |
| Dhcp.PassesOverOthers | backend/capture/dhcp_monitor.py:44-91 | a payload too short for the fixed part and a frame that is not IPv4 are no message |
| Dhcp.OptionIsLast | backend/capture/dhcp_monitor.py:67-85 | an option's value is that of its last occurrence; pads are no options |
| Dhcp.ParseDhcpOptions | backend/capture/dhcp_monitor.py:67-85 | the cursor loop stores exactly the options that scanning visits |
| Admission.AmongFirstIff | backend/capture/dhcp_monitor.py:124-141 | among the first `cap` distinct elements of a sequence are exactly those with fewer than `cap` distinct ones before them |
| Tlv.ScanOfCut | backend/discovery/lldp.py:77-109 | for LLDP, CDP, MNDP and DHCP: encoded items cut at any byte, or followed by an end marker and anything, are visited exactly as far as they lie wholly before the cut |
| Tlv.ScanAfter | backend/discovery/cdp.py:90-118 | encoded items are visited in order before whatever follows them, well-formed or not |
| Tlv.ScanOfEncoded | backend/discovery/mndp.py:67-96 | scanning inverts encoding |
| Tlv.WholeFitsBytes | backend/discovery/lldp.py:77-85 | the number of items before a cut is the largest whose encoding fits |
| Tlv.NextOfEncoded | backend/capture/dhcp_monitor.py:70-85 | the loop's turn at an encoded item takes that item and its size, in each of the four formats |
| Tlv.LastWithIsLast | backend/discovery/lldp.py:88-109 | the item a field comes from is the last that carries it |
| Lldp.ParseLldpdu | backend/discovery/lldp.py:67-111 | the cursor loop folds exactly the TLVs that scanning visits into the record |
| Lldp.FieldsAreLast | backend/discovery/lldp.py:87-109 | every field of the record comes from the last TLV that carries it |
| Lldp.CutLldpdu | backend/discovery/lldp.py:67-111 | an LLDPDU cut anywhere yields the fields of the TLVs wholly before the cut |
| Lldp.ManagementIpv4Iff | backend/discovery/lldp.py:54-64 | exactly when an IPv4 address is read, a declared length that runs past the value included, and which octets |
| Lldp.ManagementAddressRoundTrip | backend/discovery/lldp.py:54-64 | IPv4 and IPv6 addresses come back, whatever follows them |
| Lldp.TypesSay | backend/discovery/lldp.py:92-110 | by type numbers: what the last TLV of each kind says of its field |
| Lldp.NothingSaid | backend/discovery/lldp.py:68-76 | a field is empty exactly when no TLV carries it |
| Lldp.ManagementIpv6Iff | backend/discovery/lldp.py:54-64 | exactly when an IPv6 address is read, and from which octets |
| Cdp.ParseCdpPayload | backend/discovery/cdp.py:78-118 | the cursor loop folds the visited TLVs; it fails where an empty software version makes the code raise |
| Cdp.FieldsAreLast | backend/discovery/cdp.py:98-118 | parsing fails if and only if a visited software-version TLV holds no text; otherwise every field comes from the last TLV that carries it |
| Cdp.CutCdp | backend/discovery/cdp.py:78-118 | the same of a packet cut anywhere |
| Cdp.EmptyVersionLosesPacket | backend/discovery/cdp.py:107-108 | one empty software-version TLV loses the packet, whatever else it says |
| Cdp.MalformedLengthEnds | backend/discovery/cdp.py:92-96 | a length below 4 makes its TLV the last one, handled with an empty value |
| Cdp.ParseAddressTlv | backend/discovery/cdp.py:47-75 | the counted loop returns the first IPv4 address of the list |
| Cdp.AddressListOfCut | backend/discovery/cdp.py:47-75 | of an address list cut anywhere, the first IPv4 address is returned with as many octets as are left of it |
| Cdp.TypesSay | backend/discovery/cdp.py:96-117 | by type numbers: what the last TLV of each kind says of its field, and that an empty software version fails the packet |
| Cdp.NothingSaid | backend/discovery/cdp.py:78-117 | a field is empty exactly when no TLV carries it |
| Mndp.ParseMndpPayload | backend/discovery/mndp.py:52-96 | the cursor loop folds exactly the visited TLVs |
| Mndp.FieldsAreLast | backend/discovery/mndp.py:77-94 | every field comes from the last TLV that carries it, fixed-size ones only with their size |
| Mndp.CutMndp | backend/discovery/mndp.py:52-96 | the same of a packet cut anywhere |
| Mndp.TypesSay | backend/discovery/mndp.py:52-96 | by type numbers: what the last TLV of each kind says of its field |
| Mndp.NothingSaid | backend/discovery/mndp.py:52-96 | a field is empty exactly when no TLV carries it |
| Crc16.Crc16Arc | backend/tools/profinet_scan.py:126-132 | the bit-serial loops compute the checksum of the lemmas |
| Crc16.BitStepInjective | backend/tools/profinet_scan.py:130-131 | no two registers lead to the same one in a bit step |
| Crc16.BitStepSurjective | backend/tools/profinet_scan.py:130-131 | every register is reached, so a bit step is a bijection on 16 bits |
| Crc16.TwoBytesInjective | backend/tools/profinet_scan.py:128-131 | two bytes enter the register injectively |
| Crc16.CrcFromInjective | backend/tools/profinet_scan.py:126-132 | registers that differ never meet again over the same bytes |
| Crc16.CrcDetectsAdjacentChange | backend/tools/profinet_scan.py:126-132 | a change within two adjacent bytes always changes the checksum |
| Crc16.CrcDetectsChange | backend/tools/profinet_scan.py:126-132 | so does a change of one byte |
| Crc16.CheckValue | backend/tools/profinet_scan.py:83-90 | the standard check value 0xbb3d for "123456789" |
| ProfinetNames.ChangedLabelIsRejected | backend/tools/profinet_scan.py:135-147 | with its suffix kept, a label that decodes stops decoding when one or two adjacent body characters are changed in any way |
| ProfinetNames.ManyPassesAreOne | backend/tools/profinet_scan.py:149-152 | the sequential replacements of the escape table equal one left-to-right pass |
| ProfinetNames.OrderDoesNotMatter | backend/tools/profinet_scan.py:149-152 | in whatever order the replacements of the table are made, every name comes out the same |
| ProfinetNames.TableIsSeparated | backend/tools/profinet_scan.py:111-122 | the table has what that needs: distinct tokens, and no replacement that could start or complete another |
| ProfinetNames.UnescapeEscape | backend/tools/profinet_scan.py:111-152 | unescaping an escaped name loses one character for each literal "x" before a token's second character, and gives the name back otherwise |
| ProfinetNames.StationNameRoundTrip | backend/tools/profinet_scan.py:135-192 | every nonempty ASCII name whose converted form IDNA does not claim decodes to a name, which is the original if and only if no literal "x" stands before a token's second character |
| ProfinetNames.LookAlikeIsLost | backend/tools/profinet_scan.py:111-152 | the shortest such input: "xa" converts to a label that decodes, but not to "xa" |
| ProfinetNames.DottedNameRoundTrip | backend/tools/profinet_scan.py:178-192 | a dotted name converted component by component decodes to itself |
| ProfinetNames.ConvertedIdnaPrefix | backend/tools/profinet_scan.py:166-175 | a converted name looks like an IDNA label exactly when its escaped part does |
| ProfinetNames.SplitJoin | backend/tools/profinet_scan.py:184-192 | splitting at dots undoes joining |
| ProfinetNames.NameDecodesIff | backend/tools/profinet_scan.py:178-192 | exactly which names decode, and that decoding works label by label |
| ProfinetNames.LabelDecodes | backend/tools/profinet_scan.py:169-190 | a label with the IDNA prefix that IDNA decodes gets that text; any other gets its checksum decoding, or stays as it is |
| ProfinetNames.DecodeStationName | backend/tools/profinet_scan.py:178-192 | the loop over the labels decodes each by IDNA, then by checksum, keeps it otherwise, and yields nothing if none decodes |
| ProfinetNames.TokensAreAll | backend/tools/profinet_scan.py:111-122 | the tokens are exactly those of the ten escaped characters |
| ProfinetNames.HasLookAlikeIff | backend/tools/profinet_scan.py:111-152 | what a look-alike is, in the characters themselves |
| ProfinetNames.Hex4Says | backend/tools/profinet_scan.py:145 | the checksum is written as four lower-case hexadecimal digits, most significant first |
| ProfinetDcp.ResponseOfBlocks | backend/tools/profinet_scan.py:247-292 | for all blocks laid out with a pad byte after odd data, last pad counted or not, and any Ethernet padding: the response is accepted and the record is that of exactly these blocks, each field from the last that carries it |
| ProfinetDcp.WalkOfLayout | backend/tools/profinet_scan.py:272-288 | with any shorter declared length and the frame cut anywhere, exactly the leading blocks whose header is declared and whose data is present are visited |
| ProfinetDcp.FieldsAreLast | backend/tools/profinet_scan.py:223-244 | every field of the record comes from the last block that carries it |
| ProfinetDcp.IsResponseIff | backend/tools/profinet_scan.py:247-258 | exactly which frames are successful Identify responses, by their octets |
| ProfinetDcp.ParseResponse | backend/tools/profinet_scan.py:247-292 | other frames yield nothing; otherwise the walk's blocks are folded into the record and its name decoded |
| ProfinetDcp.BlocksSay | backend/tools/profinet_scan.py:223-244 | by option and suboption: what the last block of each kind says, null addresses left out |
| ProfinetDcp.NothingSaid | backend/tools/profinet_scan.py:258-270 | what is empty when no block carries it |
| ProfinetDcp.RoleNamesSay | backend/tools/profinet_scan.py:232-235 | a role names exactly the functions whose bits are set |
| ProfinetDcp.RoleTextSays | backend/tools/profinet_scan.py:235 | no function is None for zero and nothing otherwise |
| ProfinetDcp.JoinNamesSay | backend/tools/profinet_scan.py:235 | names are joined in order with a comma and a space |
| UnitScan.RunKeepsInv | backend/tools/modbus_unit_scan.py:58-133 | under every interleaving of starts, stops and any number of workers: ids increase, results are exactly the classifications of the units start to start + progress - 1 in order, and a scan that ended by itself has progress equal to total |
| UnitScan.StepKeepsInv | backend/tools/modbus_unit_scan.py:58-133 | so for every single step |
| UnitScan.IdsAreUnique | backend/tools/modbus_unit_scan.py:94-96 | no two workers share an id |
| UnitScan.StaleTurn | backend/tools/modbus_unit_scan.py:61-70 | a superseded worker changes nothing and returns |
| UnitScan.IdleIsFrozen | backend/tools/modbus_unit_scan.py:58-133 | while no scan runs nothing changes until the next start |
| UnitScan.StopFreezes | backend/tools/modbus_unit_scan.py:127-133 | a stop freezes results and progress until the next start |
| UnitScan.ScanCompletes | backend/tools/modbus_unit_scan.py:58-77 | left alone, a scan needs exactly the remaining turns of its worker: running before, done with every unit after; other workers' turns do not count |
| UnitScan.UnitScanner.StartScan | backend/tools/modbus_unit_scan.py:80-111 | the first failing check refuses and changes nothing; otherwise a fresh id and an empty result, set in one section |
| UnitScan.UnitScanner.StopScan | backend/tools/modbus_unit_scan.py:127-133 | bumps the id exactly when a scan runs |
| UnitScan.UnitScanner.Check | backend/tools/modbus_unit_scan.py:60-62 | goes on exactly while the id is current |
| UnitScan.UnitScanner.Commit | backend/tools/modbus_unit_scan.py:67-71 | stores a classification and counts it exactly while the id is current |
| UnitScan.UnitScanner.Finish | backend/tools/modbus_unit_scan.py:75-77 | clears `running` for the current id only |
| UnitScan.ProbesAreAccepted | backend/tools/modbus_unit_scan.py:81-92 | every probe of an accepted scan passes all checks of `modbus.read` |
| UnitScan.UnitScanner.RunScan | backend/tools/modbus_unit_scan.py:58-77 | the state the worker's loop leaves is that of a run in which its turns, at most two for each unit and one more, alternate with whatever the others do between its sections, turns of other workers included, and end with its return |
| UnitScan.RowsSay | backend/tools/modbus_unit_scan.py:49-77 | in every run the rows are those of the first units in order, and each row is responding exactly when the probe was accepted or answered with a text that begins with Modbus exception, and shows that text |
| UnitScan.RespondsIff | backend/tools/modbus_unit_scan.py:49-55 | in terms of the call: a unit is responding exactly when it has answered with data or an exception |
| UnitScan.RefusedIff | backend/tools/modbus_unit_scan.py:80-95 | exactly which requests are accepted, and the first fault of the others |
| UnitScan.StartSupersedes | backend/tools/modbus_unit_scan.py:80-111 | an accepted start clears the results and supersedes every worker before it, a refused one does nothing |
| ModbusPoll.StatsAreOrdered | backend/tools/modbus_poll.py:66-89 | successful + timeouts + exceptions <= requests, and min <= rounded average <= max exactly when there is a sample |
| ModbusPoll.RangeIsExact | backend/tools/modbus_poll.py:73-77 | the extremes are samples that no sample exceeds |
| ModbusPoll.AverageIsExact | backend/tools/modbus_poll.py:74-78 | the average is that of all samples, rounded |
| ModbusPoll.LatestFields | backend/tools/modbus_poll.py:70-83 | time and message are the last reply's, values the last successful one's |
| ModbusPoll.CountersCount | backend/tools/modbus_poll.py:70-88 | every counter counts the replies of its kind |
| ModbusPoll.OutcomesAreDisjoint | backend/tools/modbus_poll.py:79-88 | no reply counts as more than one of success, exception and timeout |
| ModbusPoll.FailureRateIsRate | backend/tools/modbus_poll.py:151-155 | the failure rate exists after a request and lies between 0 and 100 percent |
| ModbusPoll.RunKeepsInv | backend/tools/modbus_poll.py:55-186 | under every interleaving the statistics are those of exactly the replies stored by the session started last |
| ModbusPoll.StepKeepsInv | backend/tools/modbus_poll.py:55-186 | so for every single step |
| ModbusPoll.StaleTurn | backend/tools/modbus_poll.py:61-69 | a superseded worker changes nothing and returns |
| ModbusPoll.StopFreezes | backend/tools/modbus_poll.py:180-186 | after a stop nothing changes until the next start |
| ModbusPoll.Poller.StartPolling | backend/tools/modbus_poll.py:94-148 | the first failing check refuses; otherwise a fresh id and cleared statistics |
| ModbusPoll.Poller.StopPolling | backend/tools/modbus_poll.py:180-186 | bumps the id exactly when polling is on |
| ModbusPoll.Poller.Check | backend/tools/modbus_poll.py:61-63 | goes on exactly while the id is current |
| ModbusPoll.Poller.Commit | backend/tools/modbus_poll.py:67-89 | takes the reply into the statistics exactly while the id is current |
| ModbusPoll.PollsAreAccepted | backend/tools/modbus_poll.py:98-112 | every poll of an accepted request passes all checks of `modbus.read` |
| ModbusPoll.Poller.PollLoop | backend/tools/modbus_poll.py:55-91 | the state that any number of first rounds of the endless loop leave is that of a run in which its turns, two for each round unless it returns, alternate with whatever the others do between its sections, turns of other workers included |
| ModbusPoll.OutcomeIff | backend/tools/modbus_poll.py:84-89 | which texts count as exception and which as timeout |
| ModbusPoll.OutcomesAreThoseOfCalls | backend/tools/modbus_poll.py:80-89 | in terms of the call: data, a Modbus exception, and a timeout |
| ModbusPoll.RefusedIff | backend/tools/modbus_poll.py:94-116 | exactly which requests are accepted, and the first fault of the others |
| ModbusPoll.StartSupersedes | backend/tools/modbus_poll.py:118-148 | an accepted start clears the statistics and supersedes every worker before it, a refused one does nothing |
| ModbusPoll.TurnsPoll | backend/tools/modbus_poll.py:55-91 | polling that is left alone goes on: with every second turn of its worker one more reply is in the statistics |
| ByteStream.ReadExact | backend/capture/dispatcher.py:83-90 | exactly the next `count` bytes however they are chunked, or nothing and an exhausted stream |
| Dispatcher.Capture.CaptureOnce | backend/capture/dispatcher.py:93-130 | dispatches exactly the complete records behind the global header, in order |
| Dispatcher.DeliversWholeRecords | backend/capture/dispatcher.py:108-122 | of a stream cut anywhere, exactly the packets of the records wholly before the cut, empty ones included |
| Dispatcher.SameHoweverChunked | backend/capture/dispatcher.py:83-122 | two ways of cutting the same bytes into reads dispatch the same packets |
| S7.RecvTpktFrame | backend/tools/s7_diag.py:123-135 | one frame of the length its header states, the rest left in the stream; nothing for a length below 4 or a short stream |
| S7.RequestIsOneFrame | backend/tools/s7_diag.py:123-167 | every Read Var request is read back whole, whatever follows it |
| S7.AddressIff | backend/tools/s7_diag.py:155-161 | the 24-bit address of a request is the requested bit modulo 2^24, so right if and only if the byte offset is below 2^21, which nothing checks |
| S7.FarOffsetIsMisread | backend/tools/s7_diag.py:155-161 | the first such input: byte 2^21 is asked for as byte 0 |
| S7.RequestsDiffer | backend/tools/s7_diag.py:148-167 | requests for different tags of that range differ |
| S7.BuildReadVar | backend/tools/s7_diag.py:148-167 | fails exactly for a DB number outside 16 bits; otherwise 31 bytes that say so, with transport size, count, DB number, area and address where the format has them |
| S7.ParsesResponse | backend/tools/s7_diag.py:170-207 | every response cut at any byte: the data is returned exactly when the response accepts the request and the data is there, otherwise the first thing wrong is reported |
| S7.TagRoundTrip | backend/tools/s7_diag.py:210-223 | every value in its type's range has an encoding that decodes to it |
| S7.TagInverse | backend/tools/s7_diag.py:210-223 | decoding stays in the range, and for all types but BIT no two encodings mean the same |
| S7.ReadTagRoundTrip | backend/tools/s7_diag.py:170-223 | a response that carries a value yields the value |
| S7.RequestIs | backend/tools/s7_diag.py:148-167 | the request, byte by byte, around its item |
| S7.ItemIs | backend/tools/s7_diag.py:155-161 | the item, byte by byte |
| S7.FrameIff | backend/tools/s7_diag.py:123-135 | exactly when a frame is there, and which bytes it is |
| ModbusClient.CoilsRoundTrip | backend/tools/modbus.py:111-207 | any 1 to 2000 coils packed least significant bit first come back unchanged over the wire, whatever follows the response |
| ModbusClient.RegistersRoundTrip | backend/tools/modbus.py:111-207 | any 1 to 125 registers come back unchanged |
| ModbusClient.CoilsOfCut | backend/tools/modbus.py:201-205 | of cut coil data, the coils its bytes hold, and never more than were asked for |
| ModbusClient.RegistersOfCut | backend/tools/modbus.py:206-207 | of cut register data, the whole registers |
| ModbusClient.BodyOfAdu | backend/tools/modbus.py:163-172 | a response cut anywhere is read whole, incomplete or missing, exactly by its length |
| ModbusClient.ReadBody | backend/tools/modbus.py:163-172 | the two exact reads, the transaction check, and a stream left right behind the response |
| ModbusClient.ReadValues | backend/tools/modbus.py:145-207 | one request and its decoded response, or the reason there is none |
| ModbusClient.Transactions.Next | backend/tools/modbus.py:88-92 | the next 16-bit id |
| ModbusClient.IdsRepeatIff | backend/tools/modbus.py:88-92 | two requests share an id exactly when a multiple of 65536 requests lies between them |
| ModbusClient.CollectsPages | backend/tools/modbus.py:294-353 | for a device that pages its objects with strictly increasing first ids, the result is exactly the objects of the first eight pages, so all of them when there are no more |
| ModbusClient.NothingIsOverwritten | backend/tools/modbus.py:340-349 | with distinct ids the dictionary has one entry for each object, under its own name |
| ModbusClient.NameIsInjective | backend/tools/modbus.py:348 | no two object ids share a name |
| ModbusClient.ObjectsRoundTrip | backend/tools/modbus.py:337-349 | the objects of a response come back in order |
| ModbusClient.StoreObjects | backend/tools/modbus.py:337-349 | the loop over the objects stores what the response holds, a cut last object included |
| ModbusClient.ReadTurn | backend/tools/modbus.py:306-353 | one round: an error, an exception, the collected objects, or the next object id |
| ModbusClient.Identify | backend/tools/modbus.py:294-353 | the loop of at most eight requests computes the rounds of the lemmas |
| ModbusClient.FirstByteDecides | backend/tools/modbus.py:165-203 | over the wire, whatever follows: exactly which responses are exceptions and with which code, which are faults and which, and which are data |
| ModbusClient.CutIsFault | backend/tools/modbus.py:165-173 | of a response cut short nothing is made but a fault, by where it is cut |
| ModbusClient.NoRoomIsFault | backend/tools/modbus.py:168-173 | a length that leaves no room for a function code is a fault |
| ModbusClient.MessagesTell | backend/tools/modbus.py:174-195 | the texts of the results tell exceptions and timeouts apart from everything else, unless an operating system error is worded so |
| ModbusClient.ExceptionTexts | backend/tools/modbus.py:52-62 | the texts of the exception codes |
| ModbusClient.ContainsIff | backend/tools/modbus_poll.py:88 | a word occurs in a text |
| ModbusClient.RefusedIff | backend/tools/modbus.py:120-137 | exactly which requests are accepted, and the first fault of the others |
| ModbusClient.TurnDecides | backend/tools/modbus.py:301-353 | what a round of the identification makes of one response, by its bytes |
| ModbusClient.TurnBreaks | backend/tools/modbus.py:306-316 | a missing, cut or foreign response breaks the identification off |

## Left out

- The web interface, the HTTP routes, and the modules that wrap nmcli, hostapd, ethtool, ping, mtr, nmap, arp-scan and iw.
- Sockets, subprocesses, signals and files themselves: they are parameters, byte streams, sets of live processes and lists of files.
- Threads run as interleaved steps; nothing is said about when the scheduler lets a thread run. Endless loops are modelled by a given number of rounds (`PollLoop`, `SessionLoop`).
- UTF-8, ASCII and IDNA decoding (RFC 3490), stripping and line splitting of text: uninterpreted parameters.
- Floating point: times are exact tenths of a millisecond or ticks, and REAL tags keep their octets.
- Formatting of MAC and IP addresses as text, of messages, and the JSON shape of results.
- The order of rows with equal keys, and of conflicts and relationships in their listings: dictionaries are maps without order.
- Ages are shown in ticks, not cut to whole seconds.
- `status()` calls and `get_health`: they copy fields under the lock.
- SZL identification in the S7 client and its COTP negotiation: fixed offsets and fixed byte strings.
- The Ethernet and SNAP or UDP filters in front of the LLDP, CDP and MNDP parsers.
- The DCP Identify request: a constant apart from its source address and transaction id.
- `modbus_decode.py` and `link_history.py`, which would add only easy members.
- ModbusPoll.Poller.PollLoop: covers any number of first rounds of the endless loop, since the loop itself never ends.
- PcapLoop.Capture.SessionLoop: covers any number of polls, since a session without a deadline may never end.
- PcapLoop.Capture.StartCapture: calls that began before it make no step in between, since their ending would move it in the list of calls; the step system covers them.
- PcapSession.CaptureIsSafe: holds for runs without an overtaken commit, because an overtaken one always shares an id (`IdsSharedIff`), and then `running` can be off for a thread at work (`SharedIdLosesControl`). What needs no such condition is in `ProcessesAreOwned`.
- PcapStorage.StorageIsBounded: assumes that every old file can be read and removed, and counts one active file.
