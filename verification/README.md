# Protocols of the Code CLI, modelled and proved in Dafny

The Rust command line under `code-oss/cli/src` contains a number of small concurrent protocols and byte-level
loops. This project models them and proves what they are for. `dafny verify dfyconfig.toml` checks everything.

How the models are built:

- **Concurrent code** is a state and a `Step` function per atomic action: what runs between two lock
  acquisitions or awaits. `Exec` runs any list of actions, so a lemma about `Exec(Initial, acts)` speaks about
  every interleaving. Classes hold the same state in fields, and their methods are proved equal to those steps.
- **Loops** are methods with loops. Where the outside world takes part (timers, sockets, files, processes),
  what it does at each call is an input, so a contract holds for whatever happens.
- **Foreign code** (DEFLATE, SHA-256, JSON, the challenge signature) is a parameter with the facts that are
  relied on written out.

| file | what it models |
|---|---|
| `Multiplexer.dfy` | server bridges handed between records and write loops |
| `FlateStream.dfy`, `FlateMarkers.dfy` | the growing-buffer driver around a compressor, and the message sink; a small compressor |
| `ReadBuffer.dfy`, `CopyProgress.dfy` | re-chunking a body stream; copying with progress reports |
| `PortForwarding.dfy` | per-port reference counts over all handles, and the tunnel reconciler |
| `Registry.dfy`, `RegistryOrder.dfy`, `RegistryStore.dfy`, `RegistryRuns.dfy`, `RegistryReads.dfy` | the lock-free endpoint registry |
| `LogReplay.dfy`, `Sync.dfy` | replayed and live logs; barrier and merged sources |
| `IdleTimeout.dfy` | the idle timer of a standalone agent host |
| `ServeWeb.dfy` | single-flight server starts, connection counts, the kill timer, version paths |
| `Upgrade.dfy`, `Gateway.dfy` | exclusion of concurrent upgrades; the selection gateway |
| `Auth.dfy` | authentication of a control connection |
| `RingBuffer.dfy`, `Tail.dfy`, `KillTree.dfy`, `Paths.dfy`, `DevTunnels.dfy` | ring buffer, `tail -f`, process tree walk, path checks, tunnel names and back-off |
| `Basics.dfy`, `Decimal.dfy` | shared vocabulary; unsigned decimal formatting |

Where the code does not do what it or its documentation promises, the code is modelled as it is, the failing
case is a lemma, and the exact condition is another:

- Re-registering a bridge id while a removed record's loop still runs loses a bridge
  (`Multiplexer.ReusedIdLosesABridge`): the loops alone can bring that about exactly when such a loop runs and no
  record has the id (`Multiplexer.RegisterLosesBridgeIff`).
- A port list with a repeated record makes a later `set_ports` panic (`PortForwarding.RepeatedRecordPanics`);
  counts stay right exactly for balanced lists (`PortForwarding.ReplacedConsistentIff`).
- The idle timer "never returns while at least one client is connected" only as far as events were received:
  it can return with a connect event still in the channel (`IdleTimeout.FiresWithAClient`, `IdleTimeout.FiresIdleIff`).
- "Concurrent requests are deduplicated" covers overlapping upgrades only: a request that read the old commit
  can restart an already upgraded server (`Upgrade.StaleRequestRestartsAgain`). Unless the server starts or exits by
  other means, a restart is redundant exactly when the target ran when its request won the flag
  (`Upgrade.KillRedundantIff`).
- The bytes a compressor emits depend on the buffer size, since it repeats its flush marker when the buffer is full just
  then (`FlateMarkers.OutputDependsOnTheBuffer`); what is decoded does not (`FlateStream.Relay`).
- The trailing message a compressing sink means to send before closing is never sent, since finishing the coder
  is reported as an error (`FlateStream.ServerMessageSink.ServerMessageOrClosed`).
- A free suffixed tunnel name can be longer than the name check allows (`DevTunnels.SuffixedValidIff`), and the
  label comparison can call different sets equal exactly when the first list has repeats (`DevTunnels.EqAsSetSoundIff`).
- `tailf` with no lines asked for panics on a file that has a complete line (`Tail.Tailer.FirstScan`), and it misses
  that a file was cut exactly when the file is not shorter than when its length was last asked for (`Tail.Tailer.Poll`,
  `Tail.CutGoesUnnoticed`, `Tail.ScanBehindTheLength`).
- An empty body message would stall a delegated read without arranging a wake-up, exactly when it comes before the end
  (`ReadBuffer.DelegatedReader.PollRead`, `ReadBuffer.ReadToEnd`, `ReadBuffer.EmptyBodyKeepsBytesBack`). The program
  never sends one: its `httpbody` handler drops empty segments (`ReadBuffer.ProducedNeverStalls`).
- Several log writers can be replayed out of order (`LogReplay.TwoWritersReplayOutOfOrder`); a client's lines are in order
  exactly when the last 50 remembered ones are (`LogReplay.DeliveredInOrderIff`), and all remembered ones are exactly when
  each was remembered after the earlier ones of those (`LogReplay.RememberedInOrderIff`).
- The registry lists a dead server whose process id runs again (`RegistryRuns.ReusedPidListsADeadServer`), and nothing
  else it should not (`RegistryRuns.ListingInEveryRun`).
- The web server manager can hand out a server that has ended (`ServeWeb.EndedServerIsHandedOut`), exactly while its entry
  awaits cleanup and was downloaded or has a known outcome (`ServeWeb.EndedServerIff`).
- Publishing reports an error and still leaves the entry discoverable when only the final change of permissions fails
  (`RegistryRuns.EntriesDirectory.PublishEndpoint`), though callers are told they are undiscoverable then.
- The comment on the registry's hash input relies on no field containing a separator; the encoding is injective
  even when the instance id does (`Registry.IdentityHashInputInjective`).

## Model

| member | source | states |
|---|---|---|
| `Multiplexer.StepKeeps` | code-oss/cli/src/tunnels/server_multiplexer.rs:38-145 | every step of every operation and loop keeps one owner per bridge and the per-bridge message order, given fresh ids |
| `Multiplexer.OneOwnerInEveryRun` | code-oss/cli/src/tunnels/server_multiplexer.rs:63-145 | in every interleaving a live record has its bridge, no queue and no loop, or exactly one running loop of its id has the bridge |
| `Multiplexer.WritesInOrderInEveryRun` | code-oss/cli/src/tunnels/server_multiplexer.rs:60-145 | what is written is an in-order subsequence of what was accepted, a prefix when no write fails, and accepted = written ++ batch ++ queue |
| `Multiplexer.AcceptedIsTold` | code-oss/cli/src/tunnels/server_multiplexer.rs:63-84 | in every run what counts as accepted for a bridge is exactly the messages of the calls made while its record was the first of the id, in the order of the calls |
| `Multiplexer.WrittenAsToldInEveryRun` | code-oss/cli/src/tunnels/server_multiplexer.rs:60-145 | in every run what is written on a bridge is an in-order subsequence of what the callers told it, and the beginning of that unless a write fails |
| `Multiplexer.EverythingToldIsWritten` | code-oss/cli/src/tunnels/server_multiplexer.rs:60-145 | once the loops have finished and no write failed, a live record has had everything written that the callers told it |
| `Multiplexer.RegisteredInEveryRun` | code-oss/cli/src/tunnels/server_multiplexer.rs:38-105 | a bridge has a history exactly when a call registered it, and the public calls can always be made |
| `Multiplexer.RegisterSafeIffFresh` | code-oss/cli/src/tunnels/server_multiplexer.rs:38-50 | registering keeps the invariant exactly when no record has the id and no running loop would look it up |
| `Multiplexer.RegisterLosesBridgeIff` | code-oss/cli/src/tunnels/server_multiplexer.rs:38-50 | registering can cost the new bridge by the loops' own doing exactly when no record has the id but a removed one's loop still runs with it |
| `Multiplexer.ReusedIdLosesABridge` | code-oss/cli/src/tunnels/server_multiplexer.rs:117-131 | a reused id makes the old loop put its bridge into the new record; the new bridge is never closed |
| `Multiplexer.InternalStepsUseUpWork` | code-oss/cli/src/tunnels/server_multiplexer.rs:113-145 | every loop or dispose step lowers a measure over in-flight and queued items, in any state |
| `Multiplexer.UnsettledCanStep` | code-oss/cli/src/tunnels/server_multiplexer.rs:113-145 | while work remains some loop or the dispose can take a step |
| `Multiplexer.EveryInternalRunSettles` | code-oss/cli/src/tunnels/server_multiplexer.rs:108-145 | however scheduled, loops and dispose take at most as many steps as there is work, and when none can go on all have returned and everything disposed of is closed |
| `Multiplexer.SettledIsDrained` | code-oss/cli/src/tunnels/server_multiplexer.rs:108-131 | once all loops ended, every live record has its bridge back and every accepted message was handled |
| `Multiplexer.ClosedStaysClosed` | code-oss/cli/src/tunnels/server_multiplexer.rs:87-145 | a closed bridge is never written or closed again |
| `Multiplexer.DisposeClosesEverything` | code-oss/cli/src/tunnels/server_multiplexer.rs:86-145 | after dispose and without a later register every bridge that was owned ends closed exactly once, after its last write |
| `Multiplexer.ServerMultiplexer.Register` | code-oss/cli/src/tunnels/server_multiplexer.rs:38-50 | a record of the id with its bridge at home and nothing queued is added behind the others, also after a dispose |
| `Multiplexer.ServerMultiplexer.Remove` | code-oss/cli/src/tunnels/server_multiplexer.rs:53-58 | exactly the records of the id go, and the others keep their order |
| `Multiplexer.ServerMultiplexer.WriteMessage` | code-oss/cli/src/tunnels/server_multiplexer.rs:63-84 | known exactly when some record has the id; then the message is queued behind the others on the first one and counts as accepted, and otherwise nothing changes; a loop starts when the bridge is home |
| `Multiplexer.ServerMultiplexer.Dispose` | code-oss/cli/src/tunnels/server_multiplexer.rs:87-105 | takes all records at once and leaves exactly the bridges at home to be closed |
| `Multiplexer.ServerMultiplexer.LockSection` | code-oss/cli/src/tunnels/server_multiplexer.rs:116-134 | a loop's locked section: close, give the bridge back, or take the queue |
| `Multiplexer.ServerMultiplexer.WriteItem` | code-oss/cli/src/tunnels/server_multiplexer.rs:136-141 | one awaited write; a failure discards the rest of the batch |
| `Multiplexer.ServerMultiplexer.LoopTurn` | code-oss/cli/src/tunnels/server_multiplexer.rs:113-145 | each turn of a loop extends the run by one internal step and uses up work |
| `Multiplexer.ServerMultiplexer.WriteLoop` | code-oss/cli/src/tunnels/server_multiplexer.rs:113-145 | a whole loop is a run of internal steps and ends with the bridge returned or closed |
| `FlateStream.CallsUseUpWork` | code-oss/cli/src/tunnels/socket_signal.rs:297-310 | a call after which the driver goes on lowers a measure: input first, then the buffer outgrowing a repeated flush marker, then pending output |
| `FlateStream.StepAdvances` | code-oss/cli/src/tunnels/socket_signal.rs:289-320 | each turn extends what was emitted to a way the coder can be made to go, or ends it with that outcome |
| `FlateStream.FlateStream.Grow` | code-oss/cli/src/tunnels/socket_signal.rs:306-308 | doubling keeps the buffer's contents |
| `FlateStream.FlateStream.Process` | code-oss/cli/src/tunnels/socket_signal.rs:285-323 | terminates for any lawful coder; success returns exactly what its calls emitted, taking all input with room to spare; errors are those of the coder or an end of stream |
| `FlateStream.Relay` | code-oss/cli/src/tunnels/socket_signal.rs:190-323 | messages encoded and decoded in order come back unchanged for any two initial buffer sizes, although the bytes between depend on them |
| `FlateStream.ServerMessageSink.GetServerMsgContent` | code-oss/cli/src/tunnels/socket_signal.rs:126-138 | what the coder emitted for the body, or the plain body when there is no coder or it broke off on this body |
| `FlateStream.ServerMessageSink.ServerMessageOrClosed` | code-oss/cli/src/tunnels/socket_signal.rs:95-124 | one message per body; on close exactly the close and no trailing message; the sender is always put back |
| `FlateMarkers.EscaperIsLawful` | code-oss/cli/src/tunnels/socket_signal.rs:199-264 | the facts assumed of a coder are met by one that repeats its flush marker |
| `FlateMarkers.EscaperIsUndone` | code-oss/cli/src/tunnels/socket_signal.rs:173-197 | and its decoder undoes it however either output is cut up |
| `FlateMarkers.OutputDependsOnTheBuffer` | code-oss/cli/src/tunnels/socket_signal.rs:300-310 | the same message gives different bytes in a buffer it just fills and in one with a byte to spare |
| `ReadBuffer.ReadBuffer.PutData` | code-oss/cli/src/util/io.rs:83-106 | what is delivered plus what is put aside is exactly the given bytes; something is put aside only when the target is full |
| `ReadBuffer.DelegatedReader.PollRead` | code-oss/cli/src/util/http.rs:337-354 | no byte is lost or repeated; an empty ready read means the end; pending without a wake-up happens exactly on an empty body with nothing stashed |
| `ReadBuffer.ReadToEnd` | code-oss/cli/src/util/http.rs:322-355 | reads of any positive sizes deliver exactly the bodies before the first empty one, and stall exactly at an empty body before the end |
| `ReadBuffer.AllBytesIff` | code-oss/cli/src/util/io.rs:89-94 | those are all the bytes exactly when no byte comes behind the first empty body |
| `ReadBuffer.EmptyBodyKeepsBytesBack` | code-oss/cli/src/util/io.rs:89-94 | an empty body in front of a byte keeps it back |
| `ReadBuffer.ProducedNeverStalls` | code-oss/cli/src/tunnels/control_server.rs:556-569 | whatever the client's calls send, a reader never stalls and gets every byte up to completion |
| `ReadBuffer.SegmentBytesAre` | code-oss/cli/src/tunnels/control_server.rs:556-569 | the bytes of a request are those of its segments up to the completing one |
| `CopyProgress.CopyAsyncProgress` | code-oss/cli/src/util/io.rs:33-70 | writes everything before the first empty read once and in order; reports start at zero, step by more than the granularity, lag at most by it and end at the total |
| `CopyProgress.FewReports` | code-oss/cli/src/util/io.rs:47-64 | the number of progress reports is bounded by the bytes copied, however the stream is cut |
| `PortForwarding.ReleaseAllCounts` | code-oss/cli/src/tunnels/local_forwarding.rs:104-112 | giving back a list succeeds exactly when every count covers it, and lowers the counts by exactly that |
| `PortForwarding.AcquireAllCounts` | code-oss/cli/src/tunnels/local_forwarding.rs:114-134 | adding a list raises each count by its number of matching records and keeps keys exactly where counts are positive |
| `PortForwarding.ReplacedConsistentIff` | code-oss/cli/src/tunnels/local_forwarding.rs:101-138 | from right counts nothing panics, and the counts stay right exactly when shared records are equally many in the old and new list |
| `PortForwarding.NoRepeatsBalanced` | code-oss/cli/src/tunnels/local_forwarding.rs:104-115 | lists without repeats meet that condition |
| `PortForwarding.CountsMatchHandlesInEveryRun` | code-oss/cli/src/tunnels/local_forwarding.rs:100-154 | for any handles and any run without repeats nothing panics, each count is the sum over live handles, and a port is a key exactly when some count is positive |
| `PortForwarding.HandlesInEveryRun` | code-oss/cli/src/tunnels/local_forwarding.rs:100-154 | in every run each handle has the list it was last set to, a clone starts with none, and a dropped one is gone |
| `PortForwarding.RepeatedRecordPanics` | code-oss/cli/src/tunnels/local_forwarding.rs:105-107 | listing a record once, twice and then not at all panics |
| `PortForwarding.WantedReflectsHandles` | code-oss/cli/src/tunnels/local_forwarding.rs:66-72 | a port is wanted exactly when some live handle asks for it, and wanted public exactly when one asks publicly |
| `PortForwarding.WantedInEveryRun` | code-oss/cli/src/tunnels/local_forwarding.rs:66-154 | in every run a port is wanted exactly when the last list set on some live handle names it, and public exactly when one names it so |
| `PortForwarding.LastProtocolWins` | code-oss/cli/src/tunnels/local_forwarding.rs:114-134 | a port has the protocol it was listed with last |
| `PortForwarding.ReleaseKeepsProtocols` | code-oss/cli/src/tunnels/local_forwarding.rs:104-112 | giving records back changes no protocol |
| `PortForwarding.PortForwardingSender.SetPorts` | code-oss/cli/src/tunnels/local_forwarding.rs:101-138 | the loops compute the specified replacement in one modification, and panic exactly where it has no value |
| `PortForwarding.PortForwardingSender.Clone` | code-oss/cli/src/tunnels/local_forwarding.rs:141-148 | a clone shares the map and has no ports |
| `PortForwarding.PortForwardingSender.Drop` | code-oss/cli/src/tunnels/local_forwarding.rs:150-154 | a dropped handle gives all its ports back |
| `PortForwarding.PortForwardingReceiver.RemoveStale` | code-oss/cli/src/tunnels/local_forwarding.rs:179-193 | afterwards only ports the next snapshot wants at the same privacy are forwarded |
| `PortForwarding.PortForwardingReceiver.AddNew` | code-oss/cli/src/tunnels/local_forwarding.rs:195-209 | afterwards the tunnel agrees with the next snapshot |
| `PortForwarding.PortForwardingReceiver.ApplyTo` | code-oss/cli/src/tunnels/local_forwarding.rs:174-213 | for any sequence of snapshots and any failing calls, each port whose calls never failed ends as the last snapshot wants, and is never added twice or removed while absent |
| `PortForwarding.AgreementEverywhereIsEquality` | code-oss/cli/src/tunnels/local_forwarding.rs:173-213 | without failures the tunnel map equals the primary privacies of the last snapshot |
| `Registry.IdentityHashInputInjective` | code-oss/cli/src/tunnels/agent_host_registry.rs:188-199 | the hash input determines the identity, even with separators in the instance id |
| `Registry.IdentityHashInputFormat` | code-oss/cli/src/tunnels/agent_host_registry.rs:178-199 | the input is editor or standalone, NUL, the decimal process id without leading zero, NUL, the instance id |
| `Registry.IdentityHashInputVector` | code-oss/cli/src/tunnels/agent_host_registry.rs:830-850 | the vector shared with the editor, for any instance id |
| `Registry.EntryFileNameInjective` | code-oss/cli/src/tunnels/agent_host_registry.rs:203-211 | different identities have different entry files |
| `Registry.DedupeEntries` | code-oss/cli/src/tunnels/agent_host_registry.rs:264-277 | the index-based loop gives the last value of each identity, in order of first occurrence |
| `Registry.FirstSeenOrder` | code-oss/cli/src/tunnels/agent_host_registry.rs:261-277 | of two listed identities the earlier one occurs before the later one does for the first time |
| `Decimal.FormatInjective` | code-oss/cli/src/tunnels/agent_host_registry.rs:193-198 | numbers formatted into a hash input can be told apart |
| `RegistryOrder.SortIsSorted` | code-oss/cli/src/tunnels/agent_host_registry.rs:386-390 | the listing is ordered by kind and instance id and is a permutation of the deduped entries |
| `RegistryOrder.LexLeMeans` | code-oss/cli/src/tunnels/agent_host_registry.rs:386-390 | instance ids are compared by code point: a prefix comes first, else the first difference decides |
| `RegistryOrder.SortStable` | code-oss/cli/src/tunnels/agent_host_registry.rs:386-390 | entries with equal keys keep their order |
| `RegistryOrder.SortedUnique` | code-oss/cli/src/tunnels/agent_host_registry.rs:386-391 | with distinct keys there is only one sorted arrangement |
| `RegistryStore.ReadEntryFiles` | code-oss/cli/src/tunnels/agent_host_registry.rs:398-434 | an unreadable file fails the read; otherwise exactly the valid entries under their own names are returned, in enumeration order |
| `RegistryStore.ContributionMembers` | code-oss/cli/src/tunnels/agent_host_registry.rs:415-431 | an entry is returned exactly when its own canonical file holds it |
| `RegistryStore.WithoutDeadFiles` | code-oss/cli/src/tunnels/agent_host_registry.rs:370-383 | after a read a file is gone exactly when it is that of a listed dead entry, and the others keep their content |
| `RegistryStore.PruneFiles` | code-oss/cli/src/tunnels/agent_host_registry.rs:370-383 | live entries are kept in order, and exactly the files of listed dead entries are removed |
| `RegistryStore.ReadRegistry` | code-oss/cli/src/tunnels/agent_host_registry.rs:362-392 | fails exactly when the legacy file or a .json file cannot be read; else lists each live entry in its own file and the last live legacy entry of an identity without one, each identity once, no editor before a standalone host, within a kind by code points of the instance id; exactly the entry files of dead processes go |
| `RegistryStore.ReadIsVisible` | code-oss/cli/src/tunnels/agent_host_registry.rs:356-392 | a listing has exactly the live file entries and the last live legacy entries without a file, each identity once, sorted |
| `RegistryStore.ReadOrderIrrelevant` | code-oss/cli/src/tunnels/agent_host_registry.rs:357-392 | any directory enumeration order gives the same listing when no two visible entries share kind and instance id |
| `RegistryStore.SelectLiveStandaloneEndpoint` | code-oss/cli/src/tunnels/agent_host_registry.rs:681-721 | a standalone TCP endpoint whose instance id is least by code points, and none exactly when no such endpoint is listed |
| `RegistryRuns.StepKeeps` | code-oss/cli/src/tunnels/agent_host_registry.rs:362-434 | every start, death, publish, remove, read, liveness check and delayed deletion keeps each live owner's file equal to what it last published |
| `RegistryRuns.OwnedInEveryRun` | code-oss/cli/src/tunnels/agent_host_registry.rs:589-627 | in every run a live owner has what it last published and did not remove since it claimed the identity, and a process is alive when it was started and did not die |
| `RegistryRuns.OthersLeaveItAlone` | code-oss/cli/src/tunnels/agent_host_registry.rs:589-627 | no step but an owner's own publish, remove or death changes what its identity shows |
| `RegistryRuns.EntriesDirectory.PublishEndpoint` | code-oss/cli/src/tunnels/agent_host_registry.rs:524-604 | wherever the write stops, readers see the old or the new entry; the entry is in place exactly when the rename succeeded |
| `RegistryRuns.EntriesDirectory.RemoveEndpoint` | code-oss/cli/src/tunnels/agent_host_registry.rs:605-627 | removes the identity's own file and never changes what another identity shows |
| `RegistryRuns.ListingInEveryRun` | code-oss/cli/src/tunnels/agent_host_registry.rs:350-392 | after any run a read with nothing in between lists exactly the current entries plus leftovers of dead processes whose pid runs again |
| `RegistryRuns.PublishedListingInEveryRun` | code-oss/cli/src/tunnels/agent_host_registry.rs:350-392 | after any run a read lists of a live owner exactly what it last published, and otherwise at most the last legacy entry |
| `RegistryRuns.ListingWithoutReuse` | code-oss/cli/src/tunnels/agent_host_registry.rs:350-392 | without reused pids such a read lists exactly the last published values of live identities and the live legacy entries without a file |
| `RegistryRuns.ReusedPidListsADeadServer` | code-oss/cli/src/tunnels/agent_host_registry.rs:279-300 | a reused pid keeps a dead server in the listing |
| `RegistryReads.WholeReadIsARun` | code-oss/cli/src/tunnels/agent_host_registry.rs:367-434 | a read with nothing in between is a run of file visits, process checks and deletions, with the listing and the directory the whole read has |
| `RegistryReads.KeptWasThere` | code-oss/cli/src/tunnels/agent_host_registry.rs:367-434 | in a read interleaved with anything, each kept entry was in its own file when that was read, as its owner last published it, and its process was alive when checked later |
| `RegistryReads.PublishedIsListed` | code-oss/cli/src/tunnels/agent_host_registry.rs:350-392 | a value that stays published during an interleaved read that visits its file is listed, and nothing else for its identity |
| `RegistryReads.ReadInEveryRun` | code-oss/cli/src/tunnels/agent_host_registry.rs:350-392 | after any run an interleaved read lists everything that stays published and visited, and nothing that was not there |
| `LogReplay.NoDuplicatesInEveryRun` | code-oss/cli/src/tunnels/singleton_server.rs:240-275 | with any writers a client gets at most 50 replayed lines, the marker, then rising live lines, no line twice |
| `LogReplay.ReplaySeamInEveryRun` | code-oss/cli/src/tunnels/singleton_server.rs:240-275 | when lines are remembered in sequence: the last min(50, k) of the first k lines, the marker, then lines rising from some j with k <= j |
| `LogReplay.OneWriterPushesInSequence` | code-oss/cli/src/tunnels/singleton_server.rs:260-275 | a single writer remembers its lines in sequence |
| `LogReplay.RememberedInOrderIff` | code-oss/cli/src/tunnels/singleton_server.rs:273-274 | in every run the remembered lines are in order exactly when each was remembered after all earlier ones of those |
| `LogReplay.DeliveredInOrderIff` | code-oss/cli/src/tunnels/singleton_server.rs:240-257 | in every run a client's replayed and live lines are in order exactly when the last 50 remembered at its snapshot are |
| `LogReplay.NoGapWhenKeepingUp` | code-oss/cli/src/tunnels/singleton_server.rs:229-257 | a client at most 64 lines behind gets every line from its subscription on |
| `LogReplay.TwoWritersReplayOutOfOrder` | code-oss/cli/src/tunnels/singleton_server.rs:273-274 | a run of two writers in which a joined client receives their lines in the wrong order |
| `LogReplay.BroadcastLogSink.Replay` | code-oss/cli/src/tunnels/singleton_server.rs:240-254 | the replay is the last 50 remembered lines and the marker |
| `LogReplay.ConcatReceivable.RecvMsg` | code-oss/cli/src/util/sync.rs:119-136 | replayed lines to the end, then the broadcast; more than 64 lines behind it goes on with the oldest of the last 64 |
| `Sync.Watch.Open` | code-oss/cli/src/util/sync.rs:46-58 | only the first value counts |
| `Sync.Barrier.Wait` | code-oss/cli/src/util/sync.rs:21-29 | a receiver gets the value once; one that has seen it waits until the openers are gone and then fails |
| `Sync.MergedReceivable.RecvMsg` | code-oss/cli/src/util/sync.rs:157-179 | the head of one source is taken and the other left alone; none exactly when both are exhausted |
| `Sync.MergedReceivable.Drain` | code-oss/cli/src/util/sync.rs:154-180 | whatever is ready first, everything received is an interleaving of the two sources |
| `Sync.MergeConserves` | code-oss/cli/src/util/sync.rs:154-180 | an interleaving has every message of both sources once, each source in order |
| `IdleTimeout.ActivityTracker.ClientConnected` | code-oss/cli/src/tunnels/idle_timeout.rs:46-55 | a new connection is a connect step of the run, and counted plus queued clients stay as many as the live guards |
| `IdleTimeout.ClientGuard.Drop` | code-oss/cli/src/tunnels/idle_timeout.rs:64-68 | the end of a live guard is a disconnect step of the run, and counted plus queued clients are the guards that remain |
| `IdleTimeout.WaitForIdleTimeout` | code-oss/cli/src/tunnels/idle_timeout.rs:119-149 | returns at the first timer wake-up at which no client is counted and a full timeout passed since the start and every received event, and never before |
| `IdleTimeout.StaysThrough` | code-oss/cli/src/tunnels/idle_timeout.rs:101-149 | the loop stays exactly when a client is counted or the start or the last event lies less than the timeout back |
| `IdleTimeout.StepKeeps` | code-oss/cli/src/tunnels/idle_timeout.rs:43-68 | guards, channel and loop keep the loop's count equal to the balance of the received events, so the subtraction never saturates |
| `IdleTimeout.CountIsExactInEveryRun` | code-oss/cli/src/tunnels/idle_timeout.rs:43-149 | in every run count plus queued balance is the number of live guards; returning needs a zero count and a quiet timeout |
| `IdleTimeout.EventsInEveryRun` | code-oss/cli/src/tunnels/idle_timeout.rs:43-149 | in every run the clients, the clock and the events sent are what the actions made them, and the loop takes the oldest event |
| `IdleTimeout.FiresIdleIff` | code-oss/cli/src/tunnels/idle_timeout.rs:112-117 | when the loop may return, no client is connected exactly when the events still queued cancel out |
| `IdleTimeout.FiresWithAClient` | code-oss/cli/src/tunnels/idle_timeout.rs:112-128 | it can return with a client connected whose event is still queued |
| `IdleTimeout.FiresAfterFullIdlePeriod` | code-oss/cli/src/tunnels/idle_timeout.rs:100-111 | a loop that keeps up and returns with nothing queued has no client, and none was connected at any moment of the last full timeout |
| `ServeWeb.StepKeepsMap` | code-oss/cli/src/commands/serve_web.rs:731-820 | every step keeps exactly one map entry per unfinished task, under the task's own key |
| `ServeWeb.SingleFlightInEveryRun` | code-oss/cli/src/commands/serve_web.rs:731-789 | in every run a version has at most one task and its key is present exactly while that runs |
| `ServeWeb.CountersInEveryRun` | code-oss/cli/src/commands/serve_web.rs:524-543 | in every run each counter is the number of live handles, so dropping one never underflows |
| `ServeWeb.HandlesInEveryRun` | code-oss/cli/src/commands/serve_web.rs:524-543 | in every run there is one handle per connection made, live until it is dropped, and only then can it be dropped |
| `ServeWeb.ClientsInEveryRun` | code-oss/cli/src/commands/serve_web.rs:524-543 | in every run a client counter is the number of connections made to that server and not dropped |
| `ServeWeb.GetInEveryRun` | code-oss/cli/src/commands/serve_web.rs:731-789 | a lookup starts a task exactly when none exists, and returns the version's one task exactly when it was cached or its outcome is known |
| `ServeWeb.LookupInEveryRun` | code-oss/cli/src/commands/serve_web.rs:731-789 | by the actions before: with no task left for the version a lookup starts one, at once if cached and with a download if not, and returns it exactly if cached; otherwise it starts nothing and returns the task left exactly if that was cached or its barrier is open |
| `ServeWeb.TaskHistoryInEveryRun` | code-oss/cli/src/commands/serve_web.rs:761-908 | by the actions before: a task runs only if its version was cached or its download succeeded, until it fails or ends, and its barrier says which of failure and being bound came |
| `ServeWeb.GuardsInEveryRun` | code-oss/cli/src/commands/serve_web.rs:761-933 | which step of a task can be taken next, by the actions before |
| `ServeWeb.FailureIsReportedAndRetried` | code-oss/cli/src/commands/serve_web.rs:771-872 | in every run a failed download or start reaches everyone waiting, and after cleanup the next lookup starts a new task |
| `ServeWeb.OpenedOnce` | code-oss/cli/src/commands/serve_web.rs:816-908 | what a barrier was opened with never changes |
| `ServeWeb.EndedServerIff` | code-oss/cli/src/commands/serve_web.rs:736-746 | in every run a lookup is given an ended server exactly when the entry awaits its cleanup and was downloaded or has a known outcome, and otherwise only a running or new one |
| `ServeWeb.EndedServerIsHandedOut` | code-oss/cli/src/commands/serve_web.rs:736-746 | a run in which that happens |
| `ServeWeb.ConnectionManager.GetVersionDataInner` | code-oss/cli/src/commands/serve_web.rs:731-789 | a new key returns a task exactly when cached, and the task added downloads exactly when not; a known key adds none and returns its task exactly when downloaded or its barrier is open |
| `ServeWeb.ConnectionManager.RemoveKey` | code-oss/cli/src/commands/serve_web.rs:769-786 | the end of a task removes exactly its own key |
| `ServeWeb.ConnectionManager.NewHandle` | code-oss/cli/src/commands/serve_web.rs:528-534 | a new handle raises the counter and keeps counters equal to live handles |
| `ServeWeb.ConnectionManager.DropHandle` | code-oss/cli/src/commands/serve_web.rs:537-543 | a dropped handle lowers a positive counter by one |
| `ServeWeb.WatchServer` | code-oss/cli/src/commands/serve_web.rs:888-933 | ends at the first exit or due timer, and reports readiness once, at the first line that says so |
| `ServeWeb.KilledExactlyAfterTimeout` | code-oss/cli/src/commands/serve_web.rs:888-929 | the timer ends a server exactly when 3600 s have passed since a last count of zero, 31104000 s since one above zero, none since the counter went, or 3600 s since the start without a count |
| `ServeWeb.PathRoundTrip` | code-oss/cli/src/commands/serve_web.rs:279-309 | a path parses to a version and a rest exactly when it is their concatenation |
| `Upgrade.StepKeepsHolder` | code-oss/cli/src/tunnels/agent_host.rs:764-830 | every step keeps at most one holder of the flag, set exactly while there is one |
| `Upgrade.OneUpgradeInEveryRun` | code-oss/cli/src/tunnels/agent_host.rs:764-830 | in every run at most one request or restart is between the swap and the clearing store, and the flag says whether one is |
| `Upgrade.StartedMeansScheduledInEveryRun` | code-oss/cli/src/tunnels/agent_host.rs:705-842 | answers with upgradeStarted true and restart tasks correspond one to one |
| `Upgrade.AnswersInEveryRun` | code-oss/cli/src/tunnels/agent_host.rs:717-842 | in every run, by the actions: no upgrade is needed exactly when the release found is what ran as the request arrived, and each other answer exactly on its failed lookup, refused swap, failed or finished download |
| `Upgrade.RestartsInEveryRun` | code-oss/cli/src/tunnels/agent_host.rs:798-830 | each restart belongs to a request whose download succeeded; its target is the release found there and not what ran on arrival; its stage is what its actions made it |
| `Upgrade.NoRestartOfAnUpToDateServer` | code-oss/cli/src/tunnels/agent_host.rs:739-816 | a kill is only ever due for a request that found a release other than the one running on its arrival |
| `Upgrade.RunningInEveryRun` | code-oss/cli/src/tunnels/agent_host.rs:813-827 | what runs is what the last start or change made run, and nothing after a kill |
| `Upgrade.GuardsInEveryRun` | code-oss/cli/src/tunnels/agent_host.rs:717-842 | which step of a request or restart can be taken next, by the actions before |
| `Upgrade.KillsAreAnnounced` | code-oss/cli/src/tunnels/agent_host.rs:809-842 | when a restart is about to kill the server its request answered started and no other upgrade is under way |
| `Upgrade.KillRedundantIff` | code-oss/cli/src/tunnels/agent_host.rs:717-830 | in every run, unless the server starts or exits by other means after the winning swap, the kill hits a server already on the target exactly when that ran at the swap |
| `Upgrade.StaleRequestRestartsAgain` | code-oss/cli/src/tunnels/agent_host.rs:717-767 | a run in which a request that read the old commit restarts the already upgraded server |
| `Upgrade.AgentHostManager.ReadRunning` | code-oss/cli/src/tunnels/agent_host.rs:716-719 | a new request holds what runs now |
| `Upgrade.AgentHostManager.DecideOnRelease` | code-oss/cli/src/tunnels/agent_host.rs:721-762 | answered at once exactly when the lookup failed or found what was seen running, and goes on to that release otherwise |
| `Upgrade.AgentHostManager.SwapFlag` | code-oss/cli/src/tunnels/agent_host.rs:764-780 | a request goes on to its target exactly when nobody held the flag and is told that an upgrade is in progress otherwise; the flag is set afterwards |
| `Upgrade.AgentHostManager.FinishDownload` | code-oss/cli/src/tunnels/agent_host.rs:785-842 | a failed download clears the flag and is reported, a good one is answered as started and hands the flag to one new restart task for the target |
| `Upgrade.AgentHostManager.KillAndRestart` | code-oss/cli/src/tunnels/agent_host.rs:813-830 | a restart passes through kill and start and leaves no holder, whether or not the start succeeds |
| `Gateway.AwaitSelection` | code-oss/cli/src/tunnels/agent_host.rs:1859-1893 | the first message that is not a ping or pong decides: a text parses to the selection or is malformed, a binary one is refused, and an end or error leaves |
| `Gateway.Resolve` | code-oss/cli/src/tunnels/agent_host.rs:1895-1943 | a non-empty instance id gives the first listed entry with it or is no longer live; else newDedicated gives the spawned entry or its error; else nothing was selected |
| `Gateway.TargetIsDetermined` | code-oss/cli/src/tunnels/agent_host.rs:1896-1911 | a selection asks for one target at most |
| `Gateway.ProxyGatewayFrames` | code-oss/cli/src/tunnels/agent_host.rs:2074-2118 | frames are passed on in order each way up to the first turn that cannot be, and a close is passed to the other side |
| `Gateway.FramesPrefix` | code-oss/cli/src/tunnels/agent_host.rs:2074-2118 | each side receives an in-order prefix of what the other sent |
| `Gateway.ServeTarget` | code-oss/cli/src/tunnels/agent_host.rs:1945-1988 | nothing reaches the target unless the acknowledgement was sent |
| `Gateway.RunGatewaySession` | code-oss/cli/src/tunnels/agent_host.rs:1831-1988 | the inventory has one endpoint per listed entry, field by field; then the client gets nothing, one failure with the reason that applies and a close, or one acknowledgement of the selected instance and target frames; which one is determined when sends succeed |
| `Gateway.AckedFramesInOrder` | code-oss/cli/src/tunnels/agent_host.rs:1955-1988 | after the acknowledgement both sides receive in-order prefixes, each possibly with a close behind |
| `Auth.Connection.HandleChallengeIssue` | code-oss/cli/src/tunnels/control_server.rs:1143-1160 | denied exactly when a token is expected and not shown, and then nothing changes; otherwise the new challenge is the one to answer |
| `Auth.Connection.HandleChallengeVerify` | code-oss/cli/src/tunnels/control_server.rs:1162-1179 | succeeds exactly when authenticated already or the issued challenge is answered; a failure changes nothing |
| `Auth.AuthenticatedInEveryRun` | code-oss/cli/src/tunnels/control_server.rs:130-137 | whoever is authenticated answered the last issued challenge and showed any expected token, or none was ever required |
| `Auth.BarredUntilAnswered` | code-oss/cli/src/tunnels/control_server.rs:1143-1179 | issuing again takes authentication away until exactly that challenge is answered |
| `RingBuffer.RingBuffer.Push` | code-oss/cli/src/util/ring_buffer.rs:35-43 | keeps the last values in rotated order with the index at pushes modulo capacity; panics exactly without capacity |
| `RingBuffer.RingBufferIter.Next` | code-oss/cli/src/util/ring_buffer.rs:96-105 | yields the last values in push order |
| `RingBuffer.OwnedRingBufferIter.Next` | code-oss/cli/src/util/ring_buffer.rs:76-85 | yields the same while emptying the slots |
| `RingBuffer.PushAllThenIterate` | code-oss/cli/src/util/ring_buffer.rs:11-106 | after any pushes both iterators yield exactly the last min(pushes, capacity) values |
| `RingBuffer.OverwriteOldest` | code-oss/cli/src/util/ring_buffer.rs:36-42 | overwriting the oldest slot drops it and appends the new value |
| `Tail.LinesUnique` | code-oss/cli/src/util/io.rs:138-155 | a text splits into complete lines in at most one way |
| `Tail.ReadLine` | code-oss/cli/src/util/io.rs:138-151 | one complete line, or the incomplete rest |
| `Tail.Tailer.FirstScan` | code-oss/cli/src/util/io.rs:131-159 | sends the last n complete lines and stops on a line boundary; panics exactly when n is zero and a complete line is there |
| `Tail.Tailer.Poll` | code-oss/cli/src/util/io.rs:165-215 | a reset is sent exactly when the file is shorter than at the last length asked for; each later complete line is sent once and in order, a partial one held back; all there at the poll are sent when growth or cut can be told |
| `Tail.Follow` | code-oss/cli/src/util/io.rs:119-219 | over any number of polls of a growing file: the last n lines of the first scan, then every later complete line once and in order, up to those there at the last poll |
| `Tail.CutGoesUnnoticed` | code-oss/cli/src/util/io.rs:177-186 | a cut not below the last length asked for sends nothing and leaves the position behind the end |
| `Tail.ScanBehindTheLength` | code-oss/cli/src/util/io.rs:121-155 | a first scan can read past the length it asked for |
| `Tail.Tailer.ReadOn` | code-oss/cli/src/util/io.rs:195-214 | reads on from a line boundary until no complete line is left |
| `KillTree.CollectTree` | code-oss/cli/src/util/command.rs:278-295 | ends on a finite forest, fails exactly when the root's lookup fails, and collects the root first, every reported child of a collected process, each once and after a parent of it |
| `KillTree.CollectsLevelByLevel` | code-oss/cli/src/util/command.rs:278-295 | the collected list is the root's levels in breadth-first order, down to an empty one |
| `KillTree.CollectedIffReachable` | code-oss/cli/src/util/command.rs:281-295 | a process is collected exactly when successful lookups lead to it |
| `Paths.LexicallyNormalize` | code-oss/cli/src/util/extract_safety.rs:11-30 | gives up exactly when the walk would leave the top, and otherwise ends where a directory walk ends |
| `Paths.NeverAboveIff` | code-oss/cli/src/util/extract_safety.rs:22-26 | that is, at every point at least as many levels were entered as left |
| `Paths.NormalizedStays` | code-oss/cli/src/util/extract_safety.rs:14-30 | normalizing again changes nothing |
| `Paths.DotMakesNoDifference` | code-oss/cli/src/util/extract_safety.rs:18-21 | a `.` anywhere changes neither where the walk ends nor whether it leaves the top |
| `Paths.NameAndParentCancel` | code-oss/cli/src/util/extract_safety.rs:18-27 | nor does a name directly before a `..` |
| `Paths.ParentLeavesTheTop` | code-oss/cli/src/util/extract_safety.rs:22-26 | a `..` at the top leaves it |
| `Paths.SafeExtractJoin` | code-oss/cli/src/util/extract_safety.rs:45-80 | accepts exactly the non-empty relative entries that land inside the root, at that place |
| `Paths.ValidateSymlinkTarget` | code-oss/cli/src/util/extract_safety.rs:108-151 | accepts exactly the relative targets that land inside the root when followed from the link's directory |
| `Paths.EntryThatStaysInside` | code-oss/cli/src/util/extract_safety.rs:49-80 | an entry that never goes above the root is accepted and lands where it points |
| `Paths.EntryThatEndsOutside` | code-oss/cli/src/util/extract_safety.rs:65-78 | an entry that ends above the root is refused |
| `Paths.EntryThatComesBack` | code-oss/cli/src/util/extract_safety.rs:65-78 | an entry may leave the root and come back through its last name |
| `DevTunnels.CleanHostnameForTunnel` | code-oss/cli/src/tunnels/dev_tunnels.rs:1218-1238 | the kept characters of the first sixty without dashes at the ends, or the fallback; always a usable name |
| `DevTunnels.CleanedSnoc` | code-oss/cli/src/tunnels/dev_tunnels.rs:1218-1230 | letters and digits stay, a dash, underscore or space becomes a dash, anything else goes |
| `DevTunnels.GetPlaceholderName` | code-oss/cli/src/tunnels/dev_tunnels.rs:807-812 | the cleaned host name in lower case cut to twenty characters; a valid name whatever the host is called |
| `DevTunnels.FreeName` | code-oss/cli/src/tunnels/dev_tunnels.rs:842-851 | ends, with the placeholder or its least suffix from 2 on that no hosted tunnel has as a label |
| `DevTunnels.SuffixBound` | code-oss/cli/src/tunnels/dev_tunnels.rs:844-850 | the suffix is at most two more than the number of taken labels |
| `DevTunnels.SuffixedValidIff` | code-oss/cli/src/tunnels/dev_tunnels.rs:283-301 | a suffixed name is valid exactly when both parts fit into twenty characters |
| `DevTunnels.FullLengthSuffixInvalid` | code-oss/cli/src/tunnels/dev_tunnels.rs:807-851 | with a full-length placeholder the chosen name is valid exactly when the placeholder was free |
| `DevTunnels.GetNameForTunnel` | code-oss/cli/src/tunnels/dev_tunnels.rs:814-855 | an error exactly for a preferred name that is empty, over twenty characters or has another character; else the preferred name if free, else a free default |
| `DevTunnels.VecEqAsSet` | code-oss/cli/src/tunnels/dev_tunnels.rs:1240-1252 | equal length and every label of the first in the second |
| `DevTunnels.EqAsSetSoundIff` | code-oss/cli/src/tunnels/dev_tunnels.rs:1240-1252 | it never calls different sets equal exactly when the first list has no repeats |
| `DevTunnels.EqAsSetExact` | code-oss/cli/src/tunnels/dev_tunnels.rs:1240-1252 | without repeats it decides equality of the sets |
| `DevTunnels.Backoff.Next` | code-oss/cli/src/tunnels/dev_tunnels.rs:1202-1209 | the delay is min(failures * base, max), also when the multiplication overflows |
| `DevTunnels.Backoff.ConsecutiveDelays` | code-oss/cli/src/tunnels/dev_tunnels.rs:1198-1213 | the k-th delay after a success is min(k * base, max) |
| `DevTunnels.DelayMonotone` | code-oss/cli/src/tunnels/dev_tunnels.rs:1202-1209 | delays never shrink, never exceed the cap and stay at it |

## Left out

- Sockets, pipes, processes, HTTP and WebSocket handshakes, dev-tunnel service calls, file permissions and access
  control lists: replaced by inputs, outcomes of calls, or abstract maps.
- DEFLATE, SHA-256, base64, JSON, MessagePack and the challenge signature: only the facts each caller needs are stated.
- Windows-only paths, among them the registry's remove-then-rename retry: the rename that publishes is atomic.
- `Multiplexer.StepKeeps`: needs fresh ids; what happens without them is `Multiplexer.ReusedIdLosesABridge`.
- `Multiplexer.OneOwnerInEveryRun`: is about runs whose registrations use free ids, as is `Multiplexer.WritesInOrderInEveryRun`.
- `PortForwarding.CountsMatchHandlesInEveryRun`: counts are unbounded numbers; the source's are 32 bits wide. A
  panic is a missing map entry or a decrement of zero.
- `PortForwarding.WantedInEveryRun`: is about lists without repeated records, as is `PortForwarding.HandlesInEveryRun`; what
  others do is `PortForwarding.ReplacedConsistentIff`.
- `PortForwarding.PortForwardingReceiver.ApplyTo`: covers port and privacy only, because a change of protocol at the
  same privacy is not applied again by the source.
- `FlateStream.FlateStream.Process`: that the DEFLATE coders meet the stated facts is not proved; those that are asked
  for are met by a small coder that also repeats its marker.
- `FlateStream.ServerMessageSink.ServerMessageOrClosed`: the identity of the destination's two kinds (channel and RPC
  caller) is not modelled; a destination is a log of sends that may be closed.
- `LogReplay.ReplaySeamInEveryRun`: needs lines remembered in sequence and does not claim that no line falls between the snapshot
  and the subscription, because lines broadcast there are missed.
- `RingBuffer.RingBuffer.Push`: the capacity is exact, where a Rust vector may reserve more.
- `Tail.Tailer.Poll`: after a cut or rewriting that went unnoticed nothing is claimed of the lines sent; UTF-8 decoding and
  a receiver that goes away are not modelled.
- `RegistryReads.ReadInEveryRun`: which files an enumeration visits while the directory changes is an input. The legacy
  file is read before and given by its live entries. A directory that vanishes is an empty one.
- `RegistryRuns.ListingWithoutReuse`: assumes that instance ids are never reused and SHA-256 is injective.
- `IdleTimeout.WaitForIdleTimeout`: a closed channel ends the method without firing; the source then waits forever.
- `ServeWeb.SingleFlightInEveryRun`: delivery of a barrier to every waiter is not claimed, because a server that exits
  before it is ready drops its opener unopened.
- `ServeWeb.PathRoundTrip`: which quality names exist is a parameter; they contain no dash or slash.
- `Upgrade.OneUpgradeInEveryRun`: a restart task that panics, and so never clears the flag, is not modelled.
- `Gateway.RunGatewaySession`: the close sent at the end is recorded as sent, its failure being ignored by the source.
- `KillTree.CollectTree`: the lookups describe a finite forest; process ids reused during the walk are not modelled.
- `Paths.SafeExtractJoin`: works on component lists; splitting strings into components and file-system symlinks are
  not modelled.
- `DevTunnels.GetNameForTunnel`: the interactive prompt is not modelled, nor are non-ASCII word characters in names.
- `DevTunnels.Backoff.Next`: the failure count is unbounded; the source's is 32 bits wide.
- The manager's "at most one server running" is not claimed, since starting a server releases its lock before the
  new barrier is stored.
- Argument parsing, banners, pager, prompts and log texts: no state worth proving.
