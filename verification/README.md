# FFN-NGFW: a verified model of the dataplane and configuration cores

FFN-NGFW is a firewall with several dataplanes and a management plane. This project models
its stateful and algorithmic cores in Dafny and proves what they promise over every input,
every run or every reachable state.

| file | what it models |
|---|---|
| `Words.dfy` | fixed-width words, byte codecs, bitwise AND and in-place buffers, shared by the other files |
| `FlowTable.dfy` | the forwarder's open-addressed, bidirectional flow cache as a finite map, for any hash |
| `Policy.dfy` | the policy image: generator, loader, first-match classifier, and what a rule means |
| `Forwarder.dfy`, `ForwarderRuns.dfy`, `ForwarderMeaning.dfy` | packet processing and the command loop; the cache against the classifier over whole runs; counter conservation; which policy a bank switch puts in force and what each counter counts |
| `Octeon.dfy` | the OCTEON-II and OCTEON-III packet I/O backends: who owns and returns each buffer, and by which port each packet leaves |
| `Ring.dfy`, `RingBytes.dfy`, `RingTorn.dfy` | the shared-region command and event rings, as interleaved steps and as bytes, and what a byte-wise head store does to them |
| `Banks.dfy`, `DpMem.dfy` | the double-buffered model memory: arenas, directories, cloning, publishing |
| `ModelUpdates.dfy`, `UpdateRuns.dfy`, `FastPath.dfy` | the update consumer over that memory, whole runs of updates, and what the accelerated forwarder's classifier makes of the policy they leave |
| `Ha.dfy` | active/active high availability: ownership, failover, anti-flap |
| `AntiVirus.dfy`, `SignatureText.dfy`, `AvScanner.dfy` | the signature compiler, the literal-anchor extractor and when its anchor is necessary; what a signature text denotes; the indexes and the pre-filter built on them |
| `Nft.dfy`, `NftNames.dfy` | the rulebase-to-nftables compiler and the evaluation of what it generates; when its output loads, and exactly which names and tags it can be trusted with |
| `Inspection.dfy` | per-flow inspection state and the carry window across packets |
| `ObjectGroups.dfy` | group resolution, the depth-first group check, the sweep before a candidate is saved |
| `ApplyCycle.dfy`, `ConfigLock.dfy` | the staged apply cycle with its checkpoint, and the edit lease |

Code that changes state in place is modelled by classes and array-writing methods, each proved
to take the state to a function of the old state; the theorems over runs are about those
functions. Where such a function is also what a method calls, a lemma says what it means in other
terms: the bytes a text denotes, the packets a row catches, the port a frame arrived on, the events
of the run. Hash functions are parameters, so what holds holds for every hash. Counters and
indices wrap at their C widths. Inductions are written out, with automatic induction switched off for them.

## What the proofs found

Six promises do not hold of the code as it stands. Each has a failing case and the condition
under which the promise does hold.

- A refused bank load clears the policy but not the flow cache, so stale verdicts survive
  (`StaleAfterRefusedLoad`, `StaleRunExists`, `RefusedLoadSafeIff`); a changed default decision does
  the same (`StaleAfterDefaultChange`) unless the old default is never cached (`DefaultChangeSafeIff`).
- The ring head is stored byte by byte, and the consumer pops until the ring is empty. At every point
  of the stores it takes what it would take before or after them if and only if the increment does
  not carry out of the low byte (`TornDrainIff`); with a carry it runs through the outstanding messages
  and on into descriptors nobody published (`TornDrainOverruns`), and for every number of outstanding
  messages a schedule leads there (`TearingReached`).
- A bank's stamp is meant to be odd while the bank is written and even while it is active. From any
  starting stamps the parity is that of the stamp the bank inherited plus the updates refused since
  the last publication (`StampParity`, `DirtyMarkedIff`). So from the zeroed header a region starts with,
  one refused update leaves the next write unmarked (`UnmarkedAfterRefusal`). The initial loader in the
  tree is a stub that stores nothing; one that resets its bank first would in addition leave the active
  bank under an odd stamp until the first publication and the next write unmarked (`SeededMarks`).
- The anchor extractor falls out of step after a low-nibble token such as `?a` that is followed by a
  hex digit, and then the scanner calls a file clean that the signature matches (`LowNibbleLosesFile`).
  Where each wildcard of a signature can avoid the anchor's bytes, the scanner finds every file the
  signature flags if and only if the anchor stands literally in the pattern (`FilterExactIff`,
  `NecessaryIffLiteral`); signatures without such a token always have one that does (`AlignedIsSafe`). A text that leaves a lone last character is not
  refused but raises, and stops the whole rebuild half way (`AvScanner.Scanner.Compile`).
- Generated nftables names of two virtual systems can collide (`UnderscoresCollide`), and then packets
  are accepted by rules that are not theirs. For given names the compiler preserves the meaning of
  every configuration if and only if the names are clear (`NamesClearIff`). Derived tags can coincide
  too (`TagsDoMeet`), exactly as `DerivedTagsMeetIff` says. Apart from names, a rule whose action is spelled
  otherwise than allow, deny or reject lets packets through and may queue them for inspection, but does
  not make its virtual system inspect established traffic (`EstablishedInspectedIff`).
- The mark of a finished apply cycle means nothing to a caller that swallows the exception of a
  checkpoint call (`VerifiedWithoutCheckpoint`, `VerifiedMeansSavedIff`). To one that records every
  exception as an error, as the configuration daemon does, the last stage is verified if and only if
  the checkpoint was replaced and no error is on record (`CarefulMarkIff`).

Three further facts follow from proofs: the flow cache replays one direction's decision for the other,
so it is invisible exactly under configurations that decide opposite packets alike
(`CacheInvisibleIff`); the model memory never frees, so a region accepts only a
bounded number of updates that carry data (`AcceptedLoadsBounded`, `RefusalIsPermanent`); and
`model_count` counts puts, not present slots as its comment says (`Seed`).

## Model

| member | source | states |
|---|---|---|
| `FlowTable.KeyIdentifiesConversation` | dataplanes/ffn_dp_oct.c:155-169 | two packets share a flow key exactly when they are of one conversation, in the same or the opposite direction, and the key names the smaller endpoint first |
| `FlowTable.FullIff` | dataplanes/ffn_dp_oct.c:171-227 | the map a table stands for has as many keys as the table has slots exactly when every slot is used |
| `FlowTable.ProbeMeaning` | dataplanes/ffn_dp_oct.c:196-227 | what a probe's stopping place says about membership: a hit is the stored key, a gap or a full cycle mean the key is absent |
| `FlowTable.FillGap` | dataplanes/ffn_dp_oct.c:210-227 | filling the first gap on a key's probe path keeps keys distinct and every probe path free of gaps, and adds just that key to the map |
| `FlowTable.RewriteEntry` | dataplanes/ffn_dp_oct.c:196-227 | rewriting an entry under its own key keeps the table well formed and updates just that key |
| `FlowTable.MaskedSlot` | dataplanes/ffn_dp_oct.c:196-227 | masking the hash plus the probe number walks the slots cyclically |
| `FlowTable.Table.constructor` | dataplanes/ffn_dp_oct.c:171-180 | the size is rounded up to the next power of two and the table is an empty map |
| `FlowTable.Table.Flush` | dataplanes/ffn_dp_oct.c:189-194 | the table becomes the empty map |
| `FlowTable.Table.Lookup` | dataplanes/ffn_dp_oct.c:196-208 | a slot is found exactly when the key is stored, and it is that key's slot |
| `FlowTable.Table.Insert` | dataplanes/ffn_dp_oct.c:210-227 | fails exactly when the key is absent and every slot is used; otherwise the map gains at most that key with a zeroed entry |
| `FlowTable.Table.Write` | dataplanes/ffn_dp_oct.c:210-227 | writing through an entry pointer is a map update at the entry's key |
| `Policy.TablesLoad` | dataplanes/ffn_dp_oct.c:42-91 | the code and the table of every blob: the rows in order when accepted, the cleared table when refused |
| `Policy.Classify` | dataplanes/ffn_dp_oct.c:96-124 | the first row that matches decides; no-match exactly when none does |
| `Policy.MakePolicy` | dataplanes/mkpolicy.py:26-40 | emits header and packed rows for every rule list whose numbers fit 16 bits, and fails otherwise |
| `Policy.RowRoundTrip` | dataplanes/mkpolicy.py:13-37 | the loader reads a packed row back field for field, addresses through their network byte order |
| `Policy.RecordsLoad` | dataplanes/ffn_dp_oct.c:42-91 | a header with n records behind it loads exactly those records in order, whatever follows |
| `Policy.ImageRoundTrip` | dataplanes/mkpolicy.py:26-40 | loading the image of at most 16384 rules succeeds and yields the rules' rows in order |
| `Policy.MaskMeansPrefix` | dataplanes/mkpolicy.py:13-21 | comparing under the generated mask is sharing the network's leading bits |
| `Policy.RowMeansRule` | dataplanes/ffn_dp_oct.c:96-124 | a rule's row matches exactly the packets the rule applies to |
| `Policy.ClassifyMeansFirstRule` | dataplanes/ffn_dp_oct.c:96-124 | first match over the rows is the first rule that applies |
| `Policy.PolicyImagePreservesMeaning` | dataplanes/mkpolicy.py:13-40 | classifying with the loaded image is first match over the source rules, for every packet |
| `Policy.ActionNumbers` | dataplanes/mkpolicy.py:8-11 | the decision numbers the rule actions stand for |
| `Policy.AddressOctets` | dataplanes/mkpolicy.py:13-21 | an address in network order is its four octets, and any address is zeros |
| `Policy.HeaderRest` | dataplanes/mkpolicy.py:39 | the header fields the loader does not read: the number of records again, and zeros |
| `Policy.AnyRowLoads` | dataplanes/ffn_dp_oct.c:66-89 | every row whatsoever loads from its wire bytes, field for field |
| `Policy.RefusedWith` | dataplanes/ffn_dp_oct.c:42-65 | the code of every blob, by the first of the six tests it fails on its bytes |
| `Policy.RowFieldsMean` | dataplanes/ffn_dp_oct.c:96-124 | what any row with prefix masks matches: virtual system and protocol with 0 for any, leading address bits, and both port ranges where the packet has ports |
| `Forwarder.ParseEmitted` | dataplanes/ffn_dp_oct.c:232-272 | every well-formed frame, tagged or not, with any IP options, parses to its own tuple |
| `Forwarder.Context.constructor` | dataplanes/ffn_dp_oct.c:472-485 | a context starts with no rows, an empty cache and a default of drop |
| `Forwarder.Context.ProcessPacket` | dataplanes/ffn_dp_oct.c:277-358 | the in-place packet path is the specified step: parse errors, cache hits, classification, caching, counters |
| `Forwarder.Context.Store` | dataplanes/ffn_dp_oct.c:331-347 | a decision is remembered exactly when the key is cached already or there is room |
| `Forwarder.Context.ServeCommand` | dataplanes/ffn_dp_oct.c:403-467 | bank switches, default changes, flushes and shutdown act on the state as specified, refused loads included; `BankSwitchMeans`, `BankRefused` and `OtherCommandsMean` say what that is |
| `ForwarderMeaning.FramesSorted` | dataplanes/ffn_dp_oct.c:232-299 | a frame is short, not IP, malformed or readable exactly as its bytes say; what is not IP goes to the local stack and what is malformed is dropped, under no rule |
| `ForwarderMeaning.FirstRuleAt` | dataplanes/ffn_dp_oct.c:96-124 | the rulebase's answer is that of the first rule that applies, by index, under its number |
| `ForwarderMeaning.BankSwitchMeans` | dataplanes/ffn_dp_oct.c:403-448 | with one image at 0x4000 and another at 0x404000, a switch puts exactly the chosen one in force: every tuple is decided by its first applicable rule or the default, the bank is recorded and the cache empty |
| `ForwarderMeaning.BankRefused` | dataplanes/ffn_dp_oct.c:403-422 | a bank number above one, a missing region and one too short for the bank's header change nothing |
| `ForwarderMeaning.OtherCommandsMean` | dataplanes/ffn_dp_oct.c:425-467 | a default decides what no row does, a flush empties the cache, a shutdown stops the loop, and an unknown command does nothing |
| `ForwarderMeaning.CountersCount` | dataplanes/ffn_dp_oct.c:277-358 | over every run each counter is the number of packets of its own kind: received, unreadable, replayed, classified, without room, decided each way, sent, not sent |
| `ForwarderMeaning.EntryTotals` | dataplanes/ffn_dp_oct.c:301-347 | over every run a cached entry has counted every packet and byte of its conversation since the last flush |
| `ForwarderRuns.CacheProvenance` | dataplanes/ffn_dp_oct.c:277-358 | on every run, each cached verdict was decided since the last flush for an actual packet of the same conversation under the configuration then in force |
| `ForwarderRuns.CacheCoherent` | dataplanes/ffn_dp_oct.c:277-467 | while no load was refused and the default did not change since the last flush, every cached verdict is what the tables and default now in force decide for a packet of that conversation |
| `ForwarderRuns.ConfigSinceFlush` | dataplanes/ffn_dp_oct.c:403-467 | tables and default are the same at every point since the last flush of an undisturbed run |
| `ForwarderRuns.DefaultChangeSafeIff` | dataplanes/ffn_dp_oct.c:449-451 | a default change keeps every coherent cache coherent exactly when nothing changes or the old default is never cached |
| `ForwarderRuns.RefusedLoadSafeIff` | dataplanes/ffn_dp_oct.c:42-44 | a refused load keeps a cache coherent exactly when every answering entry replays the bare default |
| `ForwarderRuns.StaleAfterRefusedLoad` | dataplanes/ffn_dp_oct.c:403-422 | after a good bank, a forwarded packet and a refused bank, the cache still forwards what the policy drops |
| `ForwarderRuns.StaleRunExists` | dataplanes/ffn_dp_oct.c:403-422 | that run exists for a generated image, every well-formed frame without ports, and a region of zeros |
| `ForwarderRuns.StaleAfterDefaultChange` | dataplanes/ffn_dp_oct.c:449-451 | after any parsed packet and a default of forward, the cache still drops what the policy forwards |
| `ForwarderRuns.CacheInvisible` | dataplanes/ffn_dp_oct.c:277-358 | on an undisturbed run a packet whose two directions are decided alike gets exactly the classifier's answer |
| `ForwarderRuns.CacheInvisibleIff` | dataplanes/ffn_dp_oct.c:277-358 | from an empty cache every packet of every run of packets gets the classifier's answer if and only if a cacheable decision for a packet is the decision for every packet of the opposite direction |
| `ForwarderRuns.ReplyReplays` | dataplanes/ffn_dp_oct.c:277-319 | the reply to a packet with a cacheable decision gets that packet's decision |
| `ForwarderRuns.PollCounts` | dataplanes/ffn_dp_oct.c:494-523 | one polled packet keeps the counter equations |
| `ForwarderRuns.CountersAddUp` | dataplanes/ffn_dp_oct.c:277-358 | over every run received packets are hits, classifications and parse errors, and forwards and inspections are sends and failures; with known decisions the dispositions add up too |
| `Octeon.DisposalIsExact` | dataplanes/ffn_dp_io_octeon3.c:85-122 | freeing data and WQE, or sending the data and freeing the WQE, returns each allocation exactly once to its own pool, on both generations, whether or not the WQE lies inside the data buffer |
| `Octeon.RouteMeans` | dataplanes/ffn_dp_io_octeon.c:278-293 | the route is the one port a packet may leave by: its egress, or on two ports the one it did not arrive on |
| `Octeon.DescriptorMeans` | dataplanes/ffn_dp_io_octeon3.c:85-122 | a descriptor exists exactly for packets the send header can express, and names the packet's length, buffer and aura |
| `Octeon.AcceptableMeans` | dataplanes/ffn_dp_io_octeon.c:248-262 | exactly the linear frames with data from a known port reach the forwarder, with the virtual system of the port they arrived on |
| `Octeon.Io.DisposeFree` | dataplanes/ffn_dp_io_octeon.c:178-189 | returns everything a held item owes; a second disposal returns nothing and is counted |
| `Octeon.Io.DisposeSent` | dataplanes/ffn_dp_io_octeon.c:192-201 | returns only the WQE of a held item; a second disposal returns nothing and is counted |
| `Octeon.Io.Rx` | dataplanes/ffn_dp_io_octeon.c:234-267 | what was dequeued is either delivered and held or has been returned; the slots hold exactly the acceptable items and the burst shows their frames, in order |
| `Octeon.Io.Tx` | dataplanes/ffn_dp_io_octeon.c:269-305 | a held packet leaves exactly when there is a port it may leave by and the hardware takes it there, and then by that port: its egress, or on two ports the one it did not arrive on; otherwise nothing leaves; every counter is accounted for and the packet is disposed of once |
| `Octeon.Io.ToLocal` | dataplanes/ffn_dp_io_octeon.c:307-316 | a held packet for the host is disposed of once; one already disposed of is counted as a double disposal and returns nothing |
| `Octeon.Io.ToOffload` | dataplanes/ffn_dp_io_octeon.c:318-325 | the same for the offload engine |
| `Octeon.Io.FreePkt` | dataplanes/ffn_dp_io_octeon.c:329-339 | a dropped packet is disposed of once |
| `Octeon.Io.Fini` | dataplanes/ffn_dp_io_octeon.c:223-232 | teardown returns what is still held of the last burst and skips what was sent or freed |
| `Octeon.PollPacket` | dataplanes/ffn_dp_oct.c:504-521 | one packet takes the forwarder's step and its buffers go back once, whatever the decision; it counts as sent on both sides exactly when it was to be sent and could be |
| `Octeon.ServeCommands` | dataplanes/ffn_dp_oct.c:425-467 | the command ring is popped until empty, and the forwarder takes the steps of exactly the commands it offered, in order |
| `Octeon.PollOnce` | dataplanes/ffn_dp_oct.c:494-523 | after every poll each dequeued item has returned each allocation exactly once and none is held, the accounting counters balance with no double disposal, the forwarder took exactly the steps of the popped commands and delivered frames with each send as the hardware answered, the record of departures grew by exactly the sent packets, each by its own port and in order, and both sides count the same sends |
| `Octeon.ServeAndStop` | dataplanes/ffn_dp_oct.c:487-531 | any number of polls followed by teardown returns everything that was handed over, exactly once |
| `Ring.ProducerKeepsInv` | dataplanes/ffn_dp_abi.h:183-199 | a producer step keeps the ring invariant and overwrites no live slot |
| `Ring.ConsumerKeepsInv` | dataplanes/ffn_dp_abi.h:202-216 | a consumer step keeps the ring invariant and writes no slot |
| `Ring.EverySchedule` | dataplanes/ffn_dp_abi.h:166-216 | under every interleaving, across index wraps, what was popped is a prefix of what was pushed, at most 64 are outstanding and each live slot holds its message, no flags and its number modulo 2^32 |
| `Ring.PushAlone` | dataplanes/ffn_dp_abi.h:183-199 | the producer's steps run alone are one push, refused exactly when 64 are outstanding |
| `Ring.PopAlone` | dataplanes/ffn_dp_abi.h:202-216 | the consumer's steps run alone are one pop of the oldest message, refused exactly when nothing is outstanding |
| `Ring.DrainedIsOutstanding` | dataplanes/ffn_dp_abi.h:202-216 | popping until empty takes exactly the published messages not yet taken, in order |
| `Ring.TornHeadHarmlessIff` | dataplanes/ffn_dp_abi.h:67-72 | storing the head byte by byte shows only the old or the new head exactly when the increment does not carry out of the low byte |
| `RingTorn.TornDrainIff` | dataplanes/ffn_dp_abi.h:183-216 | for any number outstanding, popping until empty between the byte stores of a publication takes what it takes before or after, at every point, if and only if the increment does not carry out of the low byte |
| `RingTorn.TornDrainOverruns` | dataplanes/ffn_dp_abi.h:183-216 | with a carry it takes the outstanding messages, the one being published, and 2^32 less about 250 descriptors more that nobody published |
| `RingTorn.TearingReached` | dataplanes/ffn_dp_abi.h:183-216 | for every number outstanding below 64 some schedule stops right before such a head store |
| `RingBytes.DescRoundTrip` | dataplanes/ffn_dp_abi.h:30-83 | a descriptor's bytes decode to the descriptor |
| `RingBytes.DecodeDesc` | dataplanes/ffn_dp_abi.h:176-199 | writing a descriptor's bytes changes that slot of the ring and nothing else |
| `RingBytes.DecodeIndex` | dataplanes/ffn_dp_abi.h:166-175 | writing an index changes just that index |
| `RingBytes.InitRing` | dataplanes/ffn_dp_abi.h:218-222 | the cleared buffer is the empty ring |
| `RingBytes.PushMsg` | dataplanes/ffn_dp_abi.h:183-199 | the byte-level push is the specified push; a full ring is left untouched |
| `RingBytes.PopMsg` | dataplanes/ffn_dp_abi.h:202-216 | the byte-level pop is the specified pop; an empty ring is left untouched |
| `Banks.AlignUpIsMask` | dpdk/ffn_dpmem.h:238-241 | adding 63 and masking is rounding up to the next multiple of 64 |
| `Banks.RowsRoundTrip` | dpdk/ffn_mpdp_consumer.c:201-233 | policy rows laid out in memory read back row for row |
| `Banks.MovedView` | dpdk/ffn_dpmem.h:319-364 | a bank copied to another arena with every offset and pointer moved by the distance shows the same record |
| `DpMem.Region.constructor` | dpdk/ffn_dpdk_mp.c:270-298 | a reserved region has two zeroed banks over disjoint arenas, bank 0 active |
| `DpMem.Region.ArenaAlloc` | dpdk/ffn_dpmem.h:386-394 | allocates at the aligned cursor exactly when the bytes fit; a refused allocation changes nothing |
| `DpMem.Region.ArenaDup` | dpdk/ffn_dpmem.h:397-404 | copies the bytes to the allocated place, or changes nothing |
| `DpMem.Region.BankReset` | dpdk/ffn_dpmem.h:257-271 | empties the arena and the slot directory and nothing else |
| `DpMem.Region.BankPut` | dpdk/ffn_dpmem.h:275-313 | accepted exactly when the type is known and header and payload fit; writes header, payload and slot; a refused put changes nothing |
| `DpMem.Region.LookupModel` | dpdk/ffn_dpmem.h:210-225 | returns the payload, version and checksum the bank holds for a type, or nothing |
| `DpMem.Region.BankClone` | dpdk/ffn_dpmem.h:319-364 | afterwards the destination shows the record the source showed, and the source is untouched |
| `DpMem.Region.Publish` | dpdk/ffn_dpmem.h:418-424 | the staged bank becomes active with an even stamp in one last step, its record unchanged |
| `DpMem.Region.SigVerdictApply` | dpdk/ffn_dpmem.h:467-480 | replaces only the active bank's hot verdict, the digest cut or zero-padded to 32 bytes |
| `DpMem.Seed` | dpdk/ffn_dpmem.h:257-313 | after a reset any sequence of puts leaves aligned, disjoint records inside the arena that still hold their bytes, with the directory naming the last one of each type |
| `DpMem.RecordReads` | dpdk/ffn_dpmem.h:97-104 | a stored record reads back: type, zero flags, length, version and checksum at their places, and the payload behind them |
| `DpMem.LayoutGrows` | dpdk/ffn_dpmem.h:275-313 | one more put keeps the earlier records intact and apart |
| `ModelUpdates.ParsedCidrMeans` | dpdk/ffn_mpdp_consumer.c:56-81 | comparing under a parsed network is membership in the prefix the text asks for |
| `ModelUpdates.StartRegion` | dpdk/ffn_dpmem.h:251-313 | a region whose first bank is reset, filled and set active is valid, holds the last model of each type, and carries the odd stamp of the reset |
| `ModelUpdates.AddRows` | dpdk/ffn_mpdp_consumer.c:197-233 | the compiled rows lie in the arena, or the update is refused for space or for a malformed address, exactly as specified |
| `ModelUpdates.ApplyMl` | dpdk/ffn_mpdp_consumer.c:84-115 | accepted exactly when both blobs fit; then the active record carries the model and is otherwise the old one, else it is the old one |
| `ModelUpdates.ApplyPolicy` | dpdk/ffn_mpdp_consumer.c:190-241 | accepted exactly when the rows fit and every address parses; then the active record carries the compiled rows and is otherwise the old one |
| `ModelUpdates.ApplyThreatIntel` | dpdk/ffn_mpdp_consumer.c:121-187 | accepted exactly when the row tables fit; then the active record carries the rows' plain columns, and strings fill the arena as far as they fit |
| `ModelUpdates.InternRow` | dpdk/ffn_dpmem.h:433-463 | copying a row's strings moves the cursor past those that fit and disturbs no plain column and nothing outside the table |
| `ModelUpdates.ApplySigVerdict` | dpdk/ffn_mpdp_consumer.c:245-258 | patches the hot verdict without a flip |
| `ModelUpdates.Apply` | dpdk/ffn_mpdp_consumer.c:260-299 | every frame takes the record, active index and stamps to the specified successor; no write reaches the bank active at the start and the index changes at most once, last; a refused frame leaves the active bank as it was |
| `ModelUpdates.ControlLoop` | dpdk/ffn_dpdk_mp.c:327-347 | a whole run of frames refines the run of the simple record, code by code, and its moments chain |
| `UpdateRuns.LastAcceptedShows` | dpdk/ffn_mpdp_consumer.c:84-258 | after any run the active bank shows the last accepted policy, model, intelligence and verdict |
| `UpdateRuns.UntouchedParts` | dpdk/ffn_mpdp_consumer.c:84-258 | what no accepted update touched is as at the start; slot lookups never change |
| `UpdateRuns.RefusalIsPermanent` | dpdk/ffn_dpmem.h:386-394 | an update refused for space is refused at every later point of the run |
| `UpdateRuns.AcceptedLoadsBounded` | dpdk/ffn_dpmem.h:319-394 | each accepted update with data costs a cache line for good, so their number is bounded by the lines left |
| `UpdateRuns.StampParity` | dpdk/ffn_dpmem.h:418-424 | from any starting stamps, the active stamp is even once something was published, and the other's parity is that of the stamp it inherited plus the updates refused since |
| `UpdateRuns.DirtyMarkedIff` | dpdk/ffn_dpmem.h:319-341 | a bank being written carries an odd stamp exactly when the stamp it inherited and the updates refused since the last publication are even together |
| `UpdateRuns.SeededMarks` | dpdk/ffn_dpmem.h:251-271 | on a region seeded after a reset the active stamp is even exactly after the first publication, and the marking is reversed between the first and the second |
| `UpdateRuns.UnmarkedAfterRefusal` | dpdk/ffn_dpmem.h:319-341 | from even stamps, one refused update leaves the next to write under an even stamp |
| `UpdateRuns.ReaderStable` | dpdk/ffn_dpmem.h:187-248 | a reader of the active bank sees it unchanged at every later moment up to the first update begun after it was replaced |
| `FastPath.AddressMeans` | dpdk/ffn_mpdp_consumer.c:56-81 | a compiled network test holds of an address exactly when the text's prefix contains it |
| `FastPath.RefusedTextIff` | dpdk/ffn_mpdp_consumer.c:56-81 | a text is refused exactly when it is overlong, its prefix out of range or its address malformed |
| `FastPath.CompiledRowMeans` | dpdk/ffn_mpdp_consumer.c:207-232 | a compiled row catches exactly the packets its wire row asks for: source and destination by their own texts, ports and protocol with 0 for any, the row's virtual system or else the update's; with the wire row's action and its own number |
| `FastPath.ClassifyFast` | dpdk/ffn_fastpath_fwd.c:296-315 | the first row that catches decides, with its action and number; without one the packet is inspected under number 0 |
| `FastPath.ActiveRowsMean` | dpdk/ffn_mpdp_consumer.c:190-241 | after any run of updates the first catching row of the active bank is the first applicable wire row of the last accepted policy, with that row's action and number, and none catches exactly when none applies |
| `Ha.InspectedOnce` | dpdk/ffn_ha.c:41-111 | for two enabled devices with one algorithm and primary and every combination of their views, a packet in either direction is inspected by exactly one device after at most one hop; with the peer up, by the owner both devices agree on; forward, takeover and local say who inspects and who owns |
| `Ha.KeyIdentifiesSession` | dpdk/ffn_ha.c:41-57 | two packets have one key exactly when they are of one conversation, in either direction |
| `Ha.OwnerMeans` | dpdk/ffn_ha.c:79-94 | the owner is the primary, the smaller address modulo the devices, or the key's hash modulo the devices |
| `Ha.OneInspectorIff` | dpdk/ffn_ha.c:79-111 | both devices hand a conversation to the same inspector exactly when the device that does not own it sees its peer up |
| `Ha.TakeoversAreSpaced` | dpdk/ffn_ha.c:147-180 | on every run with non-decreasing time, k takeovers take at least k times the larger of the hold and the timeout plus one |
| `Ha.SeenWasHeard` | dpdk/ffn_ha.c:114-127 | while the peer is up or recovering, the time it was last seen is that of a valid hello from another device |
| `Ha.UpMeansHeard` | dpdk/ffn_ha.c:147-180 | after every tick a peer believed up was heard within the timeout |
| `Ha.BelievedUpIff` | dpdk/ffn_ha.c:114-180 | on every run of an enabled device with non-decreasing time, the peer is believed up exactly when some counting hello is followed by a tick at least the hold later and at every tick since that hello the peer had been heard within the timeout |
| `Ha.TakeoversAreLosses` | dpdk/ffn_ha.c:147-180 | the takeovers are the times that belief was lost, the hellos received those that count, and the role follows from both |
| `Ha.OffNeverUp` | dpdk/ffn_ha.c:147-151 | a disabled device never believes its peer up |
| `Ha.Node.constructor` | dpdk/ffn_ha.c:9-37 | the initial state by mode and device |
| `Ha.Node.OnHello` | dpdk/ffn_ha.c:114-127 | only well-marked hellos from another device count, and start the recovery hold |
| `Ha.Node.OnTick` | dpdk/ffn_ha.c:147-180 | failover, failback after the hold and forgetting a silent peer, with the change reported |
| `AntiVirus.CompileHexSig` | opt/ffn_antivirus.py:103-134 | blanks dropped, the token loop and the regex yield the signature's pattern, a refusal, or the uncaught exception, in the order the source meets them |
| `SignatureText.NumeralIs` | opt/ffn_antivirus.py:93-100 | a number is read exactly from a decimal numeral, place by place |
| `SignatureText.PairIs` | opt/ffn_antivirus.py:70-82 | a byte token matches exactly the byte, nibble or any byte its two characters denote |
| `SignatureText.GapIs` | opt/ffn_antivirus.py:93-100 | a gap is read exactly as its bounds say |
| `SignatureText.RangeIs` | opt/ffn_antivirus.py:123-127 | a range is read exactly as its two hex ends say |
| `SignatureText.BranchesAre` | opt/ffn_antivirus.py:85-121 | an alternation matches exactly what one of its bar-separated branches denotes |
| `SignatureText.TokenIs` | opt/ffn_antivirus.py:109-130 | each token of a text is read, and its element matches, exactly as the token denotes |
| `SignatureText.ReadsIff` | opt/ffn_antivirus.py:103-131 | which texts are read, refused and raise, token by token |
| `SignatureText.MatchesIff` | opt/ffn_antivirus.py:103-131 | the pattern of a text that is read matches exactly the bytes the text denotes |
| `SignatureText.StripMeans` | opt/ffn_antivirus.py:105 | stripping keeps exactly the characters that are not blanks, in order |
| `SignatureText.SignatureMeans` | opt/ffn_antivirus.py:103-134 | for every text: it compiles, is refused or raises exactly as its tokens say, and a compiled pattern matches exactly the byte strings the text denotes |
| `AntiVirus.OddDigitsRaise` | opt/ffn_antivirus.py:70-73 | an odd number of hex digits raises |
| `AntiVirus.LiteralAnchor` | opt/ffn_antivirus.py:137-160 | the scanning loop yields the first longest run of the character scan, if of four bytes or more |
| `AntiVirus.ScanFindsBestRun` | opt/ffn_antivirus.py:137-160 | on aligned signatures the character scan finds the longest literal run of the compiled pattern |
| `AntiVirus.BestRunIsLongest` | opt/ffn_antivirus.py:137-160 | no literal run of the pattern is longer than the one chosen |
| `AntiVirus.BestRunIsLiteral` | opt/ffn_antivirus.py:137-160 | the longest run stands literally in the pattern it was taken from, and an earlier run only gives way to a longer one |
| `AntiVirus.LiteralOccurs` | opt/ffn_antivirus.py:103-134 | whatever a pattern matches contains every run that stands in it literally |
| `AntiVirus.AlignedIsSafe` | opt/ffn_antivirus.py:137-160 | a signature without a low-nibble token before a hex digit has no anchor or one that stands in it literally |
| `AntiVirus.NecessaryIffLiteral` | opt/ffn_antivirus.py:103-160 | where every wildcard can avoid an anchor's bytes, the anchor is in every match if and only if it stands literally in the pattern |
| `AntiVirus.AnchorIsNecessary` | opt/ffn_antivirus.py:137-160 | for every safe signature that compiles, every match contains the anchor |
| `AntiVirus.LowNibbleBreaksAnchor` | opt/ffn_antivirus.py:153-154 | a signature with a low-nibble token before hex digits matches data that lacks its anchor |
| `AntiVirus.CompiledIsClosed` | opt/ffn_antivirus.py:103-160 | the anchor scan never fails on a signature that compiles |
| `AvScanner.FlagsMeans` | opt/ffn_antivirus.py:266-283 | a signature flags a file exactly when its text compiles, the file's type does not speak against its target, and some stretch that starts where its offset allows is denoted by its text |
| `AvScanner.FlaggedHasAnchor` | opt/ffn_antivirus.py:268-280 | data a safe signature flags, at any offset rule, contains its anchor |
| `AvScanner.PrefilterLosesNothing` | opt/ffn_antivirus.py:313-328 | filtering by anchors flags nothing new, and loses nothing when every signature is safe |
| `AvScanner.FilterExactIff` | opt/ffn_antivirus.py:313-328 | for a signature found anywhere whose wildcards can avoid its anchor's bytes, the scanner finds every file it flags if and only if the anchor stands literally in the pattern |
| `AvScanner.LowNibbleLosesFile` | opt/ffn_antivirus.py:313-328 | a file the low-nibble signature matches and the scanner calls clean |
| `AvScanner.ReportedIff` | opt/ffn_antivirus.py:313-323 | looking reported ids up in the index confirms exactly the anchored patterns |
| `AvScanner.Scanner.Compile` | opt/ffn_antivirus.py:225-264 | fails exactly when some text raises, and then holds the patterns before the first such text beside the old automaton; otherwise the indexes hold exactly the signatures that compile |
| `AvScanner.Scanner.ScanBody` | opt/ffn_antivirus.py:297-328 | an empty file is clean; another is flagged exactly when the indexes confirm it; after a good compile a hit is real, and with safe signatures a file is flagged exactly when some signature matches it |
| `Nft.Render` | opt/ffn_bmfw.py:388-552 | the generator's loops produce the specified sets and chains |
| `Nft.SetsMean` | opt/ffn_bmfw.py:396-411 | each virtual system's sets hold its own interfaces and no other's, when generated names do not collide |
| `Nft.PlainNamesAreClear` | opt/ffn_bmfw.py:385-386 | distinct names without underscores never collide |
| `Nft.RuleLineMeans` | opt/ffn_bmfw.py:360-386 | a generated line matches exactly the packets its rule applies to |
| `Nft.RulesWalk` | opt/ffn_bmfw.py:538-551 | evaluating the generated lines gives the first enabled applicable rule's verdict |
| `Nft.VsysWalk` | opt/ffn_bmfw.py:513-552 | a chain sets its own mark, sends established traffic to its own queue or accepts it, and otherwise says what its rules say |
| `Nft.DosWalk` | opt/ffn_bmfw.py:489-502 | the limiter lines drop exactly the flooding packets |
| `Nft.DispatchWalk` | opt/ffn_bmfw.py:507-509 | dispatch runs the owner's chain and nothing else |
| `Nft.CompiledMeansConfigured` | opt/ffn_bmfw.py:478-552 | for every configuration with disjoint interfaces, declared zones and clear names, the generated forward hook gives every packet its own virtual system's verdict, queue and marks, the default where no rule applies, and drops invalid and flooding packets |
| `Nft.RuleIsCarriedOut` | opt/ffn_bmfw.py:375-383 | for every well-formed configuration and new packet that is not flooding, the forward hook drops exactly if the owner's first enabled applicable rule denies, rejects exactly if it rejects, and otherwise queues to the owner's queue with the configured bypass if it inspects and accepts if not |
| `Nft.DefaultIsCarriedOut` | opt/ffn_bmfw.py:478-552 | where no enabled rule of the owner applies, the configured default happens |
| `Nft.EstablishedIsCarriedOut` | opt/ffn_bmfw.py:521-537 | established traffic goes to the owner's queue exactly when an enabled allow rule of the owner inspects, else it is accepted |
| `Nft.FirstRuleMeans` | opt/ffn_bmfw.py:538-551 | the rulebase verdict is that of the first enabled rule that applies |
| `Nft.EstablishedInspectedIff` | opt/ffn_bmfw.py:375-537 | where some rule queues new packets, established ones are accepted past the inspection exactly when all such rules carry an action other than allow |
| `Nft.OthersDoNotMatter` | opt/ffn_bmfw.py:478-552 | reconfiguring other virtual systems never changes what happens to this one's packets |
| `NftNames.LoadsIff` | opt/ffn_bmfw.py:538-577 | the generated file loads exactly when the sets of all zones its enabled rules name are declared |
| `NftNames.DeclaredLoads` | opt/ffn_bmfw.py:574-576 | rules that name zones of their own virtual system load; with plain names only they do |
| `NftNames.NamesClearIff` | opt/ffn_bmfw.py:385-552 | for given names the meaning of every configuration using them is preserved, for every packet, exactly when the names are clear |
| `NftNames.SharedNameBreaks` | opt/ffn_bmfw.py:507-516 | two virtual systems of one name, one with a zone: some packet is accepted by the other's rule |
| `NftNames.ZoneLikeIfacesBreaks` | opt/ffn_bmfw.py:396-411 | for all names whose zone set and interface set collide, some packet is accepted by the other's rule |
| `NftNames.SharedZoneBreaks` | opt/ffn_bmfw.py:385-386 | for all names whose zone sets collide, some packet leaves through the other's zone |
| `NftNames.UnderscoresCollide` | opt/ffn_bmfw.py:385-386 | such names exist for every choice of their parts |
| `NftNames.Finalize` | opt/ffn_bmfw.py:261-273 | queue numbers are consecutive and never shared; given tags are kept, missing ones derived; two tags coincide exactly when the configuration makes them meet |
| `NftNames.TagMeans` | opt/ffn_bmfw.py:93-106 | the tag of a virtual system is the one given, else the decimal number its name ends in, else, or if that is zero, its place counted from one |
| `NftNames.DerivedTagsMeetIff` | opt/ffn_bmfw.py:93-106 | derived tags coincide exactly when both names end in one positive number, or one ends in the other's position while the other ends in none |
| `NftNames.TagsDoMeet` | opt/ffn_bmfw.py:93-106 | tags do coincide, for names ending in one digit and for a positional tag meeting a numbered name |
| `NftNames.MarksTellApart` | opt/ffn_bmfw.py:513-520 | the marks of two packets tell their virtual systems apart exactly when the tags differ |
| `Inspection.KeyIdentifiesFlow` | opt/ffn_bmfw.py:604-611 | two packets have one key exactly when they have one virtual system, one protocol and the same endpoints, in either direction; the key names the smaller endpoint first |
| `Inspection.BeforeMeans` | opt/ffn_bmfw.py:604-611 | address texts are ordered by the first character that differs, a prefix first |
| `Inspection.WindowCovers` | opt/ffn_bmfw.py:758-824 | adding a packet keeps every stretch of at most 513 bytes inside some window and the carry at the stream's tail |
| `Inspection.NoShortPatternMissed` | opt/ffn_bmfw.py:743-824 | over every run, while a flow lives unblocked, each carry is the last 512 bytes of its stream and every stretch of at most 513 bytes was shown whole to the detector |
| `Inspection.LongerCanBeMissed` | opt/ffn_bmfw.py:758-824 | the bound is exact: 514 bytes can be split so that no window holds them |
| `Inspection.EntriesRight` | opt/ffn_bmfw.py:743-868 | over every run from an empty engine a flow is there exactly from its first packet until a sweep more than two minutes after its last; its client sent the first, its count and time are right, and it is blocked exactly when some packet since the first was harmful |
| `Inspection.FateOfPacket` | opt/ffn_bmfw.py:758-824 | over every run a packet is dropped exactly when it is readable and it, or an earlier packet of its conversation since that was opened, carries a payload that is convicted or detected as blocking |
| `Inspection.CountersCount` | opt/ffn_bmfw.py:743-824 | over every run the counters are the numbers of packets, accepted, dropped, threats and conversations opened, all read off the events |
| `Inspection.BlockedUntilReaped` | opt/ffn_bmfw.py:758-868 | a blocked flow stays blocked and drops every parsed packet until it is reaped |
| `Inspection.PacketsAddUp` | opt/ffn_bmfw.py:758-824 | packets are accepted plus dropped, over every run |
| `Inspection.Engine.Verdict` | opt/ffn_bmfw.py:758-824 | one packet takes the flow table and counters to the specified state, with the specified verdict and window |
| `Inspection.Engine.ReapIdle` | opt/ffn_bmfw.py:860-868 | exactly the flows idle for more than two minutes are forgotten |
| `ObjectGroups.Resolve` | opt/ffn_config_objects.py:75-81 | local before shared, plain before group; fails exactly when the name exists in neither |
| `ObjectGroups.PathGoesDown` | opt/ffn_config_objects.py:215-235 | a path from a finished group meets only plain objects and groups finished before it |
| `ObjectGroups.FinishedIsSound` | opt/ffn_config_objects.py:215-235 | from a finished group everything reachable resolves, every reachable group is static and no cycle is reachable |
| `ObjectGroups.Visit` | opt/ffn_config_objects.py:218-234 | the recursive visit finishes the group and everything below it, or there is a path that justifies the refusal |
| `ObjectGroups.ValidateGroup` | opt/ffn_config_objects.py:215-235 | accepting means sound; refusing means a bad, cyclic or too deep path; on graphs within the depth limit it accepts exactly the sound groups |
| `ObjectGroups.ApplyMeans` | opt/ffn_config_objects.py:324-368 | an edit stores or removes its own entry and leaves every other as it was |
| `ObjectGroups.PrecheckMeans` | opt/ffn_config_objects.py:299-326 | which refusal each edit meets first: the lock, the revision, then a taken name for a creation, and a missing entry, one the editor cannot handle and remaining references otherwise |
| `ObjectGroups.Mutate` | opt/ffn_config_objects.py:299-380 | every saved candidate is the edited index and has only sound static groups in the edited family, even where a new local name shadows a shared one; each refusal has its reason |
| `ApplyCycle.Applier.constructor` | opt/ffn_commit_apply.py:70-74 | a cycle takes the running file as its snapshot and that snapshot's digest as its generation |
| `ApplyCycle.Applier.AdvanceTo` | opt/ffn_commit_apply.py:76-88 | a stage is entered exactly when it is the next one, the running file equals the snapshot and no error is recorded |
| `ApplyCycle.Applier.SaveCheckpoint` | opt/ffn_commit_apply.py:95-106 | the checkpoint is replaced exactly when the last stage is entered and the running file is still the snapshot at the second look |
| `ApplyCycle.Applier.FinishCycle` | opt/ffn_commit_apply.py:90-93 | the last entered stage is marked failed, verified or incomplete |
| `ApplyCycle.EntriesInOrder` | opt/ffn_commit_apply.py:80-88 | on every run exactly the stages up to the position have been entered, each once and in order |
| `ApplyCycle.ReplacedMeansAllStages` | opt/ffn_commit_apply.py:80-106 | a replaced checkpoint was preceded by all five stages in order, each with the running file equal to the snapshot and no error, and holds exactly the snapshot |
| `ApplyCycle.SavedIff` | opt/ffn_commit_apply.py:95-106 | the checkpoint file changes in no other way and at most once in a cycle |
| `ApplyCycle.VerifiedWithoutCheckpoint` | opt/ffn_commit_apply.py:90-106 | to a caller that swallows the exception, a cycle whose running file changes between the two looks ends with its checkpoint stage marked verified and the file not replaced |
| `ApplyCycle.VerifiedMeansSavedIff` | opt/ffn_commit_apply.py:90-106 | without recorded errors the mark stands for a replaced checkpoint if and only if the last stage was entered by a checkpoint call whose second look found the snapshot |
| `ApplyCycle.CarefulMarkIff` | image/install-commit-order.py:56-68 | to a caller that records every exception as an error and enters the last stage only through the checkpoint, the mark is verified if and only if the checkpoint was replaced and no error is on record |
| `ConfigLock.Lock.GetStatus` | opt/ffn_config_lock.py:32-40 | reports the unexpired lease with its age and remaining time, neither negative, whatever the clock reads |
| `ConfigLock.Lock.TryAcquire` | opt/ffn_config_lock.py:42-50 | granted exactly when the lease is free, expired or one's own; refused for an empty owner without touching the row |
| `ConfigLock.Lock.TryRelease` | opt/ffn_config_lock.py:52-54 | only the holder's unexpired lease is released |
| `ConfigLock.Lock.ForceRelease` | opt/ffn_config_lock.py:56-61 | frees the lease and names its unexpired holder |
| `ConfigLock.HolderKeeps` | opt/ffn_config_lock.py:13-61 | for arbitrary clock readings, until a release, an override or a transaction more than the timeout after the last renewal, the holder keeps the lease and everyone else is refused |
| `ConfigLock.SecondHolderMeansBroken` | opt/ffn_config_lock.py:13-61 | a second user gets the lease only after one of those |
| `ConfigLock.BrokenMeansFree` | opt/ffn_config_lock.py:13-61 | and the first of those does end it |

## Left out

- The flow, ownership and digest hash functions are parameters; their arithmetic is not modelled.
- FlowTable.Table.constructor: excludes sizes above 2^31, for which the source's doubling loop overflows to zero and does not end.
- Forwarder.Context.constructor: the same.
- Event-ring pushes, heartbeats and state words of the forwarder: they would only add easy members.
- Ring.EverySchedule: takes each index and field store as one step of a sequentially consistent memory; byte-wise stores of the head are covered by `TornHeadHarmlessIff` and `RingTorn.dfy`.
- Octeon.Io.Tx: models a burst of one packet, which is how the forwarder calls it.
- The OCTEON hardware is an assumed contract: dequeued work is fresh and held, a failed send keeps ownership, PKO returns what its descriptor names.
- AntiVirus.NecessaryIffLiteral: the exact condition is stated where every wildcard can avoid the anchor's bytes. Likewise `AvScanner.FilterExactIff`, which is for signatures found anywhere in a file. A range or alternative all of whose choices spell the anchor's own bytes, or a gap of width zero, can make an anchor necessary that stands nowhere literally.
- AntiVirus.CompileHexSig: numbers that Python's `int` accepts beyond plain digits (signs, underscores), range ends of more than two digits and repeat counts the regex engine refuses are not modelled.
- The anti-virus hash and YARA stages, and which of several matching signatures is reported first; the automaton is assumed to report every occurrence of an anchor.
- DpMem.Region.BankPut: lengths are below 2^63, as every C object's are, so the 64-bit sums do not wrap; a null source with a length is not modelled.
- ModelUpdates.StartRegion: models an initial load that resets and puts; the one in the tree does neither and leaves the zeroed region of `Region.constructor`.
- ModelUpdates.ApplyThreatIntel: the pointers inside rows are written but not followed, because cloning does not rebase them; only the plain columns are part of the record.
- ModelUpdates.InternRow: for the same reason says nothing of the copied strings and the pointers to them.
- FlatBuffers decoding, and the text parsing of `inet_pton` and `atoi`: updates start decoded.
- The typed tables after a second reset: `BankReset` keeps their pointers, and nothing is claimed of a bank reset while it carries some.
- The raw, input and NAT chains, log and counter statements and the nftables text itself.
- Inspection detectors and file carving are inputs; the flow key is a tuple rather than its text.
- ObjectGroups.ValidateGroup: the depth limit is stated for the path taken; a group already visited is not descended into again, so whether a deep graph is refused depends on the order of its members.
- ObjectGroups.Mutate: field validation, tag lookups and the reference walk are inputs; XML and the REST surface are left out.
- The status waiting loop and path ordering of the apply cycle, file-system failures, and SQLite's own transactions.
- Policy.MakePolicy: rules start as their fields, already in range; splitting the command line and failing on out-of-range text are not modelled.
- DPDK, CVMX and AF_PACKET plumbing, the accelerated forwarder beyond its classifier, cloud and machine-learning detectors, installers.
