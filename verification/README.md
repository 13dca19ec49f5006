# cidrwall: a verified model

cidrwall turns a sorted file of CIDR blocks into kernel filter state, twice: as
prefixes in two pairs of LPM tries that an XDP program looks up, and as interval sets
that nftables dispatch chains look up. Both are published atomically, in generations,
while packets keep flowing. This project models that path from the lines of the file
to the verdict on a packet and proves it correct: the one-pass normaliser, the
minimal prefix decomposition, the double-slot publication, the nftables generation
state machine with its failures, repairs and restarts, the netlink attribute editing
underneath, and the agreement of the two encodings.

How the parts fit:

- `Bits`, `Addresses`, `Prefixes`, `Decomposition`: machine widths, address families,
  the greedy decomposition as a width-independent specification with its minimality
  theorems, and the two machine-width loops proved to compute it.
- `Blocklist`, `Stream`, `StreamTheorems`: canonical files and their unique normal
  form, the streaming pass, and what it guarantees whatever the chunk limit.
- `IntervalSets`: the boundary elements of an interval set and their lookup.
- `Attributes`: in-place editing and reading of netlink attributes on byte arrays.
- `Requests`: kernel requests that may fail.
- `XdpProtocol`, `Xdp`, `Capacity`: publication over two slots as a state machine with
  crashes and interleaved readers, `XdpManager` proved to follow it, and how many
  prefixes a list needs.
- `Packet`: the packet path, and building and parsing of well-formed frames.
- `GenerationNames`, `Netfilter`, `Generations`, `Backend`, `Staging`, `Daemon`: set
  names, the kernel table with all-or-nothing batches, rendering, the backend, and the
  daemon's staging, replacement and reconciliation, up to whole runs (`Daemon.Life`).
- `EndToEnd`, `Process`: both encodings give every frame the verdict of the list, after one
  reload and over whole runs of a process with both backends.

Failures are part of the model. A kernel request may fail at any time and then changes
nothing (`Requests.Request` answers arbitrarily unless the kernel is `reliable`). A crash between
two requests leaves the kernel as if every later request of that call had failed, so
restarting after a failed call covers it for nftables; for the XDP maps, whose
publication is not one transaction, every single trie and control write is a step of a
recorded trail and a crash may follow any of them (`Xdp.Life`).

Three details where the code is easily misread, and which the contracts fix: with a
chunk limit of 1 an interval with two boundaries is still sent whole
(`Stream.ChunkBound`); the health check compares the kernel's count with intervals, not
with boundaries (`IntervalSets.StartsAreIntervals`); and once generations are held,
replacing both directions is all-or-nothing for each direction, not for both together
(`Daemon.Daemon.ReplaceBoth`).

## Model

| member | source | states |
|---|---|---|
| `Bits.TrailingZeros` | src/blocklist.rs:44-48 | the largest number of low zero bits: aligned to it, not to one more |
| `Bits.Log2` | src/blocklist.rs:50 | the exponent of the largest power of two at or below the argument |
| `Bits.LeadingZeros` | src/blocklist.rs:50 | the word lies between the two powers of two that leave this many zero bits above it |
| `Bits.AlignedMeansDivisible` | src/blocklist.rs:44-48 | aligned to h bits means divisible by 2^h, the meaning of every alignment in this table |
| `Prefixes.GreedyTiles` | src/blocklist.rs:36-100 | the greedy blocks are aligned and tile the interval without gap or overlap |
| `Prefixes.Minimal` | src/blocklist.rs:36-100 | no collection of aligned blocks with exactly that union has fewer members |
| `Prefixes.UniqueMinimal` | src/blocklist.rs:36-100 | a collection of that size with that union is the greedy one |
| `Prefixes.SizeBound` | src/blocklist.rs:40-98 | at most 2w-2 blocks at width w |
| `Prefixes.BoundAttained` | src/blocklist.rs:40-98 | the bound 2w-2 is reached |
| `Prefixes.Unimodal` | src/blocklist.rs:40-98 | block sizes strictly rise, then strictly fall, with at most one equal pair at the peak |
| `Decomposition.HostBitsV4` | src/blocklist.rs:44-51 | the 64-bit computation picks the largest aligned block that fits, within machine width |
| `Decomposition.HostBitsV6` | src/blocklist.rs:77-84 | the same for 128 bits, where the full range must be handled apart |
| `Decomposition.IntervalPrefixesV4` | src/blocklist.rs:39-64 | the 32/64-bit loop terminates without leaving its widths and names exactly the greedy blocks |
| `Decomposition.IntervalPrefixesV6` | src/blocklist.rs:65-98 | the 128-bit loop with `checked_add` and the full-range case does the same |
| `Decomposition.IntervalPrefixes` | src/blocklist.rs:37-100 | for every non-empty interval the result is the decomposition of its family, start and end |
| `Decomposition.NamesDetermine` | src/blocklist.rs:52-55 | prefixes that name the greedy blocks one by one are the decomposition |
| `Decomposition.DecomposeAscends` | src/blocklist.rs:37-100 | the prefixes are host-bit-free, inside the interval, ascending and disjoint |
| `Decomposition.DecomposeCovers` | src/blocklist.rs:37-100 | they hold exactly the addresses of the interval |
| `Decomposition.DecomposeSize` | src/blocklist.rs:37-100 | at most 62 prefixes for IPv4 and 254 for IPv6, and at least one |
| `Blocklist.FaultIsExact` | src/blocklist.rs:197-322 | a line has no fault after a canonical prefix exactly when the longer file is canonical |
| `Blocklist.RunsAreNormal` | src/blocklist.rs:221-323 | coalescing gives ascending, maximal, gap-separated runs that hold exactly the listed addresses |
| `Blocklist.NormalIsUnique` | src/blocklist.rs:135-180 | an address set has one normal form only |
| `Blocklist.SameFileSameRuns` | src/blocklist.rs:182-338 | canonical files that list the same addresses have the same runs |
| `Stream.Emit` | src/blocklist.rs:157-161 | sends the open chunk; the books balance afterwards, or the pass stops at a refused chunk |
| `Stream.Push` | src/blocklist.rs:162-173 | the interval joins the open chunk and is counted once, in its own family |
| `Stream.MakeRoom` | src/blocklist.rs:156-161 | sends first exactly when the next interval would overflow the open chunk |
| `Stream.FlushPending` | src/blocklist.rs:135-180 | the sealed pending run is the next interval flushed; chunk sizes and statistics stay right |
| `Stream.Extend` | src/blocklist.rs:232-264 | extends the pending run, or flushes it and opens another, or reports disorder exactly when the block does not follow all earlier ones |
| `Stream.EnterIpv6` | src/blocklist.rs:267-282 | the first IPv6 line sends everything of IPv4 |
| `Stream.TakeBlock` | src/blocklist.rs:221-323 | the loop invariant survives a block, or the block's fault is named; the unreachable arms are not reached |
| `Stream.Finish` | src/blocklist.rs:326-337 | the end of the file sends what is left |
| `Stream.StreamChunks` | src/blocklist.rs:182-338 | the whole outcome: on success every interval of the normal form was sent in order and the statistics are its totals; otherwise the first faulty line and reason; and in every case the chunks sent are the first ones of those that every pass over the file sends, all of them unless the last was refused |
| `Stream.ChunkBound` | src/blocklist.rs:156-178 | a chunk has at most max(limit, 2) boundaries, and at most the limit exactly when that is two or more or no interval of the chunk has an end |
| `Stream.LastRunSettles` | src/blocklist.rs:326-336 | settling the last run of a file, chunk by chunk, ends with all its intervals sent or open |
| `Stream.SendingSnoc` | src/blocklist.rs:232-264 | one more block sends exactly what settling the run it does not extend sends |
| `Stream.SentIsPrefix` | src/blocklist.rs:195-337 | what any prefix of a file has sent is a prefix of what the file sends |
| `StreamTheorems.AcceptanceIsCanonicity` | src/blocklist.rs:195-325 | with a callback that never fails the pass succeeds exactly on canonical files |
| `StreamTheorems.RejectionIsDetermined` | src/blocklist.rs:195-325 | line and reason of a rejection depend on the file only, not on limit or callback |
| `StreamTheorems.ReasonOfRejection` | src/blocklist.rs:197-322 | when each reason is given: an unreadable line, a garbled one, host bits set, else an IPv4 block behind any IPv6 block, else a block that does not lie behind every earlier one of its family |
| `StreamTheorems.RefusalTruncates` | src/blocklist.rs:156-178 | a callback that refuses cuts the pass short and changes nothing else: its chunks are the first ones of the unrefused pass, up to the first refused one, and without a refusal chunks and result are the same |
| `StreamTheorems.ChunksWithinLimit` | src/blocklist.rs:156-178 | every chunk sent stays within the limit exactly when that is two or more or no interval sent has an end, also when the file is rejected or a call refused |
| `StreamTheorems.LimitHolds` | src/blocklist.rs:156-178 | on an accepted file every chunk stays within the limit exactly when that is two or more or every run of the file reaches the last address of its family |
| `StreamTheorems.LimitOneFails` | src/blocklist.rs:157-178 | one listed IPv4 address and a limit of one: a chunk of two boundaries is sent |
| `StreamTheorems.NormalFormOfAddresses` | src/blocklist.rs:135-338 | intervals and interval statistics depend on the address set only, chunks on that and the limit |
| `StreamTheorems.ChunkingIsUnique` | src/blocklist.rs:156-178 | a sequence of intervals is cut into chunks in one way only |
| `StreamTheorems.PrefixListHolds` | src/blocklist.rs:37-100 | the prefixes of all runs, in order, are canonical as a list and hold exactly the addresses of the runs |
| `StreamTheorems.RoundTrip` | src/blocklist.rs:37-338 | fed back in, the prefixes of an accepted list are canonical and give the same runs |
| `StreamTheorems.StreamRoundTrip` | src/blocklist.rs:37-338 | a second pass over those prefixes is accepted and gives the same chunks and interval statistics |
| `StreamTheorems.OneMoreBlock` | src/blocklist.rs:245-249 | appending one aligned block to an interval costs at most one more prefix |
| `StreamTheorems.NeedAtMostLines` | src/xdp.rs:126-174 | the prefixes needed for a family never exceed its lines in the file |
| `IntervalSets.ElementsJoin` | src/netlink.rs:362-386 | the elements written over several transactions are those of the intervals in one sequence |
| `IntervalSets.KeysIncrease` | src/netlink/ffi.rs:117-126 | keys strictly increase, starts and ends alternate, and only the last interval of a family may lack an end |
| `IntervalSets.MatchesIffInRuns` | src/netlink/ffi.rs:117-126 | the nearest boundary at or below an address is a start exactly when some run holds the address |
| `IntervalSets.StartsAreIntervals` | src/netlink.rs:457-464 | the starts in a populated set are as many as the intervals, the elements as many as the boundaries, the pass reported |
| `Attributes.SplitJoins` | src/netlink/ffi.rs:178-199 | decoding a byte string into attributes loses no byte |
| `Attributes.SplitOfJoin` | src/netlink/ffi.rs:178-199 | decoding undoes encoding |
| `Attributes.LengthReads` | src/netlink/ffi.rs:169-200 | the message length a host of either byte order writes is read back |
| `Attributes.HeaderReads` | src/netlink/ffi.rs:178-199 | the length and type a host of either byte order writes are read back, whatever flag bits the type carries |
| `Attributes.CopyDown` | src/netlink/ffi.rs:193 | the overlapping move within the buffer |
| `Attributes.RemoveTopLevelAttribute` | src/netlink/ffi.rs:169-200 | the buffer holds the attributes minus the first of the type, with the shorter length word; unchanged if there is none or the walk meets a malformed length before it |
| `Attributes.RemoveFirstMeaning` | src/netlink/ffi.rs:192-197 | exactly the first attribute of the type is gone and order is kept |
| `Attributes.RemovedDecodes` | src/netlink/ffi.rs:169-200 | reading the edited message back decodes to the old list minus that attribute |
| `Attributes.SetCount` | src/netlink/ffi.rs:441-470 | the first type-20 attribute with four payload bytes, whose number is written there most significant byte first, on arbitrary bytes and without needing its padding |
| `Attributes.WalksAgree` | src/netlink/ffi.rs:178-199 | where every record is complete the lenient walk of the reader sees the records of the editor |
| `XdpProtocol.AlwaysSafe` | src/xdp.rs:117-198 | at every point of every run with failures and crashes the slot the control word names holds exactly the last activated list |
| `XdpProtocol.LastWriteRules` | src/xdp.rs:179-186 | at every point of every run the list in force is that of the last reload whose control write was made |
| `XdpProtocol.CrashAnywhere` | src/xdp.rs:71-88 | a run cut anywhere and followed by a crash is a run |
| `XdpProtocol.PublishedChanges` | src/xdp.rs:179-186 | the list in force changes only by the control write of a reload, to the list of that reload |
| `XdpProtocol.ActiveLookup` | cidrwall-ebpf/src/main.rs:43-76 | a lookup in the active slot is membership in the list in force |
| `XdpProtocol.WindowHolds` | src/xdp.rs:117-198 | what a reader that read its slot earlier can still find there, step by step through one reload |
| `XdpProtocol.ReaderSeesOneList` | cidrwall-ebpf/src/main.rs:43-76 | a packet that reads the slot and looks up as two steps around one reload is judged by exactly one list unless a removal from its slot falls between, and is dropped only if that list holds its address |
| `XdpProtocol.RemovalHidesAddress` | src/xdp.rs:187-189 | the exception is needed: a run in which an address is in the list in force when the packet reads its slot and when it looks up, and the packet still passes because the old slot was cleared in between |
| `Xdp.PinnedMaps.InsertPrefix` | src/xdp.rs:143-147 | one insert into the spare slot is one step of the protocol, or nothing |
| `Xdp.PinnedMaps.RemovePrefix` | src/xdp.rs:292-302 | one removal from the spare slot is one step of the protocol, or nothing |
| `Xdp.PinnedMaps.SetControl` | src/xdp.rs:179-186 | the control write publishes a full spare slot, or nothing |
| `Xdp.PinnedMaps.CrashAt` | src/xdp.rs:67-88 | a process that dies after any step leaves the maps of that step, and the cut trail is a run |
| `Xdp.XdpManager.Open` | src/xdp.rs:67-88 | fresh maps are initialised, pinned ones adopted with their list in force, and maps of ours are never refused; a control word of another layout or with no such slot is refused and left alone |
| `Xdp.XdpManager.Reconcile` | src/xdp.rs:200-206 | the control check never finds an incompatible layout in any run, and finds every control word that no run can hold while a process works |
| `Xdp.XdpManager.ClearTrie` | src/xdp.rs:292-302 | on success the trie is empty; the other family and the list in force are untouched either way |
| `Xdp.XdpManager.ClearSlot` | src/xdp.rs:292-302 | on success both tries of the slot are empty |
| `Xdp.XdpManager.InsertOne` | src/xdp.rs:133-165 | counts and contents move together; the capacity error exactly at the limit of the family |
| `Xdp.XdpManager.InsertInterval` | src/xdp.rs:130-167 | the slot gains exactly the decomposition of the interval, or insertion is refused for a stated reason |
| `Xdp.XdpManager.InsertChunk` | src/xdp.rs:129-169 | the same for a chunk |
| `Xdp.XdpManager.InsertAll` | src/xdp.rs:126-171 | the same for all chunks |
| `Xdp.XdpManager.Stage` | src/xdp.rs:122-171 | on success the slot holds exactly what the file publishes and it fits |
| `Xdp.XdpManager.SpareReady` | src/xdp.rs:118-120 | finds the spare slot and empties it, whatever an earlier reload left there |
| `Xdp.XdpManager.Commit` | src/xdp.rs:179-189 | flips the control word and clears the slot that went out of use |
| `Xdp.XdpManager.Discard` | src/xdp.rs:172-177 | a rejected list publishes nothing |
| `Xdp.XdpManager.Reload` | src/xdp.rs:117-198 | all or nothing, and success is the control write; with a reliable kernel exactly the canonical files that fit are published, and nothing is left in the spare slot |
| `Xdp.SealedPrefixes` | src/xdp.rs:129-130 | the prefixes of the intervals handed out are the prefix list of the runs |
| `Xdp.NeedCounts` | src/xdp.rs:124-165 | the counter of a family ends at the number of its prefixes in the list |
| `Xdp.StreamedAreValid` | src/blocklist.rs:135-180 | every interval ever handed to the callback is non-empty and inside its family, also before a rejection |
| `Xdp.ReloadInTrail` | src/xdp.rs:117-198 | from its begin to the next one a reload has published its list exactly when its control write is among the steps taken, which is when the control word has moved |
| `Xdp.ReloadInRun` | src/xdp.rs:117-198 | a reload that is cut short after any step has published its list, exactly if its control write is among the steps that survive, or left the old one in force; one that runs to its end succeeds exactly if that write was made |
| `Xdp.Life` | src/xdp.rs:50-206 | over every run of processes that start, reload and die wherever they like, the slot in force holds exactly the list of the last reload whose control write was made; the flag of each event says whether that write is among the steps the event took, and when no kernel call fails the events alone decide every flag of a reload that runs to its end |
| `Capacity.NeedIsLeast` | src/blocklist.rs:36-100 | no collection of blocks over a whole list has fewer members of a family than its runs need |
| `Capacity.ReloadIsLeast` | src/xdp.rs:129-167 | however the listed addresses are put into prefixes, each family takes at least what a reload inserts |
| `Capacity.TargetPublishes` | src/xdp.rs:129-167 | the prefixes a reload publishes hold exactly the listed addresses |
| `Capacity.FitsWheneverPossible` | src/xdp.rs:138-158 | a canonical file fits exactly when some set of prefixes with its addresses has at most `ipv4_max_entries` and `ipv6_max_entries` members of the families |
| `Capacity.LinesSuffice` | src/xdp.rs:126-174 | a file with no more lines of each family than the entries configured for it never meets the capacity error |
| `Packet.ReadArray` | cidrwall-ebpf/src/main.rs:95-106 | the bytes at the offset if all lie inside the frame, otherwise nothing |
| `Packet.ReadBeU16` | cidrwall-ebpf/src/main.rs:91-93 | the big-endian word, its high byte first, under the same condition |
| `Packet.SourceKey` | cidrwall-ebpf/src/main.rs:28-76 | the lookup key of any frame: at most two tags are walked, malformed headers give none; `Packet.FrameKey` and `Packet.KeyNeedsFrame` say which address it is |
| `Packet.TryCidrwall` | cidrwall-ebpf/src/main.rs:28-82 | drops exactly when the trie of the key's family in the active slot holds the key |
| `Packet.WalkFinds` | cidrwall-ebpf/src/main.rs:34-42 | behind up to as many tags as may be skipped the walk finds type and offset of the header |
| `Packet.FrameKey` | cidrwall-ebpf/src/main.rs:44-76 | parsing undoes framing: a well-formed frame yields its family and the address whose digits to base 256, most significant first, are its source bytes |
| `Packet.KeyNeedsFrame` | cidrwall-ebpf/src/main.rs:28-76 | and conversely: a key is only ever the address that the source bytes of a well-formed header behind at most two tags spell |
| `Packet.HeaderFrom` | src/xdp.rs:143-161 | every well-formed header comes from exactly one address, written in network order as the keys of the tries are |
| `Packet.WireTypes` | cidrwall-ebpf/src/main.rs:36-64 | the types of both headers and both tags as they stand on the wire |
| `Packet.DottedQuad` | cidrwall-ebpf/src/main.rs:44-60 | byte by byte: an untagged IPv4 frame from a.b.c.d looks up the number with those four bytes |
| `GenerationNames.HexDigits` | src/netlink.rs:320-321 | parsing the hex digits of a number gives the number |
| `GenerationNames.DigitReads` | src/netlink.rs:517 | hex digits of either case, and no other character, are digits |
| `GenerationNames.GenerationOfName` | src/netlink.rs:514-522 | splitting and parsing a set name gives back its generation |
| `GenerationNames.AfterLastMarker` | src/netlink.rs:516 | the number is looked for behind the last "_g" of a name, and nowhere in a name without one |
| `GenerationNames.NameLayout` | src/netlink.rs:316-321 | direction, family, and sixteen hex digits that give the number |
| `GenerationNames.GenerationPrefix` | src/netlink.rs:719-723 | a name counts as a generation exactly if it begins like one of the four names the daemon gives |
| `GenerationNames.NamesAreDistinct` | src/netlink.rs:316-321 | names of different direction, family or number differ, are recognised as generations, and are not the marker |
| `GenerationNames.ObservedIsFresh` | src/netlink.rs:513-523 | after a scan no name that the counter can still produce is in the table |
| `GenerationNames.ObservedBelow` | src/netlink.rs:513-523 | a scan moves the counter no further than the names in the table demand |
| `Netfilter.CommitKeepsIntact` | src/netlink.rs:725-740 | no batch, whatever it holds, leaves a rule that looks up a missing set |
| `Netfilter.Kernel.Send` | src/netlink.rs:725-740 | the whole batch or nothing; refused batches are counted |
| `Generations.RenderLooksUp` | src/netlink.rs:601-643 | rendered chains look up the active sets and nothing else |
| `Generations.BaseRulesMembers` | src/netlink.rs:570-599 | the rules of a base chain are those configured for it |
| `Generations.Bootstrapped` | src/netlink.rs:289-304 | on an absent table the bootstrap batch leaves the marker and the chains without lookups |
| `Generations.RulesReplaced` | src/netlink.rs:645-669 | `replace_rules` leaves exactly the rendered chains, whatever was there |
| `Generations.DispatchReplaced` | src/netlink.rs:671-689 | `replace_dispatch` replaces the rules of one dispatch chain and nothing else |
| `Backend.CarriedIsHealthy` | src/netlink.rs:451-479 | a generation that carries a canonical file passes its check, with or without reported counts |
| `Backend.HealthMeans` | src/netlink.rs:451-479 | which directions pass, told from set names, elements and recorded intervals, decides the classification |
| `Backend.DispatchMeaning` | src/netlink.rs:601-643 | the two dispatch rules drop exactly the listed addresses, source or destination by direction |
| `Backend.SetsDeleted` | src/netlink.rs:691-717 | the delete batch removes exactly the named sets, and is not refused if they exist, differ and are unreferenced |
| `Backend.NftnlBackend.ObserveGenerations` | src/netlink.rs:513-523 | the counter ends at the largest successor seen, saturating |
| `Backend.NftnlBackend.GetLayoutStatus` | src/netlink.rs:275-288 | the status by table and marker, and fresh names from then on |
| `Backend.NftnlBackend.Bootstrap` | src/netlink.rs:289-304 | creates the marked table with its rules, or nothing |
| `Backend.NftnlBackend.BeginStage` | src/netlink.rs:306-341 | two empty sets under names that were not there; the counter moves even when the batch fails and stops at its maximum |
| `Backend.NftnlBackend.Populate` | src/netlink.rs:343-390 | the set of the chunk's family gains exactly its boundaries; the mixed-family error exactly on mixed chunks |
| `Backend.NftnlBackend.ReplaceRules` | src/netlink.rs:392-399 | all five chains as rendered, in one transaction |
| `Backend.NftnlBackend.ActivateDirection` | src/netlink.rs:401-408 | one dispatch chain replaced, in one transaction |
| `Backend.NftnlBackend.DeleteSets` | src/netlink.rs:691-717 | the named sets are gone, or nothing changed |
| `Backend.NftnlBackend.Discard` | src/netlink.rs:410-416 | both sets of the stage are gone, or nothing changed |
| `Backend.NftnlBackend.CleanupObsolete` | src/netlink.rs:418-434 | every generation set that no active generation names is gone, or nothing changed; a set whose name does not begin like a generation name is never touched |
| `Backend.NftnlBackend.GetHealth` | src/netlink.rs:436-494 | damaged layout without the marker; otherwise each direction passes exactly if its sets are there and, where counts are reported, count as many intervals as recorded, and that decides the answer |
| `Staging.FilledStep` | src/netlink.rs:343-390 | populating one more chunk is filling the sets with one longer list of intervals |
| `Staging.LoadedIsHealthy` | src/daemon.rs:236-243 | staged generations of both directions are healthy as soon as the marker is there |
| `Staging.FilledNumbered` | src/netlink.rs:306-341 | a stage adds names of its own number only, so a counter ahead of every name stays ahead |
| `Staging.CollectedExactly` | src/netlink.rs:418-434 | after a collection the generation sets present are exactly those of the active generations |
| `Staging.RenderReplaced` | src/netlink.rs:671-689 | replacing one dispatch chain of a rendered table is rendering the new generation |
| `Staging.RenderedHasActive` | src/netlink.rs:645-669 | in a rendered table whose references resolve every active set exists |
| `Daemon.Daemon.PopulateAll` | src/daemon.rs:147-156 | the sets hold what was sent so far, the mixed-family error does not arise, and no batch is refused |
| `Daemon.Daemon.Stage` | src/daemon.rs:132-183 | on success the only change is a new generation that holds exactly the file; on failure at most left-over sets, none with a reliable kernel; a missing file costs nothing and a rejected one is rejected for its first faulty line |
| `Daemon.Daemon.VerifyCandidate` | src/daemon.rs:360-387 | accepts exactly full health, or damage of the direction that is not being replaced |
| `Daemon.Daemon.DiscardCandidate` | src/daemon.rs:227-253 | gives up every staged generation and nothing else |
| `Daemon.Daemon.Collect` | src/daemon.rs:256-261 | a successful cleanup removes every obsolete generation set, a failed one nothing |
| `Daemon.Daemon.ReplaceInitial` | src/daemon.rs:222-298 | the first load: both directions or neither, chains exactly as rendered, sets exactly the files; after a successful cleanup no other generation set is left |
| `Daemon.Daemon.ReloadHeld` | src/daemon.rs:304-358 | a failure changes neither chains nor `active`; a success replaces one direction; it succeeds whenever the kernel, the file and the counter allow, whatever damage the other direction has; a successful cleanup leaves no obsolete set, and undisturbed tables stay so, with no batch refused and exactly the active generation sets left |
| `Daemon.Daemon.ReplaceBoth` | src/daemon.rs:185-298 | all or nothing for both on the first load, for each direction in turn later; success means full health; with generations held and nothing but the files in the way, each usable file up to the first unusable one replaces its direction, so the call is joint all or nothing exactly when a usable inbound file comes with a usable outbound one |
| `Daemon.Daemon.ReloadNftFor` | src/daemon.rs:304-358 | the same contract for a requested reload, with the unused direction refused |
| `Daemon.Daemon.ReconcileNft` | src/daemon.rs:509-554 | one undisturbed pass mends the sets of every table that kept its marker, held generations or not, and of an absent one while generations are held; damage of one direction needs the file of that direction only and leaves the other one alone; in every other state each pass fails and changes nothing; a pass over healthy sets mends the chains only |
| `Daemon.Daemon.Rebuild` | src/daemon.rs:515-523 | an absent table is bootstrapped and loaded as at startup |
| `Daemon.Daemon.Mend` | src/daemon.rs:530-552 | the class of damage and the files it needs decide the outcome: healthy sets get their chains back, one damaged direction is replaced by its own file whatever the other file, both are replaced in order up to the first unusable file; nothing else is touched, whatever fails |
| `Daemon.Daemon.InitialLoad` | src/daemon.rs:105-130 | startup activates the files or leaves an earlier process's chains in force; an unmarked table is left alone, an absent one bootstrapped; the counter ends at most two past the numbers found |
| `Daemon.Daemon.ReplacedDrops` | src/daemon.rs:304-358 | after a successful reload the direction drops exactly the addresses of its file |
| `Daemon.Daemon.ReplacedElsewhere` | src/daemon.rs:304-358 | and no verdict of the other direction changes |
| `Daemon.Daemon.HoldingDrops` | src/netlink.rs:601-643 | over rendered chains each direction drops exactly the addresses of the list it holds |
| `Daemon.Daemon.RuleVerdict` | src/netlink.rs:570-599 | a base chain drops a packet exactly when a configured rule matches its interfaces and the rule's list holds the address |
| `Daemon.Daemon.ReplacedHolds` | src/daemon.rs:304-358 | a reload changes the list of its direction and keeps the other one |
| `Daemon.ReloadInRun` | src/daemon.rs:304-358 | in an undisturbed run a failed reload changes no list and a successful one only its own; when no request fails it succeeds exactly if the direction is used and its file canonical |
| `Daemon.ReconcileInRun` | src/daemon.rs:509-554 | in an undisturbed run a reconciliation changes no list |
| `Daemon.StartInRun` | src/daemon.rs:105-130 | a process that starts over whatever an earlier one left holds its files or leaves an orderly state; when no request fails it starts exactly if every file its rules need is canonical |
| `Daemon.Happen` | src/daemon.rs:105-554 | one event of a run: the state between events is kept, the counter stays ahead of every number in the table and moves by two at most, and when no request fails event and rules decide the outcome |
| `Daemon.Life` | src/daemon.rs:105-554 | over every run of startups, reloads, reconciliations and restarts with any failures: every looked-up set exists, no batch is ever refused, the chains are those of `active` over sets that hold exactly the lists last loaded, and after a successful cleanup the generation sets present are exactly the active ones; when no request fails the events alone decide every outcome, as long as generation numbers last |
| `Daemon.Converge` | src/daemon.rs:509-554 | two undisturbed passes succeed exactly when the table kept its marker or is absent while generations are held, and then every active set is there, counts as many intervals as recorded where counts are reported, and all chains are as rendered |
| `Daemon.LosesTableTwice` | src/daemon.rs:509-523 | after a rebuild that failed on a file and a second loss of the table no later pass succeeds, whatever its files and however reliable the kernel |
| `Daemon.LostAcknowledgement` | src/netlink.rs:725-740 | after any batch that was applied although the daemon was told of a failure, and that spares the marker, two undisturbed passes bring back every active set with its recorded count and the chains of `active` |
| `Daemon.LostActivation` | src/daemon.rs:327-335 | after such an activation of one direction a single pass restores the table as it was |
| `EndToEnd.XdpDropsListed` | cidrwall-ebpf/src/main.rs:28-82 | the tries drop a well-formed frame exactly when the list holds the address its source bytes spell |
| `EndToEnd.Agreement` | src/netlink.rs:601-643 | XDP, nftables and the list agree on every well-formed frame with up to two tags, for the address its source bytes spell |
| `EndToEnd.ReloadInbound` | src/daemon.rs:482-507 | each backend is reloaded whatever becomes of the other and succeeds whenever it can, with or without generations held, and when both succeed they agree on every frame |
| `Process.Launch` | src/daemon.rs:105-130 | a process comes up only after nftables has taken its files and the XDP tries the inbound one; one that does not leaves an orderly state; when no request fails it comes up exactly if its files can be loaded |
| `Process.ReloadEvent` | src/daemon.rs:482-507 | a reload with both backends, which may die in its XDP part, begins each backend whatever becomes of the other and moves each by its own outcome only; when no request fails each succeeds exactly if its file can be loaded |
| `Process.ReconcileEvent` | src/daemon.rs:461-480 | a reconciliation leaves what both backends hold |
| `Process.SameFileAgrees` | cidrwall-ebpf/src/main.rs:28-82 | while sets and slot hold the same inbound file both backends agree on every frame |
| `Process.Life` | src/daemon.rs:77-555 | over every run of whole processes, whatever fails and wherever one dies, the sets hold the files last loaded and the slot the inbound file last written; no process works before its tries are loaded; while sets and slot hold the same file, as after every start, XDP and nftables give every well-formed frame the verdict of that file; when no request fails the events alone decide every outcome, as long as generation numbers last |

## Findings

- Reconciliation can lose its way for good (src/daemon.rs:509-523). While no generation is
  held, `reconcile_nft` goes straight to staging: it neither looks for the table nor
  bootstraps it. A process gets there when the table vanishes, the rebuild bootstraps it but
  fails on a file (`active` has been cleared by then), and the table vanishes again. From then
  on every pass fails until the process is restarted: `Daemon.LosesTableTwice`. The exact
  condition for recovery is `Daemon.Daemon.Recoverable`, and `Daemon.Converge` proves both
  directions.
- A chunk limit of 1, which the configuration accepts (src/config.rs:244-250), does not bound
  a chunk by 1 (src/blocklist.rs:157-178): `StreamTheorems.LimitOneFails` gives the file, and
  `StreamTheorems.LimitHolds` the exact condition under which the limit is kept, a limit of at
  least 2 or no run that ends before the last address of its family. The bound that always
  holds is max(limit, 2), `Stream.ChunkBound`.

## Left out

- The callback of the pass: `Stream.StreamChunks` takes the callback's verdicts and returns the chunks it was called with; `Xdp` and `Daemon` run it without refusals and then hand the chunks over in order until one fails, which by `StreamTheorems.RefusalTruncates` is the same sequence of calls.
- Parsing: a line is unreadable, blank or a comment, garbled, or a CIDR block; trimming, UTF-8 and IP text parsing are not modelled.
- The last address of an IPv6 block is modelled as a sum, where the code sets the low bits; for a host-bit-free address the two are equal.
- Statistics counters and kernel element counts are unbounded, where the code has 64-bit and 32-bit counters.
- `IntervalSets.Matches`: the kernel's set and trie structures are replaced by what they mean, the nearest boundary and the set of prefixes.
- `Netfilter.Kernel.Send`: libnftnl, libmnl, sockets, acknowledgements and paging of batches are replaced by one transaction that commits or fails; a commit whose acknowledgement is lost, after which the daemon would take the new chains for the old ones, is not an outcome of this method; `Daemon.LostAcknowledgement` and `Daemon.LostActivation` say how it ends.
- `Attributes.RemoveTopLevelAttribute`: pointer ownership and serialisation by libnftnl are not modelled; the buffer is an array that holds at least the message the header claims.
- Set element counts are either reported for every set or for none; the one-time warning is not modelled.
- `Daemon.Daemon.ReplaceBoth`: calls the held case of a reload directly, where the code goes through two checks that are decided there.
- Interface links, program loading, pinning and the fallback between XDP modes: library and system behaviour; only that pinned maps survive a crash is kept.
- Zones, rule resolution and configuration: the rendered rules are an input.
- Flowtable conflict checks, cleanup on exit, the watcher, debouncing and logging: short branches or timing without a deep invariant.
- `EndToEnd.ReloadInbound`: the inbound list with both backends configured; other combinations run one backend only.
- `Process.Life`: every process has nftables rules and XDP; runs with one backend are `Daemon.Life` and `Xdp.Life`.
