# ConnMan protocol core, modelled in Dafny

ConnMan is a network connection manager. This project models the parts of its libraries that
carry state or arithmetic, and proves what they keep over whole runs:

- **gdhcp, server side.** One set of leases, reachable through a list sorted by expiry and
  through a hash by address, and the packet handlers that update both in place
  (`LeaseTable`, `ServerSpec`, `LeaseServer`, `ServerRuns`, `ServerAnswers`).
- **gdhcp, client side.** The DHCP and IPv4 link-local state machine with its timers
  (`ClientSpec`, `DhcpClient`, `ClientTimers`, `LeaseTiming`, `LinkLocalClaim`,
  `LinkLocalDefence`, `ClientSchedule`, `ClientLiveness`, `ConflictRuns`).
- **Both together.** One server and any number of clients on a network
  (`Network`, `NetworkSteps`, `NetworkLocal`, `NetworkSafety`, `NetworkBound`).
- **gdhcp on the wire.** The checksum, the option codec and the IP/UDP framing
  (`Checksum`, `DhcpOptions`, `OptionBuilder`, `DhcpPacket`, `Frame`, `FrameOctets`).
- **gweb.** The chunked transfer coding and the token scanner
  (`Buffers`, `Chunked`, `ChunkedForm`, `WebSession`, `TokenScanner`), and the order of
  destination addresses (`BitRows`, `PolicyTable`, `PolicyValues`, `DestinationOrder`).
- **gdbus.** The registry of object paths with its cached introspection documents
  (`ObjectTree`, `Introspection`, `ObjectRegistry`), and the dispatch of signals to watches
  that change during the dispatch (`WatchRules`, `WatchDispatch`, `WatchTable`).

Code that changes objects in place is a class whose methods are proved against a transition
function on values (`View`, `table`, `tree` tie the two together). The theorems are about
those functions, over every run. `dafny verify dfyconfig.toml` checks everything.

## Results

- **Mutual exclusion of addresses** (`NetworkSafety.MutualExclusion`): no reachable state of
  the composed system has two clients holding one address, from the report of a lease to the
  report of its loss or a stop. What is assumed is in `Network.Allowed`: the messages of one
  client reach the server in the order sent or not at all, ACKs arrive at once or not at all,
  timers fire when due, and a transaction identifier is not used twice by one client;
  everything else, the NAKs that were sent included, may come at any time, any number of
  times. The server grants at
  least seven seconds, and this is exact (`NetworkBound.ExclusionIff`): for every shorter
  lease time there is a run in which two clients hold one address, because a client counts
  with no less than ten seconds and so holds an address for seven
  (`NetworkBound.ShortLeaseShared`). That the order of messages matters is shown by
  `ServerRuns.DiscoverGivesAway`.
- **Server exclusivity** over every run (`ServerRuns.Exclusive`).
- **Lease timing** (`LeaseTiming.LeaseLostInTime`), **claim safety**
  (`LinkLocalClaim.ClaimSafety`), **liveness** (`ClientLiveness.StartSettles`, with an exact
  bound on the addresses tried, `ConflictRuns.TriesAttained`) and the
  **single timer** (`ClientTimers.AlwaysSingleTimer`) of the client.
- **What is answered and when**: the server's answer to every packet by its fields
  (`ServerAnswers`), the two-sided bound on how long a lease is used
  (`LeaseTiming.LeaseUsed`), and the timetable of a client that hears nothing
  (`ClientSchedule.SilentStart`).
- **What is accepted**, in both directions and by octets: frames (`FrameOctets.AcceptedIff`)
  and chunked streams (`ChunkedForm.AcceptedIff`).
- **What is listed and who gets a signal**: introspection told from the calls made
  (`Introspection.IntrospectAfter`), delivery told from the rules of the watches
  (`WatchRules.GetsWantedIff`).
- **Round trips**: `Frame.OptionsRoundTrip` from the option adders over the wire to the
  option lookup, `Chunked.ChunkedRoundTrip` for chunked bodies under any split.
- **Refinement of fast forms**: option lookup to first match
  (`DhcpOptions.GetOptionIsFirstMatch`), `memchr` scanner to octet automaton
  (`TokenScanner.Parser.FeedData`), word-wise comparison to the order of sort keys
  (`DestinationOrder.Rfc3484Compare`, `DestinationOrder.FilledOrder`), cached documents to regenerated ones
  (`ObjectTree.AlwaysFresh`), dispatch loop to the expected runs
  (`WatchDispatch.RunsExpected`).

## Where the code departs from what it is meant to do

The model follows the code, and states exactly when it departs.

- The 300 seconds of an offer are stored as an absolute time, so that an offer reserves
  nothing (`ServerRuns.OfferReservesUntil300`).
- The list order is lost once expiries are 2^31 seconds apart (`LeaseTable.InsertSortedIff`,
  `LeaseTable.InsertLosesOrder`).
- A client takes any lease for one of at least ten seconds, so that addresses are not exclusive
  below seven (`NetworkSafety.HoldFits`, `NetworkBound.ExclusionIff`).
- The scan for a free address wraps around on a range that ends at 255.255.255.255 and has no
  free address; then expired leases are not given out again (`LeaseTable.ScanRightIff`,
  `LeaseTable.ScanWraps`, `ServerRuns.OfferedIff`, `ServerRuns.OfferLost`).
- The scan passes over addresses ending in 0 and 255, but a client that names one is offered it
  (`ServerRuns.WishGrantedIff`, `ServerRuns.BroadcastOffered`).
- A NAK neither reports the loss of a lease nor starts over, but for the 256th
  (`LeaseTiming.NakKeepsAddress`).
- The option lookup can run in circles (`DhcpOptions.HaltsIff`,
  `DhcpOptions.SelfOverloadDiverges`).
- The chunked decoder fails on a buffer boundary inside the CR LF of a size line, and with a
  stale `errno` (`Chunked.SplitIff`, `Chunked.CutSizeLineFails`, `Chunked.StaleErrnoFails`).
- The token scanner does not look again at an octet that breaks a match
  (`TokenScanner.TokenSeenIff`, `TokenScanner.TokenMissed`).
- Unregistering the Introspectable interface by name upsets the count of references; caches stay
  right all the same (`ObjectTree.UnregisterCoherent`, `ObjectTree.AlwaysFresh`).
- The scope of an IPv4 address is always that of a link-local one
  (`DestinationOrder.Ipv4ScopeIsLink`), which agrees with section 3.2 of RFC 3484 for two
  networks only (`DestinationOrder.Ipv4ScopeRightIff`, `DestinationOrder.GlobalTakenForLink`).
  The label table has, as the source says, rows that section 2.1 does not have.
- The count of address conflicts survives a stop: the bound on the addresses that the next start
  tries is not always ten, but from one to eleven, and it is attained
  (`ConflictRuns.TriesAttained`); eleven are tried if and only if the count was left at 255
  (`ConflictRuns.TenIff`), which can happen (`ConflictRuns.Leaves255`).
- A watch is put into the first filter that does not disagree with it, and a signal goes to the
  first such filter only: a watch gets signals it did not ask for, or misses some, unless it has
  a filter of its own (`WatchRules.GetsWantedIff`, `WatchRules.SharedIff`,
  `WatchRules.MembersShared`).
- A datagram whose checksum is sent as all ones is rejected although it is right
  (`FrameOctets.AcceptedIff`, `FrameOctets.AllOnesRejected`).
- A NameOwnerChanged signal whose arguments are malformed is left before the loop over the
  watches, and the lists are swapped all the same: every watch of the filter is dropped without
  having run (`WatchTable.HandledIff`, `WatchTable.RejectedSignalDrops`).

## Model

| member | source | states |
|---|---|---|
| `LeaseTable.FindByMac` | gdhcp/server.c:94-107 | an entry of the table with that hardware address, or none has it |
| `LeaseTable.FindByNip` | gdhcp/server.c:219-224 | an entry of the table with that address, or none has it |
| `LeaseTable.Evict` | gdhcp/server.c:120-180 | exactly the entries that share neither the address nor the hardware address |
| `LeaseTable.InsertPos` | gdhcp/server.c:182-217 | where a sorted insertion stops: behind everything it compares above, in front of the first it does not |
| `LeaseTable.AddLeaseKeeps` | gdhcp/server.c:120-217 | addresses and hardware addresses stay unique, and the new table is the new lease plus exactly the old ones not in its way |
| `LeaseTable.RemoveLeaseKeeps` | gdhcp/server.c:109-117 | removal keeps the table well formed |
| `LeaseTable.SetExpireKeeps` | gdhcp/server.c:284-293 | re-expiring keeps the table well formed and changes that one lease only |
| `LeaseTable.SameNip` | gdhcp/server.c:94-117 | two entries that share an address or a hardware address are one entry |
| `LeaseTable.ComparatorExact` | gdhcp/server.c:182-188 | for any two expiries the comparison, narrowed to 32 bits, is right if and only if the difference and its low 32 bits, read as a signed number, are both positive or both not |
| `LeaseTable.ComparatorWithin31` | gdhcp/server.c:182-188 | so for expiries less than 2^32 seconds apart it is right if and only if they are within 2^31 |
| `LeaseTable.InsertSortedIff` | gdhcp/server.c:182-217 | insertion into any sorted list keeps it sorted if and only if the narrowed comparison was right about every entry it looked at |
| `LeaseTable.InsertLosesOrder` | gdhcp/server.c:182-217 | an offer inserted next to a lease that ends after 2038 destroys the order |
| `LeaseTable.InsertKeepsOrder` | gdhcp/server.c:190-217 | insertion keeps the order while expiries fit in 31 bits |
| `LeaseTable.EvictKeepsOrder` | gdhcp/server.c:120-180 | clearing the way for a lease keeps the order |
| `LeaseTable.RemoveKeepsOrder` | gdhcp/server.c:109-117 | removal keeps the order |
| `LeaseTable.FirstFreeIsLowest` | gdhcp/server.c:241-264 | the scan returns the lowest free usable address, and 0 only if there is none |
| `LeaseTable.AllocatorExact` | gdhcp/server.c:233-282 | the lowest free usable address if there is one, else the address of a lease that expired no later than any other, and 0 if and only if all are leased and none is expired; but when the scan wraps around, no address of the range |
| `LeaseTable.OfferedNotHeld` | gdhcp/server.c:241-282 | an address the allocator or a client's wish yields is never one with a running lease |
| `LeaseTable.AllocatedOk` | gdhcp/server.c:241-282 | an address of the range that the allocator yields is one that would also be offered to a client naming it |
| `LeaseTable.ScanExact` | gdhcp/server.c:246-264 | the loop on its 32-bit counter ends with an answer if and only if `ScanAnswer` gives that answer, for every table and every range |
| `LeaseTable.ScanRightIff` | gdhcp/server.c:246-264 | the loop finds the lowest free address of the range, or runs past the range without one, if and only if the range ends below 255.255.255.255 or has a free address |
| `LeaseTable.ScanWraps` | gdhcp/server.c:246-264 | in the other cases it comes round to 0.0.0.1, which is out of range, or, if the range has that one too, never ends |
| `ServerSpec.PacketType` | gdhcp/server.c:416-438 | a packet counts if and only if it is a BOOTREQUEST with a six-octet hardware address and a message type from 1 to 8 |
| `LeaseServer.LinkedRemove` | gdhcp/server.c:109-117 | taking a record off the list and out of the hash leaves both holding the same leases |
| `LeaseServer.LinkedInsert` | gdhcp/server.c:190-217 | putting a record on the list and in the hash leaves both holding the same leases |
| `LeaseServer.EvictTwice` | gdhcp/server.c:120-180 | the case analysis on the lease found by address and the one found by hardware address removes exactly the leases in the way |
| `LeaseServer.DhcpServer.constructor` | gdhcp/server.c:351-413 | a new server has an empty table, with list and hash in agreement |
| `LeaseServer.DhcpServer.FindLeaseByMac` | gdhcp/server.c:94-107 | the search of the list finds the entry of the table |
| `LeaseServer.DhcpServer.FindLeaseByNip` | gdhcp/server.c:219-224 | the hash answers what a search of the list would |
| `LeaseServer.DhcpServer.RemoveLease` | gdhcp/server.c:109-117 | list and hash stay in agreement and lose that one lease |
| `LeaseServer.DhcpServer.GetLease` | gdhcp/server.c:120-180 | list and hash stay in agreement; the record handed out is listed nowhere, and all leases in the way are gone |
| `LeaseServer.DhcpServer.TakeNip` | gdhcp/server.c:147-164 | taking the record of the address, and dropping that of the hardware address if it is another one, is one eviction |
| `LeaseServer.DhcpServer.TakeMac` | gdhcp/server.c:166-175 | taking the record of the hardware address when the address is free is one eviction |
| `LeaseServer.DhcpServer.SortedPosition` | gdhcp/server.c:190-217 | the loop over the list stops at the position of the table |
| `LeaseServer.DhcpServer.ListInsertSorted` | gdhcp/server.c:190-217 | the record is inserted where the table has it, and nothing else changes |
| `LeaseServer.DhcpServer.FillIn` | gdhcp/server.c:190-217 | writing to the unlisted record leaves all listed leases as they are |
| `LeaseServer.DhcpServer.AddLease` | gdhcp/server.c:190-217 | in place, list and hash come to hold the table that `LeaseTable.AddLease` gives, or nothing changes |
| `LeaseServer.DhcpServer.ScanLoop` | gdhcp/server.c:246-264 | whenever the loop over the addresses ends, its counter wrapping around or not, it answers what `ScanExact` says |
| `LeaseServer.DhcpServer.FindFreeOrExpiredNip` | gdhcp/server.c:241-282 | the loop and the look at the last list element return the allocator's answer, of which `AllocatorExact` says what it is |
| `LeaseServer.DhcpServer.CheckRequestedNip` | gdhcp/server.c:488-510 | a wish is granted for any address in range, also one ending in 0 or 255, whose lease, if any, has expired |
| `LeaseServer.DhcpServer.LeaseSetExpire` | gdhcp/server.c:284-293 | the record moves in the list, the hash still finds it, and nothing else changes |
| `LeaseServer.DhcpServer.SendOffer` | gdhcp/server.c:535-576 | table and answer are those of the DISCOVER transition |
| `LeaseServer.DhcpServer.SendAckOrNak` | gdhcp/server.c:592-630 | table and answer are those of the REQUEST transition |
| `LeaseServer.DhcpServer.ListenerEvent` | gdhcp/server.c:642-745 | every packet takes the objects of the server from agreement to agreement and does what the transition function does, of which `ServerAnswers` says what it is, field by field |
| `ServerRuns.StepKeeps` | gdhcp/server.c:642-745 | every packet keeps addresses unique, hardware addresses unique and leases in range |
| `ServerRuns.StepKeepsOrder` | gdhcp/server.c:642-745 | every packet keeps the list sorted while expiries fit in 31 bits |
| `ServerRuns.AckHeld` | gdhcp/server.c:592-615 | after an ACK the table holds the acknowledged lease until now plus the lease time |
| `ServerRuns.HeldKept` | gdhcp/server.c:642-745 | no packet but a DISCOVER of the holder, or its DECLINE or RELEASE of that address naming this server, takes a running lease away |
| `ServerRuns.KeptByOther` | gdhcp/server.c:642-745 | a packet of another client neither touches a running lease nor gets its address |
| `ServerRuns.RunKeeps` | gdhcp/server.c:642-745 | every table of every run is well formed |
| `ServerRuns.RunKeepsOrder` | gdhcp/server.c:642-745 | every table of every run is sorted while expiries fit in 31 bits |
| `ServerRuns.NotGrantedWhileHeld` | gdhcp/server.c:488-745 | in a run in which the holder gives nothing up its address is granted to nobody else |
| `ServerRuns.Exclusive` | gdhcp/server.c:120-293 | in every run with a clock that does not go back an acknowledged address is neither acknowledged nor offered to another client until the lease ends, unless the holder has sent a DISCOVER, or a DECLINE or RELEASE of that address naming this server |
| `ServerRuns.WishGrantedIff` | gdhcp/server.c:488-576 | a client without a lease is offered the address it names if and only if that is in range and free or expired |
| `ServerRuns.BroadcastOffered` | gdhcp/server.c:488-510 | a client that names an address ending in 255, which the scan passes over, is offered it |
| `ServerRuns.OfferedIff` | gdhcp/server.c:241-282 | a client without a lease is offered something if and only if its wish is granted, or the scan does not wrap around and some usable address is free or some lease expired |
| `ServerRuns.OfferLost` | gdhcp/server.c:246-264 | on a range up to 255.255.255.255 whose one usable address has an expired lease a client gets no answer |
| `ServerRuns.OfferReservesUntil300` | gdhcp/server.c:535-576 | an offered address is offered to somebody else again if and only if the absolute time is past 300 |
| `ServerRuns.DiscoverGivesAway` | gdhcp/server.c:535-615 | a late DISCOVER of the holder indeed lets another client be acknowledged the address while the lease runs |
| `ServerRuns.DiscoverResets` | gdhcp/server.c:535-576 | a DISCOVER of a leaseholder turns its lease into one that expired at 300 |
| `ServerRuns.DiscoverTakes` | gdhcp/server.c:488-576 | a client that asks for an expired lease's address gets it reserved |
| `ServerAnswers.OtherServerIgnored` | gdhcp/server.c:665-672 | a packet that names another server is not answered and changes nothing |
| `ServerAnswers.MalformedIgnored` | gdhcp/server.c:661-663 | nor is one that is no request, of another hardware type or without a message type from 1 to 8 |
| `ServerAnswers.DeclineExact` | gdhcp/server.c:709-723 | a DECLINE that names this server and the leased address removes exactly that lease and leaves the others in their places; any other changes nothing |
| `ServerAnswers.ReleaseExact` | gdhcp/server.c:725-737 | a RELEASE that names this server and carries the leased address leaves that lease with the present time in 32 bits as its expiry and touches no other; any other changes nothing |
| `ServerAnswers.RequestExact` | gdhcp/server.c:687-708 | a REQUEST is acknowledged if and only if it asks for the lease of the client, refused if and only if it asks for another address and names this server or the client has no lease, and otherwise not answered; only an ACK changes the table, and only that lease |
| `ServerAnswers.KnownOffered` | gdhcp/server.c:535-576 | a client with a lease is offered its address again, whatever it asks for, and the lease becomes one that ends at the absolute time 300 |
| `ServerAnswers.NewcomerExact` | gdhcp/server.c:488-576 | a client without a lease is offered the address it names if that is in range and without a running lease, else what the allocator yields, and is entered with it; without an address or with an unusable hardware address it gets no answer and nothing changes |
| `ServerAnswers.OthersExact` | gdhcp/server.c:738-742 | an INFORM is answered without a lease, and types that only servers send are not answered |
| `DhcpClient.GDhcpClient.constructor` | gdhcp/client.c:404-463 | a new client is idle, without a timer, and meets the invariant of its timers and claims |
| `DhcpClient.GDhcpClient.Start` | gdhcp/client.c:1315-1356 | a start keeps the invariant: one timer at most, the one in `timeout`, in line with the claim, and every reported link-local address claimed in full |
| `DhcpClient.GDhcpClient.ListenerEvent` | gdhcp/client.c:1129-1236 | whatever is read from the socket in whichever mode keeps that invariant, and nothing happens without a listener; what each kind of packet does is said by `AckKeepsLease`, `OfferRequests`, `NakRestarts`, `ForeignIgnored`, `UnexpectedIgnored` and `LinkLocalDefence` |
| `DhcpClient.GDhcpClient.Stop` | gdhcp/client.c:1358-1386 | a stop keeps that invariant and leaves the main loop without a timer of the client |
| `DhcpClient.GDhcpClient.Dispatch` | gdhcp/client.c:1238-1313 | every due timer keeps that invariant; it runs the callback it was armed with and is dropped |
| `DhcpClient.RandomLinkLocalIp` | gdhcp/ipv4ll.c:41-57 | the result lies in 169.254.1.0 to 169.254.254.255 and comes from the first value of the generator that is not rejected |
| `ClientTimers.StepSingle` | gdhcp/client.c:285-357 | every callback and packet keeps at most one timer live, the one in `timeout`; a stop leaves none |
| `ClientTimers.AlwaysSingleTimer` | gdhcp/client.c:825-988 | in every state of every run at most one timer is live, and it is the one in `timeout` |
| `ClientTimers.NewSingle` | gdhcp/client.c:404-463 | a new client meets the timer discipline |
| `ClientTimers.StopLeavesNone` | gdhcp/client.c:1358-1386 | after any run a stop leaves no timer |
| `LeaseTiming.DelaysBelowLease` | gdhcp/client.c:886-975 | all delays scheduled after an ACK add up to less than the lease |
| `LeaseTiming.HalvedPow2` | gdhcp/client.c:886-960 | after n timers the counter is at most the lease over 2^n |
| `LeaseTiming.AckTicks` | gdhcp/client.c:1189-1213 | an ACK starts the clock at the lease it carries |
| `LeaseTiming.AckKeepsLease` | gdhcp/client.c:851-868 | an ACK brings the lease time of its option, in 28 bits and at least ten seconds, or an hour without the option; the address is reported and the one timer left is the first renewal, half of that time away |
| `LeaseTiming.DelaysNearLease` | gdhcp/client.c:886-975 | the delays add up to no less than the lease but for the counter left and a second for each halving |
| `LeaseTiming.LeaseKept` | gdhcp/client.c:886-975 | no quiet run reports the loss before all of the lease has passed but six seconds and one for each timer that fired, nor before three quarters of it |
| `LeaseTiming.LeaseUsed` | gdhcp/client.c:851-975 | from an ACK for L seconds on a quiet run that reports the loss after f timers does so in the last 6 + f seconds of the lease, and f is logarithmic in L |
| `LeaseTiming.TimerSends` | gdhcp/client.c:886-960 | with more than 60 seconds left a lease timer sends a REQUEST to the server, then without another one it goes over to REBINDING, where it asks all servers while more than six seconds are left, and then reports the loss and starts over with the address had last |
| `LeaseTiming.StopSends` | gdhcp/client.c:1358-1386 | a stop sends a RELEASE if and only if the client holds an address, and leaves the settings and the count of conflicts only |
| `LeaseTiming.TimerTicks` | gdhcp/client.c:886-975 | a timer on time moves through BOUND, RENEWING and REBINDING in this order, or reports the loss before the lease ends |
| `LeaseTiming.RenewTicks` | gdhcp/client.c:919-960 | a renewing timer halves the counter, keeps the schedule inside the lease and loses nothing |
| `LeaseTiming.ReboundTicks` | gdhcp/client.c:886-917 | a rebinding timer halves the counter and stays in REBINDING, or reports the loss and starts over |
| `LeaseTiming.LeaseLostInTime` | gdhcp/client.c:851-975 | every run after an ACK for L seconds without ACK, NAK or stop goes through BOUND, RENEWING and REBINDING in this order, and the loss is reported out of REBINDING strictly before L seconds have passed and after at most logarithmically many timers |
| `LeaseTiming.QuietStays` | gdhcp/client.c:1129-1236 | other packets change nothing while a lease runs |
| `LeaseTiming.NakKeepsAddress` | gdhcp/client.c:977-988 | a NAK never reports the loss, and its restart goes back to the start, forgetting the address, if and only if the 8-bit count of NAKs wraps around |
| `LinkLocalClaim.StepClaims` | gdhcp/client.c:608-731 | every step keeps the record of probes and announcements in line with the pending timer |
| `LinkLocalClaim.ClaimSafety` | gdhcp/client.c:1266-1313 | in every run each report of a link-local address comes right after picking it, exactly three probes and two announcements for it, with nothing in between, and it lies in the range |
| `LinkLocalClaim.NewClaims` | gdhcp/client.c:404-463 | a new client meets the claim invariant |
| `LinkLocalDefence.OthersIgnored` | gdhcp/client.c:672-686 | ARP packets of other operations or for other addresses change nothing |
| `LinkLocalDefence.NamedCounts` | gdhcp/client.c:688-708 | one that names a held address without claiming it only counts |
| `LinkLocalDefence.Defends` | gdhcp/client.c:692-702 | a client in MONITOR answers a claim on its address by one announcement, keeps the address, and is in DEFEND for ten seconds |
| `LinkLocalDefence.DefenceHeld` | gdhcp/client.c:1254-1264 | after these it is in MONITOR again with no conflicts |
| `LinkLocalDefence.DefenceLost` | gdhcp/client.c:704-731 | a second claim in DEFEND makes it report the loss and, below ten conflicts, probe a new address, else report failure |
| `ClientSchedule.StartDiscovers` | gdhcp/client.c:1315-1356 | a start takes a new transaction identifier, forgets the address assigned, sends a DISCOVER for the address named, and remembers that one |
| `ClientSchedule.DiscoverRun` | gdhcp/client.c:1238-1252 | without an answer the DISCOVER is repeated every three seconds, to ten in all, and without an address named |
| `ClientSchedule.OfferRequests` | gdhcp/client.c:1171-1188 | an OFFER in SELECTING is answered by a REQUEST for what was offered, to who offered it |
| `ClientSchedule.RequestRun` | gdhcp/client.c:748-762 | without an answer the REQUEST is repeated every three seconds, to five in all |
| `ClientSchedule.ClaimRun` | gdhcp/client.c:1266-1313 | three probes, two announcements and the report of a picked address come at their times to the millisecond |
| `ClientSchedule.SilentStart` | gdhcp/client.c:1238-1356 | for every start that nobody answers: ten DISCOVERs, a link-local address, three probes, two announcements and the report, exactly 38 seconds and three random delays after the start |
| `ClientSchedule.LinkLocalOctets` | gdhcp/ipv4ll.c:41-57 | the addresses are those from 169.254.1.0 to 169.254.254.255, by octets |
| `ClientSchedule.ForeignIgnored` | gdhcp/client.c:733-746 | a packet of another transaction, client or hardware type, or without a message type, changes nothing |
| `ClientSchedule.UnexpectedIgnored` | gdhcp/client.c:1171-1230 | nor does a packet of a type that the phase does not wait for |
| `ClientSchedule.NakRestarts` | gdhcp/client.c:1214-1225 | three seconds after a NAK the client sends a DISCOVER for the address had last, within the old transaction unless the count of NAKs wraps around, or picks a link-local address when that count comes to ten |
| `ClientLiveness.StepOnward` | gdhcp/client.c:1238-1356 | every step without ACK or NAK leaves the client settled or on its way, and every timer lowers the bound by one |
| `ClientLiveness.SettlesInTime` | gdhcp/client.c:608-762 | under every interleaving of timers, OFFERs, foreign packets and ARP conflicts the client settles within its bound, with at most 10 DISCOVERs, 5 REQUESTs and as many addresses as its conflict count at the start allows |
| `ClientLiveness.StartSeeks` | gdhcp/client.c:1315-1356 | a start, of a new client or after any stop, has a bound of 15 timers and six for each address it may try, 75 for a new client |
| `ClientLiveness.StoppedStartable` | gdhcp/client.c:1358-1386 | a new client and any stopped one can be started afresh, the latter with the conflict count it had |
| `ClientLiveness.StartSettles` | gdhcp/client.c:1315-1356 | every run from any such start with more timers than that has reached IPV4LL_MONITOR or reported no lease; it tries at most as many addresses as the conflict count at the start allows, which is ten or fewer, and eleven for a count of 255 |
| `ConflictRuns.TriesAttained` | gdhcp/client.c:659-731 | and this bound is attained: whatever the conflict count at the start, there is a run in which the client tries exactly as many addresses as the bound says |
| `ConflictRuns.TenIff` | gdhcp/client.c:659-731 | no run from a start tries more than ten addresses if and only if the start does not find a conflict count of 255 |
| `ConflictRuns.TimersClaim` | gdhcp/client.c:1266-1313 | a client that is on its way and hears nothing comes to monitor an address, with a conflict count of zero |
| `ConflictRuns.RequestsCount` | gdhcp/client.c:659-705 | ARP requests for an address that is monitored only count up |
| `ConflictRuns.Leaves255` | gdhcp/client.c:659-731 | there is a run of a new client, from its start to a stop, that leaves a conflict count of 255 |
| `NetworkLocal.LocalKeeps` | gdhcp/client.c:1129-1386 | every step a client takes on its own keeps the invariant of the composed system |
| `NetworkSafety.HoldFits` | gdhcp/client.c:851-975 | a client that hears nothing gives an address up no later than the server's lease ends if and only if the server grants at least seven seconds |
| `NetworkSafety.OtherLease` | gdhcp/server.c:642-745 | a packet of one client gives no other client a lease |
| `NetworkSafety.OwnLease` | gdhcp/server.c:642-745 | only a DISCOVER can give its sender a lease of another address |
| `NetworkSafety.RequestAnswer` | gdhcp/server.c:592-630 | a REQUEST is acknowledged if and only if it asks for the leased address, and a NAK changes no lease |
| `NetworkSafety.NakSent` | gdhcp/server.c:617-630 | once the server has refused a transaction, neither a message under way nor a lease can bring that transaction an ACK |
| `NetworkSafety.NakArrives` | gdhcp/client.c:1214-1225 | a NAK of a refused transaction keeps the invariant however late and however often it arrives |
| `NetworkSafety.ServedKeeps` | gdhcp/server.c:642-745 | handling a message keeps the invariant, an ACK delivered or lost and a NAK left to arrive later |
| `NetworkSafety.NextKeeps` | gdhcp/server.c:642-745 | every event of the composed system, the late arrival of a NAK included, keeps the invariant |
| `NetworkSafety.OkExcludes` | gdhcp/client.c:851-975 | the invariant excludes two holders of one address |
| `NetworkSafety.RunKeepsOk` | gdhcp/server.c:642-745 | every reachable state meets the invariant, with NAKs that arrive late and any number of times |
| `NetworkSafety.MutualExclusion` | gdhcp/client.c:851-1236 | with one server granting at least seven seconds and any number of clients no reachable state has two clients holding the same address, whenever and however often the NAKs that were sent arrive |
| `NetworkBound.Acquire` | gdhcp/client.c:1129-1236 | whatever else there is, by DISCOVER, OFFER, REQUEST and ACK an idle client comes to hold the free or expired address it asks for |
| `NetworkBound.ClientCanHold` | gdhcp/client.c:1129-1236 | there is a run from the start after which a client holds the free address it asked for |
| `NetworkBound.Rebinds` | gdhcp/client.c:919-960 | five seconds after an ACK for a short lease the client goes into REBINDING without asking anybody, for two seconds more |
| `NetworkBound.ShortLeaseShared` | gdhcp/client.c:851-975 | with less than seven seconds there is a run after which two clients hold the same address |
| `NetworkBound.ExclusionIff` | gdhcp/client.c:851-1236 | no run, NAKs arriving late and any number of times, ever has two holders of one address if and only if the server grants at least seven seconds |
| `Checksum.OnesSumFolds` | gdhcp/common.c:259-287 | the one's complement sum is the integer sum modulo 2^16 - 1, and 0 only for 0 (section 1 of RFC 1071) |
| `Checksum.FoldStep` | gdhcp/common.c:283-284 | one pass of the fold makes the sum smaller and keeps it modulo 2^16 - 1 |
| `Checksum.DhcpChecksum` | gdhcp/common.c:259-287 | for every buffer of up to 65535 octets the 32-bit accumulator does not overflow, the fold ends, and the result is the complement of the one's complement sum |
| `DhcpOptions.ScanField` | gdhcp/common.c:71-129 | an option found in a field has the code and lies wholly inside the field |
| `DhcpOptions.LookupStep` | gdhcp/common.c:85-128 | the lookup moves by one octet, one option or one change of field, as the loop does |
| `DhcpOptions.HaltsIff` | gdhcp/common.c:71-129 | the lookup ends if and only if the packet does not send it in circles, and then within three changes of field |
| `DhcpOptions.SelfOverloadDiverges` | gdhcp/common.c:122-123 | every packet whose options start by overloading `file`, and whose `file` starts by overloading itself, makes the loop run for ever |
| `DhcpOptions.HaltedIsGetOption` | gdhcp/common.c:71-129 | a lookup that ends, after however many changes of field, has one answer, and three changes decide whether it ends |
| `DhcpOptions.ScanIsFirstMatch` | gdhcp/common.c:71-129 | the scan of a field answers the first option with the code, or all its overload bits |
| `DhcpOptions.NoOverloadHalts` | gdhcp/common.c:71-129 | without overload options in `file` and `sname` the lookup ends |
| `DhcpOptions.GetOptionIsFirstMatch` | gdhcp/common.c:71-129 | without overload options in `file` and `sname` the lookup is the first match over options, then `file`, then `sname` as overloaded (section 9.3 of RFC 2132) |
| `DhcpOptions.LookupInside` | gdhcp/common.c:71-129 | whatever the packet, an answer lies wholly inside its field and carries the code |
| `DhcpOptions.OverloadValues` | gdhcp/common.c:71-129 | an overload value of 1 extends the lookup to `file`, 2 to `sname` and 3 to both, `file` first |
| `OptionBuilder.EndOfLies` | gdhcp/common.c:131-143 | the search for END stops right behind the options that were added |
| `OptionBuilder.ScanOfLies` | gdhcp/common.c:71-129 | a scan of added options answers the data of the first one with the code, or none |
| `OptionBuilder.AddHolds` | gdhcp/common.c:149-165 | an addition leaves the accepted options followed by END, at index 306 or below |
| `OptionBuilder.AddAllHolds` | gdhcp/common.c:149-189 | so does every sequence of additions |
| `OptionBuilder.HoldsPrefix` | gdhcp/common.c:289-352 | the options are within the octets that get sent |
| `OptionBuilder.LookupHolds` | gdhcp/common.c:71-189 | looking a code up answers the first accepted option with its data, and none otherwise |
| `DhcpPacket.Packet.EndOption` | gdhcp/common.c:131-143 | the loop finds the index of END |
| `DhcpPacket.Packet.AddBinaryOption` | gdhcp/common.c:149-165 | in place, the field becomes the one with the option added, or stays as it is for want of room; the header is untouched |
| `DhcpPacket.Packet.AddSimpleOption` | gdhcp/common.c:167-189 | a number is added with the length the tables give its code, and a code without one is ignored |
| `DhcpPacket.OptionLengths` | gdhcp/common.c:40-70 | the length of a number by its code: four octets for addresses, times and identifiers, two for the maximal size, one for the message type and for names, and none for other codes |
| `DhcpPacket.LittleEndianValue` | gdhcp/common.c:167-189 | the octets stand for the number, lowest first |
| `DhcpPacket.FieldSizes` | gdhcp/common.h:67-84 | the option fields of a packet have 388, 128 and 64 octets |
| `DhcpPacket.Packet.FixedHeader` | gdhcp/common.c:191-210 | every header octet that is not set is zero |
| `DhcpPacket.Packet.InitHeader` | gdhcp/common.c:191-210 | the buffer becomes a packet whose only option is the message type |
| `DhcpPacket.Packet.GetOption` | gdhcp/common.c:71-129 | the moving cursor answers what the lookup answers |
| `Frame.ParseIpBytes` | gdhcp/common.c:289-352 | an IP header is read back as it was written |
| `Frame.ParseUdpBytes` | gdhcp/common.c:289-352 | a UDP header is read back as it was written |
| `Frame.SendRawPacket` | gdhcp/common.c:289-352 | filling in the headers field by field gives the frame with both checksums over the right octets |
| `Frame.RecvL2Packet` | gdhcp/client.c:540-606 | the checks in order, on a header reused for the pseudo header, accept the frames that `FrameOctets.AcceptedIff` describes |
| `Frame.FrameRoundTrip` | gdhcp/client.c:540-606 | a frame sent to port 68 is accepted and its packet comes out unchanged, whatever the receiver's buffer held |
| `Frame.OptionsRoundTrip` | gdhcp/common.c:71-352 | for every sequence of additions the receiver's lookup of every code answers the first option accepted, within the octets sent and never in the 80 unsent ones |
| `FrameOctets.AcceptedIff` | gdhcp/client.c:540-606 | for all octets: a frame is accepted if and only if version, header length, protocol, port and both lengths are right, the words of the IP header add up to all ones and its checksum field is not all ones, the same holds for the datagram with its pseudo header or it has no checksum, and the cookie follows; then the packet is what follows the headers |
| `FrameOctets.HeaderDamageRejected` | gdhcp/client.c:586-588 | a change of any one octet of the IP header of an accepted frame makes it rejected |
| `FrameOctets.DatagramDamageRejected` | gdhcp/client.c:590-597 | and so does one of any octet behind it, while the datagram has a checksum |
| `FrameOctets.AllOnesRejected` | gdhcp/client.c:594-597 | a datagram whose right checksum is sent as all ones, as RFC 768 has it for one that comes out as zero, is rejected |
| `FrameOctets.SentOctets` | gdhcp/common.c:289-352 | the frame that is sent, octet by octet: header, addresses, ports, lengths, all but 80 octets of the packet, and two checksums with which the words add up to all ones |
| `Buffers.Memchr` | gweb/gweb.c:602-607 | the first occurrence at or after a position |
| `Chunked.SplitIff` | gweb/gweb.c:589-682 | from every state, unless it is itself cut between the CR and the LF of a size line, buffer by buffer the decoder gives what the whole stream gives if no cut separates a size line's CR from its LF, and fails if one does |
| `Chunked.StrtoulHex` | gweb/gweb.c:466-488 | reading a size line gives the number that was written |
| `Chunked.HexPlain` | gweb/gweb.c:466-488 | sizes are written in lower-case digits without zeros in front |
| `Chunked.StrtoulText` | gweb/gweb.c:619-624 | a size with white space, sign, prefix, zeros in front and digits of either case is read as its number, saturating, or as the complement to 2^64 after a minus sign |
| `Chunked.WholeDecodes` | gweb/gweb.c:589-682 | every encoding decodes to its bodies |
| `Chunked.ChunkedRoundTrip` | gweb/gweb.c:466-682 | for every list of bodies and every split of their encoding exactly the bodies are passed on, with `total_len` their length, if no buffer ends inside a size line's CR LF, and decoding fails otherwise |
| `Chunked.StaleErrnoFails` | gweb/gweb.c:619-624 | with `errno` left at EINVAL no encoding can be decoded, however it is split into buffers |
| `Chunked.CutSizeLineFails` | gweb/gweb.c:602-611 | a concrete buffer boundary at which decoding fails |
| `ChunkedForm.AcceptedFormed` | gweb/gweb.c:589-682 | a stream that is not refused consists of complete chunks and a part of one |
| `ChunkedForm.FormedAccepted` | gweb/gweb.c:589-682 | and every such stream is taken, with exactly the bodies passed on |
| `ChunkedForm.AcceptedIff` | gweb/gweb.c:589-682 | a stream is accepted so far if and only if it is a sequence of chunks, each with a size line ending in CR LF that reads as the length of its body and with CR LF behind the body, up to a cut anywhere or to anything behind a size of zero; what is passed on is exactly the bodies |
| `WebSession.Session.constructor` | gweb/gweb.c:589-595 | a new session starts at the size of the first chunk |
| `WebSession.Session.SizeLine` | gweb/gweb.c:601-630 | consuming a part of a size line agrees with the octet automaton |
| `WebSession.Session.DataPart` | gweb/gweb.c:645-677 | consuming a part of a chunk agrees with the octet automaton |
| `WebSession.Session.DecodeChunked` | gweb/gweb.c:589-682 | the loop over a buffer leaves the state, the octets passed on and the result of the octet automaton |
| `WebSession.Session.StartBody` | gweb/gweb.c:550-557 | the first part is sent as a chunk if more follow, else as it is |
| `WebSession.Session.ProcessNextChunk` | gweb/gweb.c:466-488 | each further part is appended as a chunk, the last one followed by the closing chunk |
| `WebSession.Session.SendChunkedBody` | gweb/gweb.c:466-557 | a body sent part by part is the encoding of its parts |
| `TokenScanner.Parser.constructor` | gweb/gweb.c:1299-1329 | a new parser waits for the begin token |
| `TokenScanner.Parser.Seek` | gweb/gweb.c:1356-1429 | skipping by `memchr` does what the octets one by one would |
| `TokenScanner.Parser.Match` | gweb/gweb.c:1356-1429 | an octet in the middle of a token takes one step of the automaton |
| `TokenScanner.Parser.FeedData` | gweb/gweb.c:1356-1429 | feeding a buffer takes the automaton over its octets |
| `TokenScanner.SplitIndependent` | gweb/gweb.c:1356-1429 | however the stream is cut into buffers, state and pieces are the same |
| `TokenScanner.PiecesAreSlices` | gweb/gweb.c:1356-1429 | the pieces handed out are disjoint slices of the stream, in order, each from a begin token to an end token |
| `TokenScanner.TokenMissed` | gweb/gweb.c:1389-1398 | a token that comes while the match waits for another octet than the token's first is missed |
| `TokenScanner.TokenSeenIff` | gweb/gweb.c:1356-1429 | for all tokens: a begin token outside a piece, or an end token inside one, is seen while it comes if and only if what is missing of the match under way is the beginning of the token itself |
| `ObjectTree.RegisterCoherent` | gdbus/object.c:672-698 | registering keeps all caches right and counts exact, and is refused exactly for a name the path has |
| `ObjectTree.UnregisterCoherent` | gdbus/object.c:700-724 | unregistering any name keeps caches right and counts exact if and only if it is not Introspectable beside more than one user interface, and is refused exactly for a name the path lacks |
| `ObjectTree.IntrospectCoherent` | gdbus/object.c:193-216 | an Introspect call answers what is registered now, cached or not |
| `ObjectTree.AlwaysFresh` | gdbus/object.c:459-592 | after any calls whatsoever every cached document is empty or equal to regeneration |
| `ObjectTree.AlwaysCoherent` | gdbus/object.c:519-592 | in all states of a run caches are right, a path is registered if and only if it has a user interface, and its reference count is their number, if and only if no call unregisters Introspectable beside more than one user interface |
| `ObjectTree.ParentIsAbove` | gdbus/object.c:459-492 | cutting a path name at its last slash gives the name of the path above |
| `Introspection.IntrospectLists` | gdbus/object.c:153-216 | the answer lists the interfaces of the path in order, and an element below if and only if some registered path leads through it |
| `Introspection.RunShows` | gdbus/object.c:672-724 | after any fair calls on a new connection the registered paths are those with an interface of a user, each with Introspectable and those interfaces in the order of their registration |
| `Introspection.IntrospectAfter` | gdbus/object.c:153-216 | so an Introspect call after any fair calls answers if and only if the path has an interface of a user, and lists Introspectable, exactly the interfaces registered there and not unregistered since, in order, and exactly the elements that lead to such paths |
| `ObjectRegistry.GenericData.constructor` | gdbus/object.c:532-535 | a new record has one reference and an empty document |
| `ObjectRegistry.Connection.constructor` | gdbus/object.c:519-550 | a new connection has no paths |
| `ObjectRegistry.Connection.Update` | gdbus/object.c:499-592 | changing one record changes the tree at that path only |
| `ObjectRegistry.Connection.InvalidateParentData` | gdbus/object.c:459-492 | the recursion clears the cache of every path above, and of no other |
| `ObjectRegistry.Connection.ObjectPathRef` | gdbus/object.c:519-550 | a known path is counted up, a new one gets a record and clears the caches above |
| `ObjectRegistry.Connection.AddRecord` | gdbus/object.c:519-550 | the new record is registered with Introspectable as its only interface |
| `ObjectRegistry.Connection.ObjectPathUnref` | gdbus/object.c:571-592 | the last reference takes the path away and clears the caches above |
| `ObjectRegistry.Connection.RegisterInterface` | gdbus/object.c:672-698 | in place, the records come to hold the tree of the register transition |
| `ObjectRegistry.Connection.UnregisterInterface` | gdbus/object.c:700-724 | in place, the records come to hold the tree of the unregister transition |
| `ObjectRegistry.Connection.Introspect` | gdbus/object.c:153-216 | in place, a missing cache is filled, and the answer is that of the transition, of which `IntrospectAfter` says what it lists |
| `ObjectRegistry.Connection.ListsChildren` | gdbus/object.c:178-185 | the nodes listed are the next elements of the registered paths below |
| `WatchDispatch.RunsExpected` | gdbus/watch.c:393-418 | for one signal each watch present at the start runs exactly once and in order unless one that ran before removed it, and no other watch runs |
| `WatchDispatch.Survivors` | gdbus/watch.c:500-550 | after a signal that is dispatched the filter has, once each, the watches that were kept or added and not removed since |
| `WatchDispatch.PresentSurvive` | gdbus/watch.c:393-418 | a watch present at the start survives if and only if it ran, wanted to stay, and was removed by no callback |
| `WatchDispatch.AddedSurvive` | gdbus/watch.c:304-329 | a watch added meanwhile does not run for this signal, and survives unless a callback removes it; nothing else comes in |
| `WatchDispatch.OrderKept` | gdbus/watch.c:393-418 | the watches of the start that are left keep their order |
| `WatchRules.GetsWantedIff` | gdbus/watch.c:81-126 | for all lists of filters and all watches: a watch that is added gets exactly the signals it asks for if and only if the filter it is put into asks for the same and all filters before that one ask for something else |
| `WatchRules.LaterFilters` | gdbus/watch.c:196-247 | filters that are added later take no signal from those before them |
| `WatchRules.SharedIff` | gdbus/watch.c:81-126 | watches that differ in a field which both set never share a filter if and only if the rule of the filter sets that field |
| `WatchRules.MembersShared` | gdbus/watch.c:81-126 | after a watch for all signals of an interface two watches for different members of it share its filter, and each gets the signals of the other |
| `WatchTable.MatchIsFirst` | gdbus/watch.c:81-126 | the filter that a signal or a new watch goes to is the first of the list of rules that does not disagree |
| `WatchTable.ServiceKeeps` | gdbus/watch.c:451-497 | for a well-formed NameOwnerChanged signal the watches run as for any signal, and one that ran stays unless a callback removed it or the name is a unique one and the watch one-sided |
| `WatchDispatch.Dispatch` | gdbus/watch.c:393-418 | the loop ends with no callback left to run |
| `WatchTable.FilterData.constructor` | gdbus/watch.c:229-237 | a new filter is empty and not locked |
| `WatchTable.Watches.constructor` | gdbus/watch.c:249-267 | no filters at first |
| `WatchTable.Watches.FilterDataGet` | gdbus/watch.c:196-247 | the first filter of the list no set field of which differs from one that is set here, or a new one with the fields given at the end of the list if there is none |
| `WatchTable.Watches.AddCallback` | gdbus/watch.c:304-329 | a new watch gets an id never used before, and waits among those done while its filter is dispatched |
| `WatchTable.Watches.AddWatch` | gdbus/watch.c:688-713 | only the first filter whose rule does not disagree in any of six fields gains the watch, or a new one has it |
| `WatchTable.Watches.RemoveCallback` | gdbus/watch.c:349-391 | the watch leaves both lists of its filter, and a filter at rest without watches leaves the list |
| `WatchTable.Watches.RemoveWatch` | gdbus/watch.c:715-735 | the watch is nowhere afterwards, and no other watch is touched |
| `WatchTable.Watches.RunActs` | gdbus/watch.c:304-391 | what a callback does to the watches of its own filter is what the dispatch says |
| `WatchTable.Watches.SignalFilter` | gdbus/watch.c:393-418 | the loop over the lists of the locked filter does what the dispatch says |
| `WatchTable.Watches.ServiceFilter` | gdbus/watch.c:451-497 | so does the loop for name watches, where one-sided watches of unique names do not stay; a signal with malformed arguments is left before the loop, with no watch run or kept |
| `WatchTable.Watches.MessageFilter` | gdbus/watch.c:500-550 | the signal goes to the first filter none of whose six fields, where set, differs from that of the signal, and the filter is left with the watches that `Handled` leaves, or gone if there are none; if every filter has a field that differs, no watch runs and nothing changes |
| `WatchTable.Watches.Deliver` | gdbus/watch.c:527-547 | locking, dispatching and swapping the lists leaves the outcome of the dispatch, or of the early return on malformed arguments |
| `WatchTable.HandledIff` | gdbus/watch.c:451-550 | for every filter with watches: the watches present run and are kept as they ask, if and only if the handler does not reject the arguments of the signal; if it does, none runs and none is kept |
| `WatchTable.RejectedSignalDrops` | gdbus/watch.c:458-465 | a malformed NameOwnerChanged signal drops two watches of which the first should have run |
| `BitRows.GBitStorage` | gweb/gresolv.c:418-421 | the number of bits of a number |
| `BitRows.TopBitIsPrefix` | gweb/gresolv.c:401-427 | the number of bits of an exclusive or tells how many leading bits two words share |
| `BitRows.ShiftedXor` | gweb/gresolv.c:280-281 | a shifted exclusive or is zero if and only if the leading bits agree |
| `PolicyTable.MaskCompare` | gweb/gresolv.c:269-284 | true if and only if the first `mask` bits agree |
| `PolicyTable.FirstIsLongest` | gweb/gresolv.c:286-303 | the first match in a graded table is the one longest match |
| `PolicyTable.LabelsGraded` | gweb/gresolv.c:191-235 | the label table is graded: earlier rows are longer than later ones or exclude them |
| `PolicyTable.PrecedencesGraded` | gweb/gresolv.c:237-264 | so is the precedence table |
| `PolicyValues.PrecedenceIs` | gweb/gresolv.c:237-264 | the precedence of every address by its octets: 50 for the loopback address, 30 for 2002::/16, 20 for the other ::/96, 10 for mapped ones, else 40 |
| `PolicyValues.LabelIs` | gweb/gresolv.c:191-235 | the label of every address by its octets |
| `PolicyTable.Policy.constructor` | gweb/gresolv.c:266-267 | the buffer starts with the prefix of mapped addresses |
| `PolicyTable.Policy.MatchGaiTable` | gweb/gresolv.c:286-303 | the value of the row with the longest matching prefix, for IPv4 addresses that of the mapped one; the prefix in the buffer survives |
| `DestinationOrder.WordPrefix` | gweb/gresolv.c:401-427 | a word whose exclusive or is zero belongs to the common prefix, and any other decides its length |
| `DestinationOrder.LongerPrefix` | gweb/gresolv.c:398-427 | the loop over four words compares the lengths of the common prefixes of all 128 bits |
| `DestinationOrder.Rfc3484Compare` | gweb/gresolv.c:348-435 | negative if and only if the first destination has the smaller sort key and the two do not clash; never zero |
| `DestinationOrder.RulesInOrder` | gweb/gresolv.c:348-435 | without a clash the order is that of rules 1, 2, 5, 6, 8, 9 and 10 of section 6 of RFC 3484, one after the other |
| `DestinationOrder.RanksIff` | gweb/gresolv.c:348-435 | for any scopes, labels and precedences, also such as never occur, two destinations are ranked one way only if and only if they do not clash |
| `DestinationOrder.StrictTotalOrder` | gweb/gresolv.c:348-435 | among destinations that do not clash the comparison is irreflexive, transitive and total |
| `DestinationOrder.LegacyPrecedence` | gweb/gresolv.c:237-264 | precedence 10 belongs to IPv4 and mapped destinations and to no others |
| `DestinationOrder.Ipv4ScopeIsLink` | gweb/gresolv.c:305-326 | every IPv4 address gets the scope of a link-local one |
| `DestinationOrder.Ipv4ScopeRightIff` | gweb/gresolv.c:305-326 | the scope of an IPv4 address is the one that section 3.2 of RFC 3484 gives its network if and only if it is in 169.254.0.0/16 or 127.0.0.0/8 |
| `DestinationOrder.GlobalTakenForLink` | gweb/gresolv.c:305-326 | 8.8.8.8, of global scope, gets that of a link |
| `DestinationOrder.Scope6ByPrefix` | gweb/gresolv.c:328-345 | the scope of an IPv6 address is that of its prefix: the field of a multicast address, link for fe80::/10 and the loopback address, site for fec0::/10, else global |
| `DestinationOrder.FilledNeverClash` | gweb/gresolv.c:437-450 | two results as they are filled in never clash, mapped destinations included |
| `DestinationOrder.FilledOrder` | gweb/gresolv.c:437-454 | on results as they are sorted the comparison is the order of the sort keys, and a strict total order of results in different places |
| `DestinationOrder.FillResults` | gweb/gresolv.c:437-450 | the loop over the results fills in labels, precedence and scopes of each and leaves destinations, sources and places as they are |

## Left out

- LeaseServer.DhcpServer.FindFreeOrExpiredNip: asks for a table on which the loop of the source ends, and `ScanExact` says exactly which those are; `SendOffer` and `ListenerEvent` of the server ask for it only where they would come to the loop, and the transition function gives no answer where it does not end.
- LeaseServer.DhcpServer.ListenerEvent: packets come parsed; the options put into answers, their destination address and the saving of leases are not modelled, and `arp_check` is taken as the constant it returns.
- LeaseTable.AllocatorExact: is about a sorted table; when the table is sorted is what `InsertSortedIff` and `RunKeepsOrder` say.
- DhcpClient.GDhcpClient.ListenerEvent: packets come parsed, an OFFER is taken to carry a server identifier, which the source reads without asking, and errors of the channel or of reading from it are not modelled.
- DhcpClient.GDhcpClient.Start: sockets are taken to open; the fields of the client that the callbacks leave alone are grouped in records; on a restart the source copies the last address from a string that it has just freed (gdhcp/client.c:883 and 1344-1345), where the model keeps the value.
- DhcpClient.RandomLinkLocalIp: the generator is any sequence of numbers that has an acceptable one; without one the source does not return.
- ClientTimers.AlwaysSingleTimer: an application starts a client only while no timer is pending, and its callbacks do not call back into the client.
- LeaseTiming.LeaseLostInTime: runs have no further ACK, no NAK and no stop, and timers fire when due; what a NAK does is stated by `NakKeepsAddress`.
- ClientLiveness.SettlesInTime: runs have no ACK and no NAK and no second start or stop before the client settles.
- NetworkSafety.MutualExclusion: one server, without restart; an ACK arrives when it is sent or not at all; the release of an address carries no transaction identifier in the model.
- Checksum.DhcpChecksum: words are loaded as on a little-endian machine.
- DhcpPacket.Packet.GetOption: asks for a packet on which the loop ends, which `HaltsIff` characterises.
- Frame.RecvL2Packet: the result of a failed or empty read is not modelled; a total length below the two headers, for which the source computes a negative copy length, has an outcome of its own.
- WebSession.Session.DecodeChunked: the state of `errno` before the conversion is a parameter.
- WebSession.Session.SendChunkedBody: a chunked body has two parts or more, because a first part that is also the last is sent with its length.
- TokenScanner.Parser.FeedData: tokens have two octets or more; the source does not notice that a shorter one is complete.
- FrameOctets.AcceptedIff: of a total length below that of the two headers it says only what is so about the IP header.
- Introspection.IntrospectAfter: is about fair calls, which `AlwaysCoherent` characterises.
- ObjectRegistry.Connection.Introspect: a document is the data it is written from, not its text, and the listing of child nodes by libdbus is taken to be that of the registered paths.
- WatchRules.GetsWantedIff: is about signals with all five fields, and the owner of a filter for a name, which the source fills in later, stays as it was given.
- WatchTable.Watches.SignalFilter: a callback that asks to be removed has not removed itself; the source would use a freed record.
- WatchTable.Watches.MessageFilter: a filter is not dispatched while it is being dispatched; whether the arguments of a NameOwnerChanged signal are well formed, and the fields a message is looked up by, are inputs.
- WatchTable.Watches.FilterDataGet: the connection, which is one, and the match rules of the bus are not modelled.
- WatchTable.Watches.AddWatch: the watch on the owner of a name that the source adds for a signal sender with a name is not modelled, nor are pending service queries.
- WatchTable.Watches.RemoveCallback: that watch of the filter, which goes with it in the source, is not modelled.
- DestinationOrder.FillResults: what `find_srcaddr` finds is an input, and the call of `qsort` that follows is not modelled.
- DestinationOrder.Rfc3484Compare: the place of a result stands for its address in memory, the source of an IPv4 destination is not an IPv6 address, and the octets of an IPv4 socket address that an IPv6 one overlays are zero.
- The query and lookup life cycle of gresolv: it depends on sockets and on libresolv.
- Sockets, ioctls, packet filters, interface and hardware address lookup in gdhcp: kernel input and output.
- Formatting of option values and request option lists: strings for consumers.
- Transport, URL parsing, header lines, proxies and TLS in gweb: input and output and wrappers.
- Privileges, main loop glue and signal emission in gdbus: wrappers over libdbus.
- gsupplicant, plugins, scripts and src: message plumbing around interfaces of other programs.
- Exhaustion of memory: allocation succeeds.
