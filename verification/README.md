# Irongrid DNS: verified models of its stateful core

Dafny models of the parts of the Irongrid DNS server that keep state or do arithmetic on which
correctness hangs, with proofs of what they keep over whole runs:

- **DHCP** (`AddressMath`, `DhcpModel`, `DhcpServer`, `DhcpTables`, `DhcpSafety`, `DhcpSearch`,
  `DhcpFlood`, `DhcpOffers`, `DhcpRestart`, `DhcpLimits`, `DhcpDecline`, `DhcpService`): the lease
  allocator as a transition system over packets, the server object whose methods implement it,
  what its tables keep in every run, section 1.6 of RFC 2131 and exactly which configurations meet
  it, what clients are given and when, and the exactness of the free-address search.
- **Response cache** (`L1Cache`, `L1Store`, `L1Chance`, `L1Queue`, `Wire`, `RawServe`, `CacheTtl`,
  `TwoTier`, `TierAnswers`, `WriteBehind`): CLOCK eviction, refinement of an unbounded map, what a
  read buys, how long the insertion queue grows, serving packed bytes by patching them,
  conservation of TTLs through both tiers, what Lookup answers when, and the write-behind queue
  under every interleaving.
- **DNSSEC** (`CanonicalOrder`, `NsecDenial`, `TrustChain`, `TrustDerivation`, `TrustVerdict`):
  canonical name order, NSEC denial over the chain of any zone, the memoised chain-of-trust walk,
  and what each of its verdicts means.
- **Abuse defences** (`Streaks`, `Eviction`, `RateLimit`, `RateBound`, `NxGuard`, `RepeatGuard`):
  the token bucket with auto-block and both flood guards.
- **Handler arithmetic** (`Failover`, `LatencyHist`): failover time shares, and the latency
  histogram against exact order statistics.

`Common` holds optional values and octet strings read as integers. Code that changes state in
place is modelled by classes and methods tied to functions on values; the theorems are about
those functions. One packet, one cache call or one guard call is one atomic step with one clock
reading. Times are integers (nanoseconds) or, for the rate limiter and the guards, reals
(seconds).

`dafny verify dfyconfig.toml` checks the whole project.

## What the proofs found

Where a promise fails of the code, the project states when it holds, exactly, and shows a
failing case.

- `nextFree4` subtracts octets as bytes without borrow; it keeps offers inside the configured
  range if and only if every octet of the end is at least that of the start. Otherwise it offers
  addresses beyond the end (`DhcpFlood.Offers4InRangeIff`), as `nextFree6` does for bounds out of
  order or ending in all ones (`DhcpFlood.Offers6InRangeIff`). An IPv4 offer outside the pool is
  refused at the REQUEST (`DhcpOffers.OfferHonouredIff`).
- A static reservation that the pools may also grant, or that two DUIDs share, lets two clients
  hold one address; all other configurations are safe (`DhcpLimits.SafeIff`). A reservation
  outside the range, as safety demands, is never granted to an IPv4 client
  (`DhcpSafety.ReservationNeverGranted`).
- A DECLINE is believed whoever sends it: where leases outlast the half hour for which a declined
  address is withheld, a stranger can have a leased address released and be granted it
  (`DhcpDecline.StrictSafeIff`, `DhcpDecline.StrangerDeclineRegrants`).
- A client that moved to another address leaves its old by-address record behind. Its lease then
  no longer survives every packet of others (`DhcpOffers.LeaseSurvivesIff`,
  `DhcpLimits.MovedLeaseDropped`), and a restart forgets a grant that is not its client's current
  lease (`DhcpRestart.MovedGrantForgotten`).
- Clients are matched to reservations without regard to case, but `staticForLocked` compares DUIDs
  as they are written, so a restart forgets the static lease of a reservation written with
  capitals (`DhcpRestart.RestartIff`, `DhcpRestart.CapitalsForgotten`).
- The comment on `validMAC` asks for colons, but hyphens and dots pass. Such a reservation is taken
  back when leases are loaded and matches no client (`DhcpRestart.HyphensMatchNobodyIff`,
  `DhcpRestart.HyphensPass`).
- Inserting into a full L1 shard evicts the new key itself exactly when every other entry is
  marked (`L1Cache.PutIntoFullShard`).
- The comments on `set` and `compact` say that compaction keeps the insertion queue bounded. A key
  that is set again after it was deleted or dropped brings its old slots back to life, and one such
  key makes the queue of its shard grow without end. Twice the cap bounds it exactly as long as
  that happens at most cap times (`L1Queue.QueueBoundedIff`). With two slots a key can also be
  evicted right after it was read (`L1Chance.TwoSlotsLose`); with one it cannot
  (`L1Chance.ReadKeyStays`).
- In the second in which an entry was stored every TTL is served as 1
  (`CacheTtl.FirstSecondServesOne`), and an entry re-warmed from the shared tier can count as
  fresh past its TTL (`TwoTier.RewarmedFreshIff`).
- The comment on `enqueueL2` says that an entry must never be lost. A caller that passes the
  closed check before `Close` and sends after the writer has drained strands its entry
  (`WriteBehind.LateSendIsStranded`, `WriteBehind.NothingStrandedIff`).
- An NSEC record covers its own owner, and the interval before the first name below an empty
  non-terminal covers that non-terminal. An accepted NXDOMAIN is therefore true exactly when no
  presented record shows the name to exist (`NsecDenial.NxdomainSoundIff`,
  `NsecDenial.NonTerminalDenied`). The wildcard under the closest existing ancestor is checked
  only when that ancestor's own record is presented, which an empty non-terminal does not have
  (`NsecDenial.WildcardAbsentIff`, `NsecDenial.EncloserRecordNeeded`,
  `NsecDenial.NonTerminalHidesWildcard`).
- With the whole chain of a zone presented, NXDOMAIN is accepted for every name with an ancestor in
  the zone, whether or not it or a wildcard exists (`NsecDenial.WholeChainAcceptsIff`).
- `matchDS` commits to its first match, so a zone that signs with another key its DS records name
  is not judged secure (`TrustDerivation.SecureIffDerivable`, `TrustDerivation.RolloverRejected`).
- `zoneKeyTTL` takes a zero TTL for unset, so the order of the records decides
  (`TrustChain.SmallestKeptIff`, `TrustChain.ZeroOrderMatters`).
- `Validate` judges an answer secure although records of types without a signature were not
  verified (`TrustDerivation.AllProvenIffAllCovered`, `TrustDerivation.UncoveredAccepted`).
- `NoteNX` ends a running block when it comes more than a window after the trip, and when the
  window is longer than the block there is an unguarded gap (`NxGuard.StandsIff`,
  `NxGuard.GapUnguarded`); `NoteQuery` ends a forced block at once
  (`RepeatGuard.ForcedStandsIff`). Both blocks last when only allowed queries are noted.
- The comment on `latencyHist` gives bucket i as (2^(i-1), 2^i]; the code makes it
  [2^(i-1), 2^i). The model follows the code.
- Failover can starve upstreams only when there is less than a nanosecond for each
  (`Failover.NobodyStarvedIff`).

## Model

| member | source | states |
|---|---|---|
| `DhcpSafety.NoDoubleGrant` | internal/dhcp/pool.go:84-391 | In every run of v4 and v6 packets, rapid commit included, no two clients hold unexpired grants for one address (section 1.6 of RFC 2131), for every configuration that `DhcpLimits.SafeIff` shows to be safe; a DECLINE ends the grants on its address |
| `DhcpLimits.SafeIff` | internal/dhcp/pool.go:222-352 | No run grants an address twice exactly when no client's reserved address is one the pools may grant (a v4 reservation also by way of a v6 pool of mapped addresses) and no two DUIDs share a reservation |
| `DhcpLimits.Static4Breaks` | internal/dhcp/pool.go:231-238 | A v4 reservation inside the v4 pool: a run of three packets grants it to a passer-by and to its owner |
| `DhcpLimits.Static6InPoolBreaks` | internal/dhcp/pool.go:281-288 | A v6 reservation inside the v6 pool: one REQUEST of a passer-by and one rapid SOLICIT of its owner grant it twice |
| `DhcpLimits.Static6Breaks` | internal/dhcp/pool.go:281-288 | So does some run for any v6 reservation that the pool or its search can reach |
| `DhcpLimits.MappedStaticBreaks` | internal/dhcp/pool.go:338-374 | A v4 reservation whose mapped form the v6 search can reach: its owner displaces the holder and releases the address, which is then granted again |
| `DhcpLimits.MappedDuidBreaks` | internal/dhcp/handler_v6.go:81-115 | A v4 address reserved for a DUID inside the v6 pool: the static promise outlives the dynamic lease that replaces it |
| `DhcpLimits.SharedBreaks` | internal/dhcp/pool.go:281-288 | One v6 address reserved for two DUIDs is granted to both |
| `DhcpSafety.V4GrantsInPool` | internal/dhcp/handler_v4.go:98-145 | Whatever the configuration, v4 clients are granted pool addresses only |
| `DhcpSafety.ReservationNeverGranted` | internal/dhcp/handler_v4.go:123-126 | In a safe configuration a v4 client is never granted its own reservation, only offered it: for v4 reservations the safety theorem holds vacuously |
| `DhcpTables.LeasesDisjoint` | internal/dhcp/pool.go:324-391 | In every reachable state of every configuration no two lease-table entries share an address |
| `DhcpTables.RunOk` | internal/dhcp/handler_v4.go:13-30 | Every run of every configuration keeps: each lease has its own key and is the one the by-address table gives, leased and reserved addresses name one client, one unexpired offer per client, offers only of the right pool |
| `DhcpTables.HandleOk` | internal/dhcp/handler_v6.go:16-47 | Each packet, v4 or v6, keeps that |
| `DhcpTables.ReclaimOk` | internal/dhcp/pool.go:84-100 | The in-use test, which drops expired leases as it goes, keeps it, and an address it finds free is on record for nobody else |
| `DhcpTables.CommitOk` | internal/dhcp/pool.go:338-352 | A commit keeps it even where it displaces another client |
| `DhcpTables.AllocateOk` | internal/dhcp/pool.go:222-319 | An allocation keeps it, and what it returns is on record for nobody but its client |
| `DhcpSafety.RunKeeps` | internal/dhcp/pool.go:84-391 | In a safe configuration every run keeps every running grant recorded against its address at least as long as it runs |
| `DhcpSafety.HandleKeeps` | internal/dhcp/handler_v6.go:16-47 | Each packet, v4 or v6, keeps that with the grants it makes or ends |
| `DhcpSafety.ReclaimKeeps` | internal/dhcp/pool.go:84-100 | Dropping an expired lease loses no running grant |
| `DhcpSafety.RenewKeeps` | internal/dhcp/pool.go:324-335 | Renewal shortens no grant |
| `DhcpSafety.CommitKeeps` | internal/dhcp/pool.go:338-352 | Committing a lease on an address nobody else is on record for, or a v4 reservation, keeps every running grant recorded, the client's own earlier ones included |
| `DhcpSafety.ReleaseKeeps` | internal/dhcp/pool.go:357-374 | A release ends only the sender's grant on its address |
| `DhcpSafety.DeclineKeeps` | internal/dhcp/pool.go:377-391 | A DECLINE loses no grant on another address |
| `DhcpSafety.AllocateKeeps` | internal/dhcp/pool.go:222-319 | An allocation loses no running grant, and what it returns is the client's reservation or, for a DUID, a pool address |
| `DhcpOffers.OfferMade` | internal/dhcp/pool.go:243-268 | A first DISCOVER or SOLICIT leaves an offer standing for the whole hold |
| `DhcpOffers.RepeatedDiscover` | internal/dhcp/pool.go:289-319 | In every configuration a repeated DISCOVER or SOLICIT within the hold gets the same address, whatever other clients send meanwhile short of a DECLINE of it or a claim to its reservation |
| `DhcpOffers.OfferHonouredIff` | internal/dhcp/handler_v4.go:98-145 | After any such run the REQUEST for an offered address is granted exactly when the address lies inside the pool |
| `DhcpOffers.HandleKeepsWaiting` | internal/dhcp/handler_v4.go:78-145 | No packet of another client disturbs a standing offer, short of a DECLINE of its address or a claim to its reservation |
| `DhcpOffers.LeaseSurvivesIff` | internal/dhcp/pool.go:338-352 | A live lease survives every packet of other clients that does not decline its address, exactly when the client has no second by-address record and nobody else has the address reserved |
| `DhcpLimits.MovedLeaseDropped` | internal/dhcp/pool.go:338-391 | Two REQUESTs by one client leave such a second record, and a stranger's DECLINE of the old address drops the lease on the new one |
| `DhcpDecline.StrictSafeIff` | internal/dhcp/pool.go:377-391 | Counting a DECLINE as ending only its sender's grants, no run grants an address twice exactly when the configuration is safe otherwise and no dynamic grant outlasts the half hour for which a declined address is withheld |
| `DhcpDecline.FairRunSafe` | internal/dhcp/handler_v4.go:168-175 | However long the leases, none does in runs in which nobody declines what another client is still granted |
| `DhcpDecline.StrangerDeclineRegrants` | internal/dhcp/handler_v4.go:168-175 | A run in which a stranger declines a granted address and is granted it half an hour later, while its holder's grant runs |
| `DhcpDecline.StrangerDeclineRegrants6` | internal/dhcp/handler_v6.go:149-155 | The same for v6 |
| `DhcpService.RenewalsGranted` | internal/dhcp/handler_v4.go:98-145 | A client that renews before its lease runs out, by ciaddr or by a RENEW that names no address, keeps its address for good: every renewal of every run is granted, lease and grant running from then, whatever others send short of a DECLINE of the address or a claim to it as a reservation |
| `DhcpService.RenewalInRun` | internal/dhcp/handler_v4.go:98-145 | In every reachable state a renewal by the leaseholder is granted exactly when its address is usable; otherwise nothing happens |
| `DhcpService.RequestGrantedIff` | internal/dhcp/handler_v6.go:81-115 | A REQUEST that names an address is granted exactly when it is for this server, the address is in the range (for IPv4, a host address of the subnet), nobody else has an unexpired lease or hold on it, and, for IPv4 without a server identifier, nobody else is on record for it |
| `DhcpService.GrantsUsable` | internal/dhcp/pool.go:32-61 | In every run of every configuration IPv4 clients are granted host addresses inside the range only |
| `DhcpService.PromiseExactIff` | internal/dhcp/handler_v4.go:32-60 | An IPv4 client is told its lease time to the second exactly when it is below 2^32 seconds |
| `DhcpService.ReservedOffered` | internal/dhcp/pool.go:222-242 | A reserved client is offered its reservation in every state and holds it from then on |
| `DhcpService.ReturningOffered` | internal/dhcp/pool.go:243-250 | A client with a lease is offered its address, and a dynamic lease runs from now again in both tables |
| `DhcpService.WishHonouredIff` | internal/dhcp/pool.go:259-268 | A new client is offered the usable address it asks for exactly when nobody else has it; what it is offered is pinned for ninety seconds |
| `DhcpService.WishIgnored` | internal/dhcp/pool.go:308-315 | A wish for an unusable address, or of an IPv6 client for an IPv4 one, changes nothing |
| `DhcpService.ServedIff` | internal/dhcp/pool.go:289-319 | A new client is offered something exactly when some address of the range is had by nobody else |
| `DhcpService.RapidIff` | internal/dhcp/handler_v6.go:55-79 | A SOLICIT is granted an address exactly with rapid commit, and then the one it would have been offered |
| `DhcpService.ReleaseIff` | internal/dhcp/pool.go:357-374 | A RELEASE of the client's own lease takes it and nothing else off both tables; any other changes nothing |
| `DhcpService.UnnamedRelease` | internal/dhcp/handler_v4.go:158-166 | A RELEASE without an address does nothing for IPv4; for v6 it releases what its client has |
| `DhcpService.DeclineWithholds` | internal/dhcp/pool.go:377-391 | A declined address is off the tables and kept from everybody for exactly half an hour |
| `DhcpService.OtherServersIgnored` | internal/dhcp/handler_v4.go:78-102 | Packets for another server change nothing and grant nothing |
| `DhcpService.FirstReservationCounts` | internal/dhcp/pool.go:110-122 | Of several reservations that name a client the first counts |
| `DhcpSearch.SearchExact` | internal/dhcp/pool.go:126-206 | The wrap-around scan returns the first candidate not held by others and fails exactly when all are held, although it reclaims expired leases as it goes |
| `DhcpSearch.CandidatesDistinct` | internal/dhcp/pool.go:126-206 | One search never tests an address twice |
| `DhcpSearch.NextFreeExact` | internal/dhcp/pool.go:126-206 | With octet-wise ordered v4 bounds, or a v6 end below all ones: in range, free, and none exactly when every address of the range is held by others |
| `DhcpSearch.ScanLengthExactIff` | internal/dhcp/pool.go:126-136 | The scan length is at least end - start, and equal exactly when the octets are ordered |
| `DhcpFlood.Offers4InRangeIff` | internal/dhcp/pool.go:126-150 | Every offer of every run to a v4 client lies inside the range exactly when the octets of its bounds are ordered |
| `DhcpFlood.Offers6InRangeIff` | internal/dhcp/pool.go:173-216 | For v6, exactly when the bounds are in order and end in all ones only if they start at zero |
| `DhcpFlood.Overflow` | internal/dhcp/pool.go:126-216 | Otherwise, of one more new client than the range has addresses, asking at one instant, some client is offered an address outside |
| `DhcpFlood.FloodOffers` | internal/dhcp/pool.go:222-319 | New clients asking at one instant are offered as many distinct addresses, up to the whole span of the scan |
| `DhcpSearch.CursorsStayInRange` | internal/dhcp/pool.go:126-206 | After a successful search the cursors are inside the pool |
| `DhcpSearch.SearchMovesOn` | internal/dhcp/pool.go:126-206 | The next search begins one place behind the address found, so that one is tried last |
| `DhcpSearch.NextOnSpan` | internal/dhcp/pool.go:173-216 | Every step of nextFree6, the wrap included, is one place along its span |
| `DhcpRestart.RestartIff` | internal/dhcp/dhcp.go:366-427 | Loading a snapshot into empty tables leaves them consistent; all running grants survive exactly when each is its client's current lease and, if static, still reserved as staticForLocked reads it |
| `DhcpRestart.LoadedIff` | internal/dhcp/dhcp.go:400-427 | Exactly the leases that still run, and static ones whose reservation spells their client, are loaded, into both tables |
| `DhcpRestart.GrantSurvivesIff` | internal/dhcp/dhcp.go:400-441 | The same for one grant |
| `DhcpModel.PrintedInjective` | internal/dhcp/dhcp.go:147-148 | Different hardware addresses have different lease keys |
| `DhcpModel.HexInjective` | internal/dhcp/dhcp.go:562-567 | Different DUIDs too |
| `DhcpRestart.MatchedMacSpelledIff` | internal/dhcp/dhcp.go:431-450 | A reservation that matches a client's hardware address counts for it when leases are loaded exactly when the address has 6 or 8 octets |
| `DhcpRestart.HyphensMatchNobodyIff` | internal/config/config.go:1505-1509 | A reservation whose hardware address parses, as validation demands, counts when leases are loaded, but matches a client exactly when it is written with colons |
| `DhcpRestart.HyphensPass` | internal/config/config.go:1505-1509 | Every hardware address of 6 or 8 octets passes validation with hyphens or dots, is taken back when leases are loaded, and matches no client |
| `DhcpRestart.RestartKeepsIff` | internal/dhcp/dhcp.go:366-427 | The invariant of the safety theorem survives a restart exactly when all running grants do |
| `DhcpRestart.SafeAcrossRestart` | internal/dhcp/dhcp.go:366-427 | Then no run after the restart grants an address twice, counting grants made before it |
| `DhcpRestart.MatchedDuidSpelledIff` | internal/dhcp/dhcp.go:431-441 | One that matches a DUID counts exactly when it is written without capitals |
| `DhcpRestart.CapitalsForgotten` | internal/dhcp/dhcp.go:400-441 | A run whose grant of 2^32 - 1 seconds a restart forgets because of two capitals |
| `DhcpRestart.MovedGrantForgotten` | internal/dhcp/dhcp.go:366-427 | A run of two REQUESTs of which a restart forgets the first grant |
| `AddressMath.AddedIsSum` | internal/dhcp/pool.go:154-170 | Carrying through the octets is integer addition modulo the width of the address |
| `AddressMath.PoolAt` | internal/dhcp/pool.go:154-170 | The carry loop returns a fresh array that spells base + offset |
| `AddressMath.Incr` | internal/dhcp/pool.go:209-216 | In place, the next address; all ones wraps to zero |
| `AddressMath.BumpedIsNext` | internal/dhcp/pool.go:209-216 | Zeroing trailing 255s and raising the octet before them is adding one |
| `AddressMath.CompareBytes` | internal/dhcp/pool.go:63-77 | Comparing the 16-octet forms from the left is comparing the integers they spell; for addresses of one width, those the addresses spell themselves |
| `DhcpServer.Server.InUse` | internal/dhcp/pool.go:84-100 | Verdict and side effect of inUseLocked |
| `DhcpServer.Server.NextFree4` | internal/dhcp/pool.go:126-150 | The scanning loop refines the search function on which exactness is proved |
| `DhcpServer.Server.NextFree6` | internal/dhcp/pool.go:173-206 | The loop that walks until it meets its first candidate again refines the same search |
| `DhcpServer.Server.Alloc` | internal/dhcp/pool.go:222-319 | allocV4 and allocV6 refine the allocation function; the map loop over offers is order-independent where a client has one offer, as in every reachable state |
| `DhcpServer.Server.CommitLease` | internal/dhcp/pool.go:338-352 | The tables after commitLocked |
| `DhcpServer.Server.RenewLease` | internal/dhcp/pool.go:324-335 | The tables after renewLocked |
| `DhcpServer.Server.HandleV4` | internal/dhcp/handler_v4.go:13-175 | The v4 handlers refine the packet function that keeps the invariant |
| `DhcpServer.Server.HandleV6` | internal/dhcp/handler_v6.go:16-155 | The v6 handlers likewise, rapid commit included |
| `DhcpServer.Server.LoadLeases` | internal/dhcp/dhcp.go:400-427 | The load loop refines the restore on which the restart theorem is proved |
| `L1Cache.EvictKeeps` | internal/cache/l1.go:221-236 | Eviction terminates, leaves at most cap entries, removes entries only, and every live key keeps a queue slot |
| `L1Cache.EvictsFirstUnmarked` | internal/cache/l1.go:221-236 | One over the cap and without duplicate slots: exactly the first live key with a clear bit goes, those passed over lose their bit and are requeued in order |
| `L1Cache.PutIntoFullShard` | internal/cache/l1.go:173-192 | Inserting into a full shard evicts exactly one key, the new one exactly when all others are marked |
| `L1Cache.PutKeeps` | internal/cache/l1.go:173-204 | set keeps coverage and cap and every other record unchanged or evicted |
| `L1Cache.TouchKeeps` | internal/cache/l1.go:143-166 | get keeps coverage and cap and adds or changes no record |
| `L1Chance.ReadKeyStays` | internal/cache/l1.go:143-236 | However full its shard, a key with one queue slot that is read before every insertion of a new key there goes on answering what the unbounded map answers |
| `L1Chance.GetMarks` | internal/cache/l1.go:143-166 | In every run a get that hits marks its key and changes no other mark, record or slot |
| `L1Chance.GetDrops` | internal/cache/l1.go:163-165 | A get that misses removes an entry past its stale window and changes nothing else |
| `L1Chance.ReadDecides` | internal/cache/l1.go:221-236 | The key next to go from a full shard goes at the next insertion; read before, it stays |
| `L1Chance.SetUnmarks` | internal/cache/l1.go:173-204 | Setting a key, new or not, clears its mark; setting one again keeps its place in the queue |
| `L1Chance.FirstSetHeld` | internal/cache/l1.go:173-204 | The first set of a key leaves it in the shard with one slot, unless it is evicted at once |
| `L1Chance.TwoSlotsLose` | internal/cache/l1.go:221-236 | A run in which a key set twice with a delete between is evicted although it was just read |
| `L1Queue.QueueBound` | internal/cache/l1.go:173-249 | In every run a shard's queue has at most 2 * cap slots, or cap plus one for each time a dropped key was set again while it still had a slot |
| `L1Queue.QueueBoundedIff` | internal/cache/l1.go:173-249 | 2 * cap bounds the queue in all runs that set dropped keys again at most n times exactly when n is at most cap |
| `L1Store.RunOk` | internal/cache/l1.go:143-267 | Every run of set, get, del and flush keeps each shard within its cap, reachable by eviction, and holding latest records only |
| `L1Store.HitsAreLatest` | internal/cache/l1.go:143-267 | Whenever get hits, bytes, offsets, remaining time and fresh/stale verdict are those of the latest accepted set since the last del or flush; otherwise it misses |
| `L1Store.CapHolds` | internal/cache/l1.go:173-204 | After every run each shard holds at most cap entries |
| `L1Store.UncappedIsExact` | internal/cache/l1.go:143-204 | Without a cap nothing is lost: get answers exactly like the unbounded map |
| `L1Store.SetTakenIff` | internal/cache/l1.go:173-176 | A set without a lifetime or without octets changes nothing; any other is the latest record of its key, fresh for its lifetime and stale for the window after it |
| `L1Store.L1Shard.EvictToCap` | internal/cache/l1.go:221-236 | The loop on map, queue and bits refines the eviction function |
| `L1Store.L1Shard.CompactQueue` | internal/cache/l1.go:241-249 | compact keeps the live slots in order |
| `L1Store.L1.Set` | internal/cache/l1.go:173-204 | set on 256 shard objects refines the abstract step and touches one shard |
| `L1Store.L1.Get` | internal/cache/l1.go:143-166 | get refines the abstract step and answer |
| `L1Store.L1.Flush` | internal/cache/l1.go:260-267 | flush empties every shard |
| `Wire.SkipNameIff` | internal/cache/cache.go:559-580 | The name walk ends at n exactly when the octets up to n are a run of labels ended by a zero or a pointer |
| `Wire.ParsedAsPacked` | internal/cache/cache.go:936-954 | Parsing a packed message gives it back |
| `Wire.PackedAsParsed` | internal/cache/cache.go:936-954 | Packing a parsed message gives its octets back |
| `RawServe.SkipPackedName` | internal/cache/cache.go:559-580 | The loop finds the same end as that walk |
| `RawServe.TtlOffsets` | internal/cache/cache.go:518-557 | Offsets are returned exactly when header, questions and answers parse and there are answers, and then they are the places of the TTL fields |
| `RawServe.PlacesApart` | internal/cache/cache.go:518-557 | One offset per answer, in bounds, clear of the header, fields at least ten octets apart |
| `RawServe.WriteRaw` | internal/dnsserver/handler.go:1900-1926 | The buffer loop sets the ID and counts down the TTL at each offset, nothing else |
| `RawServe.PatchAnswers` | internal/dnsserver/handler.go:1908-1924 | Patching all fields turns packed answers into the packed rebased answers and leaves the rest of the message alone |
| `RawServe.ServedIsReply` | internal/dnsserver/handler.go:1900-1926 | The patched bytes are the packed form of the decoded and rebased reply |
| `RawServe.RawEqualsDecoded` | internal/dnsserver/handler.go:1900-1926 | Re-parsing the patched bytes of any parsable message gives it with only ID and answer TTLs changed, as decoding changes them |
| `CacheTtl.StampRoundTrip` | internal/cache/cache.go:830-839 | The eight-octet store time reads back as written, negative times included |
| `CacheTtl.PathsAgree` | internal/cache/cache.go:936-954 | For every parsable entry, patching bytes and unpackEntry serve the same message |
| `CacheTtl.MinTtl` | internal/cache/cache.go:964-969 | The loop finds the smallest answer TTL |
| `CacheTtl.RebasedExact` | internal/cache/cache.go:944-952 | A served TTL is 1 exactly up to the end of the first second, also when the clock went back, and from the last on; otherwise elapsed plus served is the original |
| `CacheTtl.FirstSecondServesOne` | internal/dnsserver/handler.go:1918-1922 | In the second of storing, any TTL is served as 1 |
| `CacheTtl.LifetimeBound` | internal/cache/cache.go:960-979 | The lifetime Set gives is at most every answer's TTL and the cap |
| `CacheTtl.LifetimeExact` | internal/cache/cache.go:960-979 | And no less: an entry lives exactly as long as all its answers and its cap do |
| `CacheTtl.SetToWire` | internal/cache/cache.go:960-1003 | After any L1 run in which the entry Set wrote is the latest, a hit puts the stored message with conserved TTLs on the wire, and a fresh hit is within every answer's lifetime and the cap |
| `TwoTier.DoLookup` | internal/cache/cache.go:745-823 | Lookup on the L1 object refines the result and the L1 operations on which provenance is proved |
| `TwoTier.LookupIsNextCall` | internal/cache/cache.go:745-823 | The L1 state Lookup leaves is that of the run with the Lookup added, so the theorems about runs are about the object |
| `TwoTier.HistoryGenuine` | internal/cache/cache.go:745-823 | In every run of Set, SetNegative and Lookup all writes to L1, re-warms included, carry what some call stored for that question |
| `TwoTier.LookupConserves` | internal/cache/cache.go:745-839 | With any shared tier that answers only what was written to it, a positive result, fresh, shared or stale, serves the message some earlier Set stored for the question with conserved TTLs |
| `TwoTier.NegativesGenuine` | internal/cache/cache.go:745-823 | A negative result, fresh, shared or stale, is what some earlier SetNegative stored for the question |
| `TwoTier.FreshWithinTtls` | internal/cache/cache.go:745-839 | When every lifetime given to a reply of the shared tier ends before the smallest stored TTL does, every fresh positive result of every run is a stored message whose answers all still live |
| `TwoTier.RewarmedFreshIff` | internal/cache/cache.go:802-813 | After the run of a Set and a Lookup that finds it expired in L1 but still in the shared tier, fresh results stay within the TTLs exactly when that lifetime ends in time |
| `TierAnswers.LookupAfterSet` | internal/cache/cache.go:745-823 | Without a cap on L1, whatever was cached before: after a Set, Lookup answers the message as fresh exactly while all its answers and its cap live, then a fresh negative answer on record, then what the shared tier has, then the message as stale to the exact end of the stale window, then a stale negative answer, then nothing |
| `TierAnswers.LookupAfterNegative` | internal/cache/cache.go:1010-1042 | Likewise after a SetNegative, which lasts for the lifetime given, or the configured one when none is; a positive answer on record comes first |
| `TierAnswers.Rewarmed` | internal/cache/cache.go:800-821 | A Lookup that finds nothing fresh in L1 leaves there what the shared tier has, for the configured lifetime; a negative answer displaces the positive one |
| `TierAnswers.SharedThenLookup` | internal/cache/cache.go:800-821 | And a later Lookup answers it from L1 exactly as long |
| `TierAnswers.SetSkippedIff` | internal/cache/cache.go:960-983 | A Set keeps nothing exactly when the message does not pack, has no answers, or some answer's TTL is zero |
| `WriteBehind.StepKeeps` | internal/cache/cache.go:235-348 | Every action of enqueuers, writer, ticker and Close keeps the invariant |
| `WriteBehind.EveryRunConserves` | internal/cache/cache.go:235-296 | In every interleaving committed batches, current batch and channel are the accepted writes in order; batches stay below 256 between steps |
| `WriteBehind.ExitCommits` | internal/cache/cache.go:258-296 | When the writer has returned, what was accepted before its final empty read has been flushed once and in order |
| `WriteBehind.EveryCallAccounted` | internal/cache/cache.go:235-256 | In every interleaving every write brought to enqueueL2 is, as often as it was brought, committed, in the batch, in the channel, written directly, or still about to be sent |
| `WriteBehind.TickCommits` | internal/cache/cache.go:258-280 | A tick commits everything taken from the channel; taking a write commits exactly a batch of 256 |
| `WriteBehind.NothingStrandedIff` | internal/cache/cache.go:235-256 | After that no write can be stranded exactly when no caller is between its closed check and its send |
| `WriteBehind.LateSendIsStranded` | internal/cache/cache.go:235-256 | There is a run in which an accepted write is never committed |
| `CanonicalOrder.StrictTotalOrder` | internal/dnssec/denial.go:205-215 | canonicalLess is irreflexive, transitive, asymmetric and total on names up to ASCII case |
| `CanonicalOrder.NeitherBeforeIff` | internal/dnssec/denial.go:205-215 | Two names are neither less than the other exactly when they are equal but for the case of ASCII letters |
| `CanonicalOrder.UnderscoreFirst` | internal/dnssec/denial.go:205-215 | Letters of either case are ordered as lower case |
| `CanonicalOrder.ParentFirst` | internal/dnssec/denial.go:205-215 | A parent sorts before every name below it |
| `CanonicalOrder.BelowContiguous` | internal/dnssec/denial.go:205-215 | The names below a name follow it without a gap |
| `CanonicalOrder.CanonicalLessIff` | internal/dnssec/denial.go:205-215 | Order is decided at the first difference from the right (section 6.1 of RFC 4034) |
| `CanonicalOrder.ComputeCanonicalLess` | internal/dnssec/denial.go:205-215 | The loop computes that order |
| `NsecDenial.CoversIsInterval` | internal/dnssec/denial.go:177-184 | nsecCovers is a half-open interval of the cycle of names: its start and not its end, complementary to the interval back, the whole cycle from a name to itself |
| `NsecDenial.CoversSplits` | internal/dnssec/denial.go:177-184 | At any name inside, it falls into two such intervals without overlap |
| `NsecDenial.ProveNsec` | internal/dnssec/denial.go:105-150 | The search loops compute the verdict about which the theorems below are |
| `NsecDenial.Covered` | internal/dnssec/denial.go:166-184 | In the chain of any zone every name is covered by some record |
| `NsecDenial.CoveredOnce` | internal/dnssec/denial.go:166-184 | And by only one |
| `NsecDenial.CoveredAbsentIff` | internal/dnssec/denial.go:152-196 | A name covered by a presented record is absent exactly when no presented record is owned by it |
| `NsecDenial.ExistsIff` | internal/dnssec/denial.go:177-196 | A name in the interval of a chain record exists, itself or through a name below it, exactly when the record is owned by it or points at or below it |
| `NsecDenial.CoveredExistsIff` | internal/dnssec/denial.go:166-196 | Of a name that a presented record covers, the presented records tell in that way whether it exists |
| `NsecDenial.NxdomainSoundIff` | internal/dnssec/denial.go:105-150 | An accepted NXDOMAIN is true, empty non-terminals counted as existing, exactly when no presented record that covers the name is owned by it or points at or below it |
| `NsecDenial.WildcardAbsentIff` | internal/dnssec/denial.go:105-150 | With the own record of the closest existing ancestor presented, an accepted NXDOMAIN rules out the wildcard under it exactly when no presented record shows that it exists |
| `NsecDenial.NodataIff` | internal/dnssec/denial.go:105-150 | NODATA is accepted exactly when the name is in the zone and its own record is presented and lists neither the type nor CNAME |
| `NsecDenial.NxdomainAcceptedIff` | internal/dnssec/denial.go:105-150 | NXDOMAIN is accepted exactly when a presented record is owned by the name, or one covers it and the nearest ancestor that owns a presented record has its wildcard covered; no other code but NODATA's is a denial |
| `NsecDenial.WholeChainAcceptsIff` | internal/dnssec/denial.go:105-150 | With the whole chain presented, NXDOMAIN is accepted exactly when the name or a proper, non-root ancestor owns a record |
| `NsecDenial.NonexistentAccepted` | internal/dnssec/denial.go:105-150 | So a true NXDOMAIN goes through where the closest existing ancestor owns a record |
| `NsecDenial.ThreeRecordsSuffice` | internal/dnssec/denial.go:105-150 | And already with that ancestor's record and covers of the name and of the wildcard (section 5.4 of RFC 4035) |
| `NsecDenial.EncloserRecordNeeded` | internal/dnssec/denial.go:105-150 | Without that record an accepted NXDOMAIN can hide an existing wildcard |
| `NsecDenial.NonTerminalHidesWildcard` | internal/dnssec/denial.go:105-150 | And with every record of the zone presented, when the closest existing ancestor is an empty non-terminal |
| `NsecDenial.NonTerminalDenied` | internal/dnssec/denial.go:105-150 | An empty non-terminal itself can be accepted as nonexistent |
| `TrustChain.Validator.ZoneKeys` | internal/dnssec/validate.go:152-259 | Whatever is cached, the memoised walk returns what the recursion without a cache finds, or the depth error, exactly when nothing on the way is remembered and it would have to go beyond 20 levels; what it finds is remembered for as long as the keys live |
| `TrustChain.Validator.Validate` | internal/dnssec/validate.go:88-136 | The signature loop gives the verdict of the uncached judgement, or unknown for a signer beyond 20 labels |
| `TrustChain.VerifySigned` | internal/dnssec/validate.go:311-324 | True exactly when the signature is valid now and some key of its tag and algorithm verifies it |
| `TrustChain.MatchFound` | internal/dnssec/validate.go:340-353 | matchDS finds a key exactly when some key matches some DS record, and the key found does |
| `TrustChain.DsMatchesOne` | internal/dnssec/validate.go:340-353 | A DS record made from a key matches it, and of one digest type only those that differ from it in nothing but the case of the digest do |
| `TrustChain.FindMatch` | internal/dnssec/validate.go:340-379 | The nested loops return that first match, for DS records and for anchors |
| `TrustChain.ZoneKeyTtl` | internal/dnssec/validate.go:397-417 | The smallest DNSKEY TTL after the last zero, between 300 and 86400 seconds |
| `TrustChain.SmallestKeptIff` | internal/dnssec/validate.go:397-417 | That is the smallest TTL of all exactly when none is zero, or the last one is, or one after the last zero is at most 300 seconds |
| `TrustChain.ZeroOrderMatters` | internal/dnssec/validate.go:397-417 | TTLs 0, 86400 give a day and 86400, 0 give 300 seconds |
| `TrustChain.SplitKeys` | internal/dnssec/validate.go:294-307 | The collecting loop splits an answer into keys, their RRset and the signatures over it |
| `TrustDerivation.SecureIsDerived` | internal/dnssec/validate.go:179-259 | A secure zone has a full derivation from an anchor: each DS set signed by a parent key, each key set signed by a key a DS record names |
| `TrustDerivation.SecureIffDerivable` | internal/dnssec/validate.go:179-259 | A zone is judged secure exactly when it has such a derivation through the first match of matchDS at every level |
| `TrustDerivation.RolloverRejected` | internal/dnssec/validate.go:340-353 | A zone in a key rollover has a full derivation and is not judged secure, because matchDS settles on the key that does not sign |
| `TrustDerivation.SecureEntryDerived` | internal/dnssec/validate.go:261-275 | Every secure cache entry has such a derivation |
| `TrustDerivation.SecureAnswerIff` | internal/dnssec/validate.go:88-136 | An answer is secure exactly when it has signatures and each that covers a present type verifies under keys of a secure zone |
| `TrustDerivation.GoodIsProven` | internal/dnssec/validate.go:88-136 | Such a signature verifies under a key with a derivation from an anchor |
| `TrustDerivation.AllProvenIffAllCovered` | internal/dnssec/validate.go:112-135 | In a secure answer every record is proven exactly when every record's type has a signature |
| `TrustDerivation.UncoveredAccepted` | internal/dnssec/validate.go:112-119 | A signature over an absent type alone makes any data secure |
| `TrustVerdict.WalkFailsIff` | internal/dnssec/validate.go:179-259 | The walk ends in an error exactly when it meets a failed query: for the keys of the zone or of an ancestor it climbs to, or for DS records below a parent with a derivation |
| `TrustVerdict.VerdictIff` | internal/dnssec/validate.go:88-136 | An answer is unsigned exactly without signatures; else the first signature that covers something and does not hold decides: not checked exactly when its walk meets a failed query, rejected exactly when the walk completes; secure when there is none |
| `TrustVerdict.ForgedRejected` | internal/dnssec/validate.go:120-131 | When that signature's zone has a derivation the answer is rejected |
| `TrustVerdict.RrsetIsWhole` | internal/dnssec/validate.go:92-100 | The RRset of a type is all the records of that type, each as often as it comes |
| `TrustVerdict.PartsAreWhole` | internal/dnssec/validate.go:294-307 | The keys, DS records and signatures picked out of an answer are exactly those it carries |
| `Streaks.TickBacked` | internal/dnsserver/ratelimit.go:209-218 | A counted burst is backed by that many events of the history within one window |
| `Streaks.FloodCounts` | internal/dnsserver/nxguard.go:129-139 | Of any 2n - 1 events in one window some event brings the count to n, however the counter stood |
| `Eviction.Evict` | internal/dnsserver/ratelimit.go:155-174 | Nothing goes while there is room; else idle entries go, active ones only as needed and oldest first, and the size ends below 4096 |
| `Eviction.SparedUnlessCrowded` | internal/dnsserver/ratelimit.go:155-174 | A recently seen entry is dropped only if 4095 others were seen since |
| `RateLimit.Shard.Allow` | internal/dnsserver/ratelimit.go:107-145 | Allow is one step of the model and keeps the map within its cap |
| `RateLimit.Shard.ForceBlock` | internal/dnsserver/ratelimit.go:183-203 | ForceBlock likewise |
| `RateLimit.Shard.Unblock` | internal/dnsserver/ratelimit.go:277-292 | Unblock likewise |
| `RateLimit.WithAutoBlock` | internal/dnsserver/ratelimit.go:85-95 | The threshold and cooldown are taken as given when positive; otherwise one violation and one minute |
| `RateBound.TokensInRange` | internal/dnsserver/ratelimit.go:107-145 | In every reachable state 0 <= tokens <= burst |
| `RateBound.AdmissionBound` | internal/dnsserver/ratelimit.go:107-145 | In every interval of every run a client is admitted at most burst + qps * T times plus a burst for each clean slate, Unblock and eviction of its bucket |
| `RateBound.BurstAdmitted` | internal/dnsserver/ratelimit.go:117-144 | Of queries at one instant a client that is new, unblocked or past its block is admitted exactly the first burst: the bound is reached |
| `RateBound.NothingLost` | internal/dnsserver/ratelimit.go:128-144 | And a refusal costs nothing: without auto-block a client that never lets its bucket fill up is admitted exactly burst + qps * T times less the tokens it has left, which are less than one when it was just refused |
| `RateBound.SustainedAdmitted` | internal/dnsserver/ratelimit.go:107-145 | A client whose queries are at least 1/qps apart is never refused |
| `RateBound.BlockEnds` | internal/dnsserver/ratelimit.go:124-144 | A client with a block is admitted exactly from the moment it has run out |
| `RateBound.BlockHolds` | internal/dnsserver/ratelimit.go:124-127 | While a block runs every Allow is refused |
| `RateBound.ForceHolds` | internal/dnsserver/ratelimit.go:183-203 | In every run a forced block refuses the client for its whole time, and its first query from the end on is admitted |
| `RateBound.UnblockAdmits` | internal/dnsserver/ratelimit.go:277-292 | In every run the client's next query after an Unblock is admitted |
| `RateBound.AutoBlockEarned` | internal/dnsserver/ratelimit.go:209-225 | An auto-block comes only when the last blockAfter refusals for want of tokens fit in one blockFor, and lasts blockFor |
| `RateBound.AutoBlockComes` | internal/dnsserver/ratelimit.go:209-225 | Of 2 * blockAfter - 1 such refusals inside one blockFor, of a client left alone and not blocked before, some refusal starts one |
| `NxGuard.Shard.Allow` | internal/dnsserver/nxguard.go:94-107 | Refused exactly while the prefix has a block that has not run out |
| `NxGuard.Shard.NoteNX` | internal/dnsserver/nxguard.go:116-148 | NoteNX is one step of the model and keeps the map within its cap |
| `NxGuard.BlockEarned` | internal/dnsserver/nxguard.go:116-148 | A prefix is blocked only when its last threshold NXDOMAINs fit in one window |
| `NxGuard.RefusalLasts` | internal/dnsserver/nxguard.go:94-148 | When NXDOMAINs are noted only for allowed queries the refusal lasts the whole blockFor |
| `NxGuard.StandsIff` | internal/dnsserver/nxguard.go:129-147 | A block survives later notes exactly when none comes more than a window after the trip |
| `NxGuard.GapUnguarded` | internal/dnsserver/nxguard.go:129-147 | Within the window the prefix is allowed exactly when blockFor has passed, whatever is noted |
| `NxGuard.FloodBlocked` | internal/dnsserver/nxguard.go:116-148 | Any 2 * threshold - 1 NXDOMAINs in one window block a prefix with no block on record, or whose last trip is more than a window ago |
| `RepeatGuard.Shard.NoteQuery` | internal/dnsserver/repeatguard.go:115-138 | NoteQuery is one step of the model and keeps the map within its cap |
| `RepeatGuard.Shard.ForceBlock` | internal/dnsserver/repeatguard.go:145-163 | ForceBlock likewise |
| `RepeatGuard.TripEarned` | internal/dnsserver/repeatguard.go:115-138 | A trip is reported only when the last threshold queries of the client named one domain within one window |
| `RepeatGuard.RefusalLasts` | internal/dnsserver/repeatguard.go:96-163 | When only allowed queries are noted a forced block lasts its whole time |
| `RepeatGuard.ForcedStandsIff` | internal/dnsserver/repeatguard.go:96-163 | In every run a client under a forced block is refused until it runs out exactly when none of its queries is noted meanwhile |
| `RepeatGuard.FloodTrips` | internal/dnsserver/repeatguard.go:115-138 | Of any 2 * threshold - 1 queries in a row for one domain in one window some query trips |
| `Failover.Sequential` | internal/dnsserver/handler.go:2188-2238 | The result is the first answer other than SERVFAIL, else the last SERVFAIL, else an error |
| `Failover.ChosenIsBest` | internal/dnsserver/handler.go:2218-2233 | SERVFAIL is handed on only when nobody asked had a better answer; any other answer is the first that is none |
| `Failover.SharesNeverShrink` | internal/dnsserver/handler.go:2204-2213 | If no attempt outlasts its limit, limits never decrease along the list, each is at least floor(deadline / n), and failover goes on to the end or a good answer |
| `Failover.EqualShares` | internal/dnsserver/handler.go:2204-2213 | And each is exactly the whole part of an equal share of what is left |
| `Failover.NoDeadline` | internal/dnsserver/handler.go:2196-2213 | Without a deadline no attempt is limited, and failover goes on to the end or a good answer |
| `Failover.NobodyStarvedIff` | internal/dnsserver/handler.go:2188-2213 | No list of n > 0 punctual upstreams is cut short exactly when there are n nanoseconds |
| `LatencyHist.Histogram.Record` | internal/dnsserver/handler.go:2484-2491 | The buckets always count the recorded latencies by binary length |
| `LatencyHist.Histogram.Pct` | internal/dnsserver/handler.go:2496-2533 | The estimate is that of the bucket holding rank floor(n * p / 100), or the last rank when p = 100; 0 when nothing is recorded |
| `LatencyHist.RankExact` | internal/dnsserver/handler.go:2496-2533 | The rank asked for is the whole part of the percentile's share of the samples, kept below their number |
| `LatencyHist.EstimateOfExact` | internal/dnsserver/handler.go:2496-2533 | It is the upper value of the bucket of the exact order statistic, for every sorted rearrangement |
| `LatencyHist.EstimateBrackets` | internal/dnsserver/handler.go:2496-2533 | The estimate v of x is 1 exactly when x = 0, x < v <= 2x below 1024 ms, and the overflow value exactly from 1024 ms on |

## Left out

- Process wiring, the HTTP API, configuration validation, certificates, installers, updaters and the web front end: no state to reason about, or thin repetitions of the patterns modelled here.
- DHCP: host names and their DNS registration, INFORM, CONFIRM and INFORMATION-REQUEST, building and sending replies, and failures while building one. The lock that is dropped between the in-use test and the commit is not: one packet is one atomic step, so races between two packets are not covered.
- DHCP leases are values in both tables; that both tables point at one object is modelled by updating both.
- DhcpServer.Server.Alloc: assumes at most one unexpired offer per client, which every reachable state has (`DhcpTables.RunOk`), because the source takes whichever offer the map yields first.
- TwoTier.RewarmedFreshIff: the failing run is for an L1 layer without a cap, where nothing is evicted in between.
- DhcpRestart.RestartIff: loads into empty tables only, not the merge made when the configuration is set again.
- DhcpLimits.SafeIff: lease times from one second up to 2^32 - 1 seconds, fewer than 2^64 - 1 reservations, and none of 0.0.0.0, which no packet can release. `DhcpDecline.StrictSafeIff` likewise.
- Clients are hardware addresses of at most 16 octets and DUIDs of at most 65535; the structure of a DUID is not modelled. A hardware address of no octets stands for none.
- L1: get is atomic, so the reference bit set after the read lock is released is not a separate step. AutoPerShard is not part of this model.
- Wire: compression pointers end a name and are not followed; RDATA, authority and additional sections are opaque octets.
- RawServe.TtlOffsets: messages of at most 2^32 octets, beyond which the source's 32-bit offsets would wrap.
- RawServe.WriteRaw: the positive raw path only; padding, cookies, truncation and the fallback to decoding are not modelled.
- TwoTier: the shared tier is an oracle that answers only what was written to its key; expiry there, timeouts, prefetching and flushing both tiers are not modelled. An L1 layer is always present. Questions are known by their hash.
- CacheTtl.SetToWire: elapsed seconds below 2^32, as the source takes them as 32 bits.
- NSEC3, and the signature check of each denial record (`validateDenial`), are not modelled; `TrustChain.Validator.Validate` covers answers, not empty responses.
- Cryptography, DS digests and upstream queries are a fixed oracle; coalescing of concurrent walks is not modelled.
- The rate limiter and the guards are modelled one shard at a time (a client always hashes to one shard), with real-valued tokens instead of floating point. Empty client keys are always allowed and not counted.
- Failover: racing upstreams, and cancellation of the query other than by its deadline.
- LatencyHist: concurrent recording between the counters' atomic adds; percentiles are real numbers, latencies are not negative.
- The rest of the serve pipeline: blocking, rewriting, cookies, query logging, DoH and DoQ framing.
