# warp-rust: a verified model of its protocols and resource arguments

warp-rust is a long-running SOCKS5 proxy over a userspace WireGuard tunnel. This project models the
parts of it that are hard to get right, in Dafny, and proves what they promise:

- `DnsWire.dfy`, `DnsQuery.dfy`, `DnsAnswers.dfy`: the hand-written RFC 1035 codec, against a grammar
  of names and messages;
- `DnsCache.dfy`: the bounded positive/negative cache, against the log of everything stored;
- `Singleflight.dfy`: leader/waiter deduplication of DNS queries, as an interleaved step system;
- `ResolvePath.dfy`: cache and singleflight joined along the path of a resolver call;
- `Candidates.dfy`, `StaggeredDial.dfy`: from resolved records to the dialled list, and the dial loop;
- `Limits.dfy`, `Listener.dfy`, `ListenerRuns.dfy`: the limit checks of the configuration, and the global port and memory
  bound they promise for every interleaving of client requests, which some run reaches;
- `Endpoints.dfy`, `Generations.dfy`: endpoint failover, tunnel replacement, leases and retirement;
- `Recovery.dfy`, `Supervisor.dfy`, `SupervisorLoop.dfy`: the recovery ladder, what one event does, and
  the event handlers that update the supervisor's fields, with the account manager behind them;
- `SupervisorRuns.dfy`, `SupervisorStall.dfy`, `SupervisorIdentity.dfy`, `SupervisorRate.dfy`: what holds
  over whole runs of events;
- `Health.dfy`: the three-signal health verdict and the egress counters;
- `UdpFraming.dfy`, `UdpAssociation.dfy`: SOCKS5 UDP framing (section 7 of RFC 1928) and the
  association's pinning, queueing and accounting;
- `Common.dfy`: outcomes, bytes, addresses, saturating arithmetic, first-occurrence deduplication.

Code that loops or updates fields is a method or a class proved against a specification function or a
stated property. Concurrent code is a step system: a state, the atomic steps, an invariant that every
step keeps, and theorems for every finite run. Network, clocks, disk and API are parameters or
arbitrary choices; `tokio` tasks, channels and semaphores are their documented steps. Time is an
integer. Where a specification function stands between the code and a theorem, some lemma states its result
by fields, bytes or numbers, without that function. `dafny verify dfyconfig.toml` checks everything.

Four things the code or its comments suggest are not true of the code as it stands; each has a
counterexample and the exact condition:

- The comment on `default_config_passes_its_own_memory_guard` (`src/config.rs:887`) asks that the
  default configuration pass validation at any memory size. It does so exactly above 560 MiB
  (`Limits.DefaultPassesGuardAbove560MiB`, `Limits.DefaultRejectedAt512MiB`).
- The comment in `action_rotate` (`src/supervisor.rs:330`) promises that the top recovery tier always
  really tries to rebuild the tunnel. With an identity pool whose files cannot be used it never does:
  `prepare_identity` returns its error without a fallback. `SupervisorStall.RecoveryRebuildsIff` says
  exactly when a failed probe leads to a new tunnel, `SupervisorStall.UnusableIdentitiesStallRecovery`
  that the stall lasts, and `SupervisorStall.StallIsReachable` that it is reached from the start.
- The backoff is not always at least `backoff_min`: durations are cut to whole milliseconds in 64 bits.
  It is so exactly for the minima and maxima of `Recovery.BackoffExpressible`
  (`Recovery.BackoffAtLeastMinIff`, `Recovery.SubMillisecondMinimumIsLost`).
- `account.json` and the credentials in memory can disagree, because `save` may fail after its rename;
  `SupervisorIdentity.DiskAgreesIff` says exactly when, over runs, and
  `SupervisorIdentity.SaveCanFailAfterRename` gives such a run for every validated ladder.

## Model

| member | source | states |
|---|---|---|
| Common.DistinctIsFirstOccurrences | src/dns.rs:584-594 | a "contains, else push" loop yields no duplicates, the same elements, in order of first occurrence |
| DnsWire.SkipName | src/dns.rs:618-643 | the offset loop terminates on arbitrary bytes without an out-of-range access, and a success lies strictly after the start and within the buffer |
| DnsWire.SkipsEncodedName | src/dns.rs:618-643 | any well-formed name, plain or ending in a compression pointer, is skipped exactly, wherever it stands |
| DnsWire.SkippedIsEncodedName | src/dns.rs:618-643 | conversely, whatever is skipped is the encoding of a well-formed name of exactly that length |
| DnsWire.NameIsUnique | src/dns.rs:618-643 | at most one well-formed name stands at an offset |
| DnsQuery.BuildDnsQuery | src/dns.rs:494-523 | a query is built iff the host, less one trailing dot, is ASCII of 1 to 253 characters with labels of 1 to 63; an empty or non-ASCII host is its own error; the result is header, labels, root, type, class IN |
| DnsQuery.AppendLabels | src/dns.rs:506-518 | the running per-label checks accept exactly the names whose labels fit and whose whole wire form fits in 255 bytes, and report a name as too long exactly if its labels up to some point fit one by one but not together |
| DnsQuery.JoinSplit | src/dns.rs:506 | splitting at dots loses nothing: joining the pieces gives the host back and no piece holds a dot |
| DnsQuery.SplitJoin | src/dns.rs:506 | conversely, splitting gives back any dot-free pieces that were joined |
| DnsQuery.StripDotSpec | src/dns.rs:495 | one trailing dot is dropped and nothing else |
| DnsQuery.QueryReadsBack | src/dns.rs:494-523 | any name read at offset 12 of a built query spells the host label by label, and name skipping from 12 lands on QTYPE |
| DnsQuery.QueryBytes | src/dns.rs:499-522 | byte by byte: the id big-endian, flags 01 00, one question, no other record; at the end the type and class 00 01 |
| DnsAnswers.ParseDnsAnswers | src/dns.rs:525-608 | the parser with its early returns computes `ParseReply`; if it returns addresses the bytes are the encoding of an error-free, untruncated response with this id, and the addresses are exactly those its records offer, octet for octet, each once, in the order of the records that offer them first |
| DnsAnswers.SkipQuestionSection | src/dns.rs:550-556 | the question loop moves the offset as `SkipQuestions` says, including its unchecked step over type and class |
| DnsAnswers.ReadOneAnswer | src/dns.rs:558-574 | the bounded reads of one answer compute `ReadAnswer`, and a success ends within the reply behind at least ten bytes and the data |
| DnsAnswers.AnswersAreRead | src/dns.rs:558-574 | reading one answer succeeds exactly where the encoding of a well-formed answer stands, gives that answer's type, class and data, and stops right behind it |
| DnsAnswers.CollectAnswers | src/dns.rs:557-607 | the answer loop returns every address offered by a record of class 1 whose type is the asked one, V4 of its 4 bytes for type 1 or V6 of its 16 bytes for type 28, once and at its first occurrence, and reports that there is none iff no record offers one |
| DnsAnswers.DistinctUsableAreFirstOffers | src/dns.rs:575-596 | filtering and deduplication without their recursions: increasing positions of the records that first offer each address, and every offered address among the results |
| DnsAnswers.ParseInvertsEncode | src/dns.rs:525-608 | for every well-formed message, any counts and any mix of plain and compressed names: an error-free response is read as exactly the addresses its records offer, or as having none iff none offers one; every other message is refused for its header |
| DnsAnswers.HeaderFaults | src/dns.rs:529-548 | each header refusal iff its bits say so and none before it applies: the id, QR (0x8000) clear, TC (0x0200) set, the low four bits nonzero, no answers; no other bit matters |
| DnsAnswers.MessageLayout | src/dns.rs:529-574 | where the bytes of header and answers stand, all 16-bit fields big-endian |
| DnsAnswers.AcceptedRepliesAreEncodings | src/dns.rs:525-608 | whenever addresses are returned, the reply was the encoding of a well-formed response to this query, with QR set, TC clear, response code 0 and answers, and the addresses are exactly those its records offer |
| DnsCache.Cache.constructor | src/dns.rs:95 | the cache starts empty and satisfies its invariant |
| DnsCache.Cache.LookupCache | src/dns.rs:191-201 | a lookup returns an entry iff it has not expired and then changes nothing, else removes that key alone; it keeps the invariant, and a hit is the latest store of its key |
| DnsCache.Cache.StoreCache | src/dns.rs:204-228 | a store expires after the TTL of its sign; at most one other entry goes, and only when a new key meets a full cache; the invariant is kept |
| DnsCache.OpKeepsInv | src/dns.rs:191-228 | every operation keeps: each entry is the latest store of its key with its own expiry, the size bound, and completeness while nothing was evicted |
| DnsCache.HitIsLatestStore | src/dns.rs:191-228 | in every run a hit is the value of the last store under that key among the run's operations, less than cache_ttl (a negative one, negative_ttl) ago, whatever was evicted; if no more keys were stored than fit, it hits exactly whenever there is such a store |
| DnsCache.FewKeysNeverEvict | src/dns.rs:213-220 | as long as no more keys are stored than fit, nothing is evicted |
| DnsCache.SizeIsBounded | src/dns.rs:213-220 | in every run the cache holds at most max(1, max_cache_entries) entries, hence at most the limit when that is at least 1 |
| Singleflight.StepKeepsInv | src/dns.rs:246-334 | each step of any task keeps the protocol invariant, under every interleaving and cancellation |
| Singleflight.StepKeepsOtherLeader | src/dns.rs:307-315 | no step of another task, in particular no other slot guard, disturbs a leader's slot or channel |
| Singleflight.SlotOwnership | src/dns.rs:256-265 | a slot exists iff its key has a live leader, which is unique and owns the slot's channel; a guard removes only its own slot |
| Singleflight.NoLostWakeUp | src/dns.rs:268-297 | a waiter's channel always holds a value, has a live sender, or is closed so that it can fall back |
| Singleflight.SharedAnswersAgree | src/dns.rs:285-296 | in every run a waiter served from a channel has a leader of the same key whose query returned: `Ok(rs)` is returned as `Ok(rs)` and was cached as `rs`; an error becomes `NoIpv4(host)` for type 1 and the no-AAAA error otherwise, and a negative entry was cached |
| Singleflight.AnswersComeFromQueries | src/dns.rs:246-334 | in every run a leader ends with exactly what its own query returned, a waiter that fell back likewise, and nothing is cached that no leader of that key was given |
| Singleflight.FinishedCallsHaveAnswers | src/dns.rs:267-333 | a call that the run does not cancel never ends without an answer |
| Singleflight.StoredBeforePublished | src/dns.rs:317-327 | at the moment of publication the records, or the negative entry for an error, have already been stored, and that is what is published |
| Singleflight.OneQueryPerKey | src/dns.rs:246-334 | unless the run cancels a leader, at most one backend query per key is outstanding; even then, at most one leader's |
| Singleflight.CancelledLeaderLetsTwoQueriesRun | src/dns.rs:294-315 | the condition is needed: for every key a run with a cancelled leader has the waiter's query and the next leader's outstanding together |
| Singleflight.RunsAreBounded | src/dns.rs:246-334 | once callers stop arriving only a bounded number of steps remains |
| Singleflight.Progress | src/dns.rs:239-241 | while any call is unfinished some step other than an arrival or a cancellation is enabled, so nobody waits for ever |
| ResolvePath.StepKeepsInv | src/dns.rs:152-180 | every step of lookup, entry and protocol keeps cache and singleflight consistent: one store log, and a missed key is cached again only if it was stored since |
| ResolvePath.CachedKeyIsQueriedAgainIff | src/dns.rs:152-180 | a call between its missed lookup and the in-flight table is about to query a key that is cached by now only if it was stored in between and its leader has given up the slot; without eviction, exactly if the latest store is fresh |
| ResolvePath.RaceQueriesAgain | src/dns.rs:152-180 | that window is real: for every key there is a run in which a cached key is queried again |
| Candidates.Weave | src/dns.rs:472-484 | the interleaving loop places the k-th IPv6 at k+min(k,n4) and the k-th IPv4 at k+min(k+1,n6), losing and adding nothing |
| Candidates.OfFamilySpec | src/dns.rs:464-471 | the family filter picks exactly the addresses of that family, in their order |
| Candidates.MergeDual | src/dns.rs:455-490 | merging filters each side to its family, interleaves, and fails iff nothing is left |
| Candidates.MergedOrder | src/dns.rs:455-490 | the merged list by positions in the two record sets: the k-th IPv6 record at k+min(k,n4), the k-th IPv4 record at k+min(k+1,n6), every entry with the asked port |
| Candidates.InterleavingIsUnique | src/dns.rs:472-484 | those positions determine the merged list |
| Candidates.SelectCandidates | src/proxy/tcp.rs:551-571 | filtering, in-place deduplication and truncation, with the two refusals |
| Candidates.DialledList | src/proxy/tcp.rs:551-571 | the dialled list is the first max_dial_candidates distinct usable candidates, each where it first occurs, IPv4-only without an IPv6 route; a usable candidate is missing only behind a full list |
| Candidates.DialledCount | src/proxy/tcp.rs:551-571 | before truncation its length is the number of distinct usable addresses |
| StaggeredDial.Run | src/proxy/tcp.rs:586-677 | for every schedule, round by round: the first candidate is started alone, a timer that fires with room always starts the next candidate in order, any other round takes back a failed attempt and starts the next at once if it was the last; at most max(1, max_parallel) in flight, all reaped before returning; a win names an attempt in flight that connected; "all failed" means all were started and failed, with the last cause; a timeout reports how many were started; the loop terminates |
| StaggeredDial.TakeRound | src/proxy/tcp.rs:618-660 | one round wins with an attempt in flight that connected, or is a launch or a failure as above and decreases the measure |
| StaggeredDial.JoinFailureOk | src/proxy/tcp.rs:624-650 | taking out a failed attempt, and popping the queue if it was the last, keeps "started then pending is the list, nothing in flight only when nothing pending" and strictly decreases 2*pending+in flight |
| StaggeredDial.LaunchOk | src/proxy/tcp.rs:652-659 | so does popping and spawning on the timer |
| StaggeredDial.Shutdown | src/proxy/tcp.rs:627 | aborting and joining one by one reaps exactly the attempts in flight |
| Limits.ValidatedIsExact | src/config.rs:575-683 | on a validated configuration nothing saturates: the capacity estimate is the true product, the port sum is at most 32768, and a known memory exceeds the estimate by a quarter |
| Limits.ValidateAcceptsIff | src/config.rs:575-683 | a configuration is accepted iff every field is in its range, max_concurrent + max_pending*(max_parallel-1) is at most 32768, and the buffers at full load, in unbounded arithmetic, are below four fifths of a known memory |
| Limits.ReportsFirstFault | src/config.rs:575-683 | an error is reported iff its fault is present and no earlier one is |
| Limits.DefaultPassesGuardAbove560MiB | src/config.rs:164-172 | the adaptive default is in 1024..=16384 for every memory and validates iff memory exceeds 560 MiB, failing only the memory guard otherwise |
| Limits.DefaultMaxConcurrentExact | src/config.rs:164-173 | the adaptive default exactly: half the memory in units of 320 KiB, 1024 iff below 1025 units, 16384 iff from 16384 units on; 2048 for an unknown memory |
| Limits.DefaultMaxConcurrentTable | src/config.rs:150-156 | the documented table of defaults from 1 GiB to 16 GiB and more |
| Limits.DefaultRejectedAt512MiB | src/config.rs:887-914 | the default is refused on a 512 MiB machine |
| Listener.StepKeepsInv | src/proxy/tcp.rs:203-239 | every step of every connection keeps both semaphores' accounts and each dial within its window |
| Listener.GlobalResourceBound | src/config.rs:628-664 | with any validated configuration, in every reachable state, TCP sockets are at most max_concurrent + max_pending*(max_parallel-1) <= 32768 and buffers at most the capacity formula, below 80% of a known memory |
| Listener.SocketsWithinWidth | src/proxy/tcp.rs:551-677 | sharper: a dial has no more attempts in flight than candidates, so max_parallel may be replaced by min(max_parallel, max_dial_candidates) |
| ListenerRuns.PeakIsReached | src/proxy/tcp.rs:203-239 | and that is exact: for every validated configuration a run ends with exactly that many sockets and the buffers that go with them |
| Listener.SocketsOpenAndClose | src/proxy/tcp.rs:586-677 | in every reachable state each step opens and closes exactly these sockets; winning or timing out closes none until the losers are reaped |
| Listener.PermitsComeBack | src/proxy/tcp.rs:228-230 | permits are conserved, and both semaphores are full again when no connection is left |
| ListenerRuns.EverythingCanEnd | src/proxy/tcp.rs:228-230 | from every reachable state some run ends all connections and gives every permit back |
| Endpoints.EndpointPortsSpec | src/tunnel.rs:251-260 | the original port first, then the fallback ports other than it, without duplicates |
| Endpoints.EndpointPortsTable | src/tunnel.rs:251-260 | all of the port lists there can be, in order |
| Endpoints.EndpointAttempts | src/tunnel.rs:264-290 | the nested push loops compute `Attempts` |
| Endpoints.AttemptsSpec | src/tunnel.rs:262-290 | the attempts are duplicate-free, begin with the deduplicated bases, active endpoint first, and are exactly each base address on its own port and 2408, 500, 1701, 4500 |
| Endpoints.FallbackOrder | src/tunnel.rs:281-288 | behind the bases the attempts come base by base, and for one base in the order of its ports |
| Endpoints.SearchAttempts | src/tunnel.rs:460-503 | two probes are in flight whenever there are two attempts, and never more; fails only after every attempt was tried and failed exactly once |
| Endpoints.ConnectCandidate | src/tunnel.rs:440-514 | fails iff every attempt fails; a success changes nothing but the peer endpoint, to an attempt that succeeded |
| Generations.DelayBounds | src/tunnel.rs:151-165 | the drain window lies between min(30 s, grace) and grace, is shortened exactly for old generations with a long grace, and bounds the age at the deadline |
| Generations.DelayExact | src/tunnel.rs:151-165 | the drain window exactly: the grace, unless that exceeds 30 s and would pass max_age; then what is left until max_age, at least 30 s |
| Generations.StepKeepsInv | src/tunnel.rs:186-223 | every interleaved step of replacement, scheduling, timers that can upgrade exactly while somebody holds the generation, forced retirement, clearing, dialling and closing keeps the invariant; a replacement puts the new generation in the slot, clearing empties it, no other step touches it |
| Generations.GenerationLifecycle | src/tunnel.rs:517-530 | in every run there is one generation more than replacements, and the slot holds the newest unless the last swap cleared it; the current generation is never retired, each is swapped out at most once and force-retired at most once, its deadline and age obey the bounds, and it is not retired before |
| Generations.ReplacementPutsIn | src/tunnel.rs:517-530 | from every reachable state a replacement puts in one new generation, created now and untouched, and owes exactly one new duty: to schedule the old one for the given reason |
| Generations.ClearingForcesRetirement | src/tunnel.rs:615-620 | from every reachable state clearing empties the slot and owes the forced retirement of what was in it |
| Generations.SchedulingSetsDeadline | src/tunnel.rs:186-194 | from every reachable state scheduling sets the deadline to the window for the generation's age and the reason, and a window of zero retires at once |
| Generations.TimersForceRetirement | src/tunnel.rs:194-223 | a timer forces retirement iff the generation is still held and else is done; a forced retirement always finds it unretired, cancels and counts it |
| Generations.HeldGenerationsAreRetired | src/tunnel.rs:194-208 | a generation that left the slot and is still held by a dial or connection is retired, unless its retirement is still owed |
| Generations.ReleasedStaysUnheld | src/tunnel.rs:198-199 | a generation whose timer could not upgrade its weak reference is held by nobody then and ever after |
| Generations.DefaultWindows | src/tunnel.rs:94-112 | with the shipped policy a failed tunnel drains 15 s at any age, a refreshed one 300 s, cut to no less than 30 s near 26 h |
| Generations.DutiesNeverStick | src/tunnel.rs:186-223 | an owed retirement can always be carried out, a timer from its deadline on |
| Generations.LeasesPredateRetirement | src/tunnel.rs:551-585 | in every run a lease on a retired generation was granted before that retirement, and a dial whose generation is still current passes both tests |
| Generations.DialsFollowTheSlot | src/tunnel.rs:551-585 | a dial takes the generation in the slot or is not ready; it is turned away at either test iff that generation has been retired, and else goes on with it |
| Recovery.HighestReachedTier | src/supervisor.rs:214-228 | on every ladder the chosen action is the highest tier whose threshold is reached |
| Recovery.ActionIntervals | src/supervisor.rs:214-228 | on a validated ladder each action is chosen exactly from its own threshold up to the next |
| Recovery.LadderAcceptedIff | src/config.rs:562-574 | the checks accept exactly the ladders on which every tier begins at its own threshold and nothing is done without a failure |
| Recovery.TierMonotone | src/supervisor.rs:214-228 | more failures never choose a lower tier |
| Recovery.BackoffMonotone | src/supervisor.rs:251-258 | more failures never wait less, in saturating 64-bit arithmetic |
| Recovery.BackoffDoubles | src/supervisor.rs:252-257 | the documented law as a recurrence: the minimum first, doubled up to the cap for sixteen steps, constant after |
| Recovery.BackoffInMilliseconds | src/supervisor.rs:251-258 | the backoff from the durations themselves: the 64-bit milliseconds of the minimum or the maximum first, then doubled up to the maximum sixteen times |
| Recovery.BackoffNeverExceedsMax | src/supervisor.rs:251-258 | the backoff never exceeds backoff_max |
| Recovery.BackoffAtLeastMinIff | src/supervisor.rs:251-258 | it is always at least backoff_min iff that is whole milliseconds not above the truncated maximum |
| Recovery.SubMillisecondMinimumIsLost | src/supervisor.rs:254 | a validated half-millisecond minimum gives no wait at all |
| SupervisorLoop.EventLoop.constructor | src/supervisor.rs:64-87 | the supervisor starts unhealthy with no failures, one identity in memory, tunnel and file, and no registration attempt |
| SupervisorLoop.EventLoop.HandleEvent | src/supervisor.rs:164-205 | a probe not later than the last recovery changes nothing, any other sets the flag and clears or raises the count capped at 255; after every event one identity and the registration rate hold again |
| SupervisorLoop.EventLoop.EscalateTo | src/supervisor.rs:230-249 | only a recovery that installed a new generation is time-stamped; count and flag are left alone; identity and rate are kept |
| SupervisorLoop.EventLoop.PerformAction | src/supervisor.rs:233-241 | whichever action: a failure keeps the identity, a success installs exactly one new generation |
| SupervisorLoop.EventLoop.RebuildTunnel | src/supervisor.rs:262-268 | a failed handshake changes nothing; a success installs one generation and keeps one identity, stored exactly as it handshook, through the endpoint that answered |
| SupervisorLoop.EventLoop.ActionRebuildConfig | src/supervisor.rs:272-279 | a failed refresh or handshake changes nothing; a success keeps the credentials and one identity |
| SupervisorLoop.EventLoop.ActionReregister | src/supervisor.rs:281-307 | whatever API, handshake and save do, one identity and the registration rate are kept; a failure keeps the old identity and tunnel |
| SupervisorLoop.EventLoop.ActionRotate | src/supervisor.rs:309-344 | the same for rotation, with an empty, unusable or usable pool |
| SupervisorLoop.EventLoop.CommitCandidate | src/supervisor.rs:286-297 | a failure keeps the old identity in memory and tunnel; a success leaves memory, tunnel and file on the candidate |
| SupervisorLoop.EventLoop.PrepareReregister | src/warp/account.rs:113-150 | the API is called iff the account file is readable and is absent, dated in the future or a cooldown old, and the last attempt, if any, is a cooldown ago, else nothing changes; attempts stay a cooldown apart, every call is recorded, a candidate only comes out of a recorded attempt, and the identity in use is untouched |
| SupervisorRuns.HistoryDeterminesHealth | src/supervisor.rs:164-212 | after any events the failure count is min(255, fresh failures since the last fresh success) and `healthy` holds iff the last fresh probe succeeded |
| SupervisorRuns.LastRecoveryIsLatest | src/supervisor.rs:242-247 | in every run the remembered time is the completion of the latest successful recovery, and none completed later |
| SupervisorRuns.ProbesCountIffLater | src/supervisor.rs:207-212 | in every run a probe observed at or before the completion of any earlier successful recovery leaves the whole state unchanged; every other probe counts |
| SupervisorRuns.StreakEscalates | src/supervisor.rs:186-195 | within a failure streak the tier and the backoff never decrease |
| SupervisorIdentity.IdentityStaysCoherent | src/supervisor.rs:281-344 | at every event boundary of every run credentials, stored configuration and live tunnel belong to one identity, and the stored configuration is the one the tunnel handshook with |
| Supervisor.FailureChangesNothing | src/supervisor.rs:262-344 | a failed action leaves credentials, configuration and tunnel unchanged; a success installs the configuration it dialled through the endpoint that answered |
| Supervisor.WhatEachActionInstalls | src/supervisor.rs:262-344 | field by field what reconnect, rebuild and rotation put in place and when they succeed, and that nothing else changes |
| Supervisor.RegistersIff | src/warp/account.rs:113-150 | a registration is called for and recorded exactly by the two actions that may, exactly when file and last attempt allow it |
| Supervisor.RegistrationIsAdoptedOrReplaced | src/supervisor.rs:281-307 | with a registered candidate the action ends as a rotation to it would, otherwise as a rebuild would, but for the attempt on record |
| Supervisor.EventRegistersIff | src/supervisor.rs:164-205 | the whole guard from the event on: probe, count, tier, pool, file and last attempt |
| Supervisor.RefreshReplacesIff | src/supervisor.rs:272-279 | the periodic refresh replaces configuration and tunnel iff one is issued and handshakes, and touches nothing else |
| SupervisorIdentity.WorkingEndpointIsKept | src/supervisor.rs:262-268 | in every run a new tunnel is the dialled configuration with nothing changed but the peer, one of its attempts, and the next reconnect tries that peer first |
| SupervisorIdentity.DiskAgreesIff | src/warp/persistence.rs:30-43 | in every run, at every event boundary, the account file agrees with memory iff the latest rename belongs to a save that returned success or wrote the credentials in use |
| SupervisorIdentity.SaveCanFailAfterRename | src/warp/persistence.rs:30-43 | for every validated ladder there is an honest run of events that ends in disagreement |
| SupervisorIdentity.DiskStaysInAgreement | src/warp/account.rs:176-179 | if saves are all-or-nothing the file agrees at every event boundary of every run |
| SupervisorStall.RecoveryRebuildsIff | src/supervisor.rs:214-344 | a fresh failure ends in a new tunnel exactly under one stated condition per tier; empty pool, cooldown and failed registration all fall back to a rebuild, an unusable identity does not |
| SupervisorStall.UnusableIdentitiesStallRecovery | src/supervisor.rs:314-316 | from the rotation threshold on, as long as identities cannot be used and no probe succeeds, no failed probe ever changes tunnel or identity again |
| SupervisorStall.StallIsReachable | src/supervisor.rs:314-316 | on every ladder a run from the start reaches that stall and stays in it although API, disk and handshakes cooperate |
| SupervisorRate.AttemptsStaySpaced | src/warp/account.rs:134-147 | in every run recorded registration attempts are pairwise at least the cooldown apart and every API call is recorded |
| SupervisorRate.NoCallDuringCooldown | src/warp/account.rs:113-150 | in every run no call is made less than a cooldown after the date of the file on disk, unless the wall clock is behind it, nor less than a cooldown after any earlier attempt |
| SupervisorRate.RegistrationRate | src/warp/account.rs:113-150 | with a positive cooldown any window of length T holds at most T/cooldown + 1 attempts |
| Health.ProbeLoop | src/health.rs:53-129 | each verdict by precedence; the egress verdict exactly when two windows in a row are degraded and the previous round did not raise it |
| Health.DegradedIff | src/egress.rs:46-67 | the degraded test by numbers: at least 20 dials and at least four failures per success |
| Health.EgressFailuresAreApart | src/health.rs:102-124 | an egress failure implies two degraded windows, and two such failures are never adjacent |
| Health.PersistentFaultIsRaised | src/health.rs:80-88 | a lasting selective fault is raised in one of any two consecutive rounds |
| Health.Quorum | src/health.rs:151-181 | the probe passes iff at least min_successes targets answered |
| Health.ConservedUpToWraps | src/egress.rs:76-88 | under any interleaving of recording with the two swaps, taken windows plus live counters plus 2^64 per wrap sum to the dials of each kind recorded by the steps |
| Health.TakingDrains | src/egress.rs:83-88 | a window takes both counters whole and leaves zero |
| Health.NoDialIsLostOrCountedTwice | src/egress.rs:76-88 | so nothing is lost or counted twice exactly as long as no live counter ran over |
| UdpFraming.ParseInvertsFrame | src/proxy/udp.rs:361-429 | every frame of an address or domain parses back to target and payload iff its port is nonzero |
| UdpFraming.AcceptedIsFrame | src/proxy/udp.rs:361-429 | nothing but such a frame is accepted |
| UdpFraming.FrameLayout | src/proxy/udp.rs:432-450 | every byte of a frame for each kind of address |
| UdpFraming.Refusals | src/proxy/udp.rs:361-429 | every refusal iff the bytes say so |
| UdpFraming.Framer.Wrap | src/proxy/udp.rs:432-450 | the reused buffer holds exactly the frame of the source and payload, byte by byte |
| UdpAssociation.StepKeepsInv | src/proxy/udp.rs:107-183 | every interleaved step of receiver, forwarder and reply path keeps order, accounting, bounds and pinning |
| UdpAssociation.PinNeverMoves | src/proxy/udp.rs:118-128 | once pinned, the client address never changes |
| UdpAssociation.DatagramFate | src/proxy/udp.rs:107-153 | in every reachable state a datagram from another address, or another source than the first, changes nothing; any other is counted as oversized above 8256 bytes, queued while fewer than 64 wait, and counted as overflow otherwise |
| UdpAssociation.ForwardAndReply | src/proxy/udp.rs:158-268 | the forwarder takes the oldest datagram and keeps it until done, and a reply goes to the source of the first datagram or nowhere |
| UdpAssociation.AssociationIsAccounted | src/proxy/udp.rs:107-268 | the pin is the source of the first datagram received; every datagram received, hence every one forwarded, is from the pinned client on the allowed address, and replies go only to it; handled, in-progress and queued datagrams are an in-order selection of those received; received = handled + in progress + queued + oversized + queue_full; at most 64 queued datagrams of at most 8256 bytes |

## Left out

- Shutdown: aborting all connections when the listener stops, and panics of connection tasks, are not modelled; `Listener` covers every state while the listener runs.
- Health-probe dials and DNS-over-tunnel sockets are outside the socket and memory bound, as they are outside the program's estimate.
- Floating point: the two ratio tests are exact rationals; the program's comparison agrees for byte and dial counts below 2^50.
- Error texts, log lines and metrics: errors keep their kind only, in the order in which they are detected.
- `checked_add` on offsets: offsets of a datagram cannot overflow, so those error branches are not modelled.
- IPv6 flow labels and scope ids are always zero in the model.
- Bidirectional byte relay and its shutdown coordination, SOCKS5 handshake and authentication, the open-proxy and password checks.
- Validation of MTU, health targets, bind addresses and DNS server lists: single-branch checks.
- `resolve_dual`: that it waits for both record types and merges them; lookup, singleflight and merge are modelled.
- Timers and schedulers: which task runs or which timer fires next is arbitrary, within the guards the code sets.
- `resolve_system` and `resolve_tunnel`: I/O; a backend query is any answer or error.
- WireGuard, smoltcp and the WARP API: a handshake or call succeeds or fails; an issued configuration belongs to the credentials it was requested for.
- The reason given for a replacement, refresh or recovery, is a parameter of `Generations`; which action gives which is not modelled.
- UTF-8 validation of UDP domain names is a parameter of the parser.
- UdpAssociation.AssociationIsAccounted: speaks of the association while all three tasks run; the idle timer and the teardown are not modelled.
- Generations.GenerationLifecycle: deadlines are measured from the moment retirement is scheduled, which the program does right after the swap.
