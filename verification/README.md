# Verified model of the UDP balancer's packet placement

This project models how the balancer decides where a UDP packet goes and proves properties of those decisions for
all inputs and all runs. It covers the three selection algorithms (Maglev, weighted round robin, rendezvous hashing),
the hash key of a packet, the per-client session sockets, and the raw packets that carry a chosen source address.

| file | what it holds |
|---|---|
| Net, Numbers, Backends, Counting, Primes | bytes, words and addresses; numbers in octets; backends and health flags; occurrence counts and the pigeonhole principle; Euclid's lemma and the primality of 65537 |
| MaglevFill, MaglevCounts | the fill of the lookup table: termination, agreement of the cursor-cached loops with the plain rule, Pareto optimality, exact slot counts |
| LookupTable, TableProtocol, TableRaces | a table rebuilt lazily by lookups: runs of lookups and health flips; the same with concurrent lookups and flag-by-flag rebuilds; runs in which a rebuild comes at a bad moment |
| Maglev | weighted entries, the table they give, and the balancer object |
| Fnv, MaglevDisruption, MaglevRaces | the hash function, what a rebuild may disturb, and a bad moment for real addresses |
| GcdReal, CyclicWalk, Wrr | the real-valued Euclid recursion, the theory of periodic walks, the weighted round robin scheduler |
| Checksum, RawPacket, SourceAddress | Internet checksums, packet building and parsing, source-address resolution |
| Sessions, SessionProtocol, SessionUse, SessionDelivery | the session table as an object; forwarding as a transition system over any number of concurrent lookups; how long a use keeps a session; where responses come from |
| Rendezvous, Ipfix, FlowKey | the argmax choice and its disruption guarantees; what is taken from IPFIX messages; the key encoding and flow affinity |

Run `dafny verify dfyconfig.toml` to check everything.

## How the code is represented

- Objects that the code updates in place are classes (`Maglev.Balancer`, `Wrr.WeightedRoundRobin`,
  `Sessions.SessionManager`); buffers and the lookup table under construction are arrays; loops are loops. Each method
  is proved against a specification function, and the theorems are about those functions and about runs of them.
- The FNV hash is a function parameter and the results hold for any function in its place; only what is said about
  disruption of the Maglev table, and the failing examples, are about the real one, whose values they compute. The score
  curve of rendezvous hashing (logarithm and power) is a parameter too. Scores are `NegInf | Fin(real)`: only their order matters.
- Weights are real numbers, so floating-point rounding is not modelled. Weighted round robin is proved for all positive real
  weights with an explicit servability condition, and specialised to weights that are whole multiples of a unit of at
  least the cut-off 0.0001, where the real recursion is Euclid's algorithm. `f64::round` is half away from zero.
- The 32-bit accumulator of the checksums is a bounded integer type, so its freedom from overflow is part of the proofs.
  Shifts, masks and the complement are written as arithmetic.
- Health flags may be set at any step. Concurrent Maglev lookups are broken into their separate looks, flag reads and
  publications (`TableProtocol`), while `LookupTable` and the balancer object take each lookup as one step. The lock of
  weighted round robin excludes other calls but not the health checker: the loop reads the flags anew in every
  iteration, which `Wrr.WeightedRoundRobin.Next` takes as a parameter; the fairness results are for flags that hold
  still. A rendezvous scan is given the flags as it read them, one after the other. Session operations are one step per
  map operation, and the sweep visits one session per step.
- Sockets are identities, always fresh when bound, and a connected socket accepts datagrams from its peer only.
  Time is a counter that never runs backwards.

## Where the code falls short of what is promised

- `README.md:217` of the repository says of Maglev that only a failed backend's traffic moves, with minimal disruption to
  others. The table guarantees this exactly when at most one backend survives (`MaglevDisruption.MinimalDisruptionExact`).
  With two or more survivors it can fail: among the equal backends 10.0.14.132:53, 10.0.0.5:53 and 10.0.4.137:53 the
  failure of the first moves slot 477 from the second to the third (`MaglevDisruption.SurvivorsSwap`).
  Rendezvous hashing does keep the promise (`Rendezvous.OnlyFailedMove`).
- A Maglev lookup made while every backend is down empties the table, and an empty table is never rebuilt by a lookup.
  When each lookup is one step, `Maglev.Availability` states exactly when a lookup succeeds in a run.
- A rebuild reads the flags one after the other, so it can empty the table although something is up at every moment: it
  is enough that each backend is down when its own flag is read (`TableRaces.OutageThatNeverWas`).
  `TableProtocol.AvailabilityExact` is the exact condition under interleaving, and `TableProtocol.LostForEver` says
  exactly when no continuation of the run ever gives a table again.
- A Maglev key can move although its backend is up all the time and every look since its last answer has found its
  owner up: a rebuild that began before that answer may publish after it. With the three backends above and source
  addresses as keys, client 10.2.48.226 moves from 10.0.0.5:53 to 10.0.4.137:53 while client 10.1.19.134's lookup rebuilds
  (`MaglevRaces.ClientMovesLate`). `TableProtocol.QuietSticky` is the condition under which keys stay.
- The loop of weighted round robin need not end: with weights 1, 0.00005 and 0.00005 the cut-off makes the computed gcd 1,
  and with the first backend down no level ever drops to the others (`Wrr.OffGridNeverReturns`). `Wrr.LoopEndsExactly` is
  the exact condition for flags that hold still.
- Even with good weights it need not end: a call that has counted two live backends spins, with the lock held, when both
  go down before it gets to an owned cell and stay down (`Wrr.SpinsForEver`). `Wrr.SettledEndsExactly` is the exact
  condition when the flags change during the call and settle in the end.
- A backend whose hash for a key is zero is never chosen by rendezvous hashing, even alone (exact condition in
  `Rendezvous.ChoiceExact`). Keyed by source address, client 2001:db8:1321:252d:357c:7102:2dd:1226 is not served while
  10.0.0.5:53 is the only backend (`Rendezvous.ZeroHashNeverWins`, `FlowKey.UnservedFlow`).
- A rendezvous scan reads the flags one after the other, so it may find nobody although at every moment somebody is up
  who would be chosen (`Rendezvous.ScanCanMissAll`, exact condition in `Rendezvous.ScanFinds`).
- A session is safe from eviction only for as long as the session timeout counted from its lookup. As a wait for a
  response lasts just as long but starts with the send, its tail is unprotected unless the send follows the lookup at
  once (`SessionProtocol.WaitProtectedExactly`).
- An IPv4 packet with a payload between 65508 and 65527 bytes carries a truncated total length; `RawPacket.RoundTripV4`
  says that it is readable exactly up to 65507 bytes.

Hash keys identify flows without exception: both listeners pass their own address as the destination and receive on
sockets bound to it (`src/listener/batch.rs:155-159`, `src/listener/standard.rs:79-85`), so all packets of one balancer
agree in both address families, and then `FlowKey.KeyFaithful` makes equal keys and equal selected fields the same thing. The function
by itself, given packets of different families, would need that condition (`FlowKey.KeysCoincideAcrossFamilies`).

## Model

| member | source | states |
|---|---|---|
| Primes.TableSizeIsPrime | src/balancer/maglev.rs:10 | the table size 65537 is prime |
| MaglevFill.WalkIsBijection | src/balancer/maglev.rs:93-111 | for a prime table size and a skip from 1 to size-1, an entry's walk visits every slot exactly once in its first M steps |
| MaglevFill.TurnSucceeds | src/balancer/maglev.rs:104-121 | after t turns exactly M - t slots are free, and every turn before the last finds one |
| MaglevFill.Advance | src/balancer/maglev.rs:106-111 | no cursor passes the table size, the probe number stays below M + M*M (far from 64-bit overflow), and a cursor that meets a taken slot may advance |
| MaglevFill.Turn | src/balancer/maglev.rs:105-115 | one turn with the cached cursor keeps the table equal to the plain greedy fill and every cursor sound |
| MaglevFill.PopulateTable | src/balancer/maglev.rs:99-124 | the in-place fill terminates with the greedy table of M turns and at most E*M probes in all |
| MaglevFill.FirstFreeFromCursor | src/balancer/maglev.rs:106-111 | starting at the cached cursor finds the same slot as scanning the whole preference walk |
| MaglevFill.SlotIsOwned | src/balancer/maglev.rs:108-115 | a claimed slot keeps its owner to the end and is chosen by no later turn |
| MaglevFill.FillComplete | src/balancer/maglev.rs:104-123 | at the end every slot is owned by the backend of the turn that chose it |
| MaglevFill.FillParetoOptimal | src/balancer/maglev.rs:104-121 | no other assignment of distinct slots gives every turn an equally or better liked slot |
| MaglevCounts.SlotCounts | src/balancer/maglev.rs:104-121 | each of a backend's r entries brings floor(M/E) slots, and every one among the first M mod E entries one more; hence r*floor(M/E) to r*ceil(M/E) |
| MaglevCounts.ServedExactly | src/balancer/maglev.rs:104-121 | a backend owns a slot if and only if one of its entries is among the first M; with at most M entries that is every backend with an entry |
| MaglevDisruption.MinimalDisruptionExact | README.md:217 | with the program's hash function and over all addresses, weights and flags, a failure that leaves n backends is sure to move only the failed one's slots if and only if n is at most 1 |
| MaglevDisruption.SurvivorsSwap | README.md:217 | three concrete addresses, hashed with FNV-1a, for which slot 477 passes between two survivors, whatever further backends there are |
| MaglevDisruption.ContendedEntries | src/balancer/maglev.rs:80-97 | the offsets and the skip that FNV-1a gives the three addresses |
| Maglev.BuildWeightedEntries | src/balancer/maglev.rs:51-77 | the loops produce each live backend's entry, repeated by its rounded weight ratio, in order; nothing when the smallest weight is not positive |
| Maglev.EntryCounts | src/balancer/maglev.rs:63-74 | each listed backend has exactly its own number of entries and nobody else has any |
| Maglev.RepetitionsNearRatio | src/balancer/maglev.rs:66-67 | the repetition count is weight/min_weight rounded to the nearest whole number, halves upwards, and at least 1 |
| Maglev.RoundExact | src/balancer/maglev.rs:66 | rounding yields the nearest whole number and, of two equally near ones, the one further from zero |
| Maglev.EntriesInOrder | src/balancer/maglev.rs:63-74 | the entries come in the order of the backends, and each is its backend's own |
| Maglev.KeySlot | src/balancer/maglev.rs:126-130 | the slot of a key is the one index below 65537 congruent to its hash; two keys share a slot if and only if their hashes are congruent |
| Maglev.TableShape | src/balancer/maglev.rs:27-49 | a table is empty or has 65537 slots, each naming a backend that was up at the build; it is empty exactly when nothing was up, for positive weights |
| Maglev.TableIsFair | src/balancer/maglev.rs:51-124 | the exact number of slots of every live backend in terms of its entries, which are its relative weight rounded with halves upwards, and the floor and ceiling bounds; dead backends own nothing |
| LookupTable.LookupExact | src/balancer/maglev.rs:134-173 | lookups being single steps: a lookup never answers with a backend that is down, and succeeds, after at most one rebuild, exactly when the table is not empty and something is up |
| LookupTable.TableIsSnapshot | src/balancer/maglev.rs:27-49 | after any run the table is the fill for the flags at construction or at some earlier moment; lookups being single steps |
| LookupTable.Availability | src/balancer/maglev.rs:134-173 | lookups being single steps, for any table builder that is sound: in any run a lookup succeeds if and only if something is up now, was up at construction, and was up at every earlier lookup |
| Maglev.EngineIsSound | src/balancer/maglev.rs:27-49 | the Maglev table is such a builder, so everything said of lookup tables holds of it |
| Maglev.Availability | src/balancer/maglev.rs:134-173 | the same for the Maglev table, lookups being single steps |
| Maglev.AvailabilityInterleaved | src/balancer/maglev.rs:27-173 | when lookups, flag reads, rebuilds and flips interleave: an undisturbed lookup succeeds if and only if something is up and the flags read by the last rebuild did not all read as down |
| Maglev.ComputeTable | src/balancer/maglev.rs:27-49 | filtering, weighing and filling yield the table of the specification |
| LookupTable.LookupKeepsExactly | src/balancer/maglev.rs:146-171 | a lookup leaves the table as it is if and only if the owner of its slot is up; otherwise the table changes; lookups being single steps |
| LookupTable.TableKeptExactly | src/balancer/maglev.rs:134-173 | the table stays the same through a run if and only if every lookup of the run finds the owner of its slot up at that moment; lookups being single steps |
| LookupTable.Sticky | src/balancer/maglev.rs:134-151 | while every lookup finds the owner of its slot up, whatever else fails and recovers, a key is answered with the backend that owned its slot at the start exactly when that backend is up; lookups being single steps |
| Maglev.Balancer.constructor | src/balancer/maglev.rs:18-25 | a new balancer has the table for the flags it was given |
| Maglev.Balancer.SetAlive | src/balancer/backend.rs:189-192 | a flag flip changes nothing but the flag |
| Maglev.Balancer.RebuildTable | src/balancer/maglev.rs:27-49 | the table becomes the fill for the current flags |
| Maglev.Balancer.Next | src/balancer/maglev.rs:134-173 | the result and the new state are those of the lookup specification |
| TableProtocol.TableAlwaysWhole | src/balancer/maglev.rs:27-49 | in every interleaving the table is empty or a complete fill over backends each of which was up at some moment, so indices stay valid |
| TableProtocol.TableIsReadInOrder | src/balancer/maglev.rs:27-49 | in every interleaving the table is the fill for flags read one after the other in order, each at a moment of the run; they need never have held together |
| TableProtocol.AnswersAreUp | src/balancer/maglev.rs:148-171 | in every interleaved run each lookup answered with a backend that was up at the very step at which it answered |
| TableProtocol.AvailabilityExact | src/balancer/maglev.rs:27-173 | in every interleaved run the table is empty if and only if the flags last read by a rebuild all read as down, and an undisturbed lookup then succeeds if and only if the table is not empty and something is up |
| TableProtocol.LostForEver | src/balancer/maglev.rs:137-139 | no continuation gives a table again if and only if the table is empty and every rebuild under way has read all flags as down |
| TableRaces.OutageThatNeverWas | src/balancer/maglev.rs:28-39 | a run in which something is up at every moment and the table is lost for ever |
| TableProtocol.RebuildsBalance | src/balancer/maglev.rs:146-156 | in every interleaving the rebuilds that begin, with those under way at the start, are those that complete with those under way at the end |
| TableProtocol.TableLasts | src/balancer/maglev.rs:134-173 | with no rebuild under way, the table stays the same as long as no first look finds the owner of its slot down; and between two states without a rebuild under way a table is published if and only if some first look did |
| TableProtocol.QuietLooksAgree | src/balancer/maglev.rs:141-151 | in such a run every first look answers the owner that its slot had at the start |
| TableProtocol.QuietSticky | src/balancer/maglev.rs:134-173 | after such a run a lookup that runs undisturbed answers the owner that its slot had at the start if and only if that backend is up |
| TableRaces.KeyMovesLate | src/balancer/maglev.rs:153-156 | a run in which a key moves although its backend is up throughout and no look after its answer finds an owner down |
| TableRaces.SameTablePublished | src/balancer/maglev.rs:146-156 | a run in which a first look finds the owner down and the rebuild publishes the same table |
| MaglevRaces.ClientMovesLate | src/balancer/maglev.rs:153-156 | the moving key for three real backend addresses and two real clients under FNV-1a |
| TableProtocol.SoloIsLookup | src/balancer/maglev.rs:134-173 | without interference the separate steps amount to the atomic lookup |
| GcdReal.GcdF64Step | src/balancer/wrr.rs:33-39 | a second argument below 0.0001 ends the recursion, any other continues it with the remainder |
| GcdReal.GcdOnGrid | src/balancer/wrr.rs:33-39 | on multiples of a unit of at least 0.0001 the real recursion with cut-off equals Euclid's algorithm |
| GcdReal.GcdAllDivisors | src/balancer/wrr.rs:19 | the divisors of the folded gcd are exactly the common divisors of all weights |
| GcdReal.FoldsOnGrid | src/balancer/wrr.rs:19-20 | the folds over real weights are the gcd and the maximum of the whole units |
| GcdReal.StepHalves | src/balancer/wrr.rs:33-39 | the product of the arguments at least halves, so the recursion terminates for all reals |
| CyclicWalk.FairWindow | src/balancer/wrr.rs:65-85 | in as many stops as a period has owned cells, each owner is visited once per own cell, from any starting point |
| Wrr.LevelsDescend | src/balancer/wrr.rs:68-76 | within a descent the level of round k is the maximum minus k gcds, positive and not increasing |
| Wrr.RoundsExact | src/balancer/wrr.rs:68-76 | a descent has ceil(max/gcd) rounds, the last at level max - (ceil(max/gcd) - 1) * gcd |
| Wrr.LevelUpdate | src/balancer/wrr.rs:66-76 | the level in hand is determined by the counter alone and the update moves it to the level of the cell at hand |
| Wrr.CellsArePeriodic | src/balancer/wrr.rs:65-85 | the walk over (level, backend) cells repeats after n times the number of levels |
| Wrr.LoopEndsExactly | src/balancer/wrr.rs:65-85 | with flags that hold still, the loop stops within a period if and only if some live backend weighs at least max - (ceil(max/gcd) - 1) * gcd; otherwise it never stops |
| Wrr.SettledEndsExactly | src/balancer/wrr.rs:65-85 | with flags that change in every iteration and settle from some cell on, the loop ends if and only if it meets an owned cell before or some backend up in the end reaches the lowest level |
| Wrr.SettledOnGrid | src/balancer/wrr.rs:65-85 | on the grid: if and only if it meets an owned cell before the flags settle or something is up in the end |
| Wrr.SpinsForEver | src/balancer/wrr.rs:78-80 | with weights 1 and 1, both backends up at the filter and down afterwards, the loop never ends |
| Wrr.SteadyIsServe | src/balancer/wrr.rs:42-86 | with flags that hold still, a call ends exactly when it is servable and gives the result that the fairness theorems count |
| Wrr.Target | src/balancer/wrr.rs:65-85 | the loop stops at the first owned cell, within one period |
| Wrr.IterationsOnGrid | src/balancer/wrr.rs:65-85 | on the grid the loop takes at most n * (max/gcd) iterations whenever something is up |
| Wrr.ExactFairness | src/balancer/wrr.rs:62-85 | with fixed flags, any window of as many calls as the live quotas add up to picks each live backend exactly its quota of times, from every counter value |
| Wrr.QuotaOnGrid | src/balancer/wrr.rs:62-85 | on the grid a backend's quota is weight/gcd, every backend reaches the lowest level, and a descent has max/gcd rounds |
| Wrr.ServableOnGrid | src/balancer/wrr.rs:42-85 | on the grid every call during which the flags hold still completes, whatever they are, even with the heaviest backend down |
| Wrr.FairnessOnGrid | src/balancer/wrr.rs:62-85 | any window of the summed live weight/gcd calls picks live backend i exactly weight_i/gcd times |
| Wrr.OffGridNeverReturns | src/balancer/wrr.rs:33-39 | weights below the cut-off for which two live backends are never served |
| Wrr.TinyWeights | src/balancer/wrr.rs:17-30 | with all weights below 0.0001 the gcd is taken as 1, a descent is one round, and exactly the heaviest backends have a quota |
| Wrr.WeightedRoundRobin.constructor | src/balancer/wrr.rs:17-30 | gcd and maximum are the folds, a zero gcd becomes 1, counter and level start at 0 |
| Wrr.WeightedRoundRobin.Next | src/balancer/wrr.rs:42-86 | one call, the flags being free to change in every iteration: the owner of the first owned cell from the counter on by the flags of its own iteration, or the only live backend, or nothing |
| Wrr.WeightedRoundRobin.Walk | src/balancer/wrr.rs:65-85 | the loop under the lock stops exactly at the first cell owned by the flags of its own iteration and leaves the level determined by the counter |
| Checksum.FoldEqualsOcSum | src/raw_socket.rs:247-251 | summing wide and folding the carries equals word-by-word end-around-carry addition |
| Checksum.Accumulate | src/raw_socket.rs:234-245 | the accumulation loop adds every word and the padded odd byte without 32-bit overflow |
| Checksum.FoldCarries | src/raw_socket.rs:247-249 | folding terminates, keeps the residue mod 65535, and keeps a non-zero sum non-zero |
| Checksum.WordsExact | src/raw_socket.rs:234-245 | words are two octets each, most significant first, and an odd length counts as if a zero octet followed |
| Checksum.PseudoLayouts | src/raw_socket.rs:255-309 | the pseudo-headers are the octets that RFC 768 and section 8.1 of RFC 8200 lay out |
| Checksum.Compute | src/raw_socket.rs:233-252 | the checksum is the complement of the one's-complement sum of the words |
| Checksum.UdpV4 | src/raw_socket.rs:255-287 | the UDP checksum over the IPv4 pseudo-header and segment, with zero sent as all ones, never zero |
| Checksum.UdpV6 | src/raw_socket.rs:290-323 | the UDP checksum over the IPv6 pseudo-header and segment, with zero sent as all ones, never zero |
| Checksum.ChecksumCompletes | src/raw_socket.rs:251 | storing the complement in the zeroed field makes the whole verify, also when zero is replaced by all ones |
| Checksum.SingleWordDetection | src/raw_socket.rs:233-252 | a verified message with one word replaced still verifies exactly when the word is congruent mod 65535 and the message is not all zero |
| Checksum.OrderIrrelevant | src/raw_socket.rs:233-252 | reordering aligned words never changes the checksum |
| RawPacket.BuildV4 | src/raw_socket.rs:157-202 | the buffer filled in place is the header and segment with both checksums in place |
| RawPacket.BuildV6 | src/raw_socket.rs:205-230 | the buffer filled in place is the segment with its checksum in place |
| RawPacket.HeaderVerifies | src/raw_socket.rs:183-185 | every built IPv4 header verifies |
| RawPacket.SegmentVerifies | src/raw_socket.rs:197-199 | every built segment verifies with its pseudo-header, odd lengths included |
| RawPacket.CorruptionDetected | src/raw_socket.rs:233-323 | corrupting an aligned word of a header or segment is noticed exactly when the words differ mod 65535 |
| RawPacket.SingleByteDetected | src/raw_socket.rs:233-323 | every corruption of a single byte is noticed, the padded last byte of an odd-length segment included |
| RawPacket.RoundTripV4 | src/raw_socket.rs:157-202 | a receiver that checks the header, that it is no fragment, the lengths and both checksums reads back exactly the inputs up to 65507 payload bytes, and nothing above |
| RawPacket.RoundTripV6 | src/raw_socket.rs:205-230 | a receiver reads back exactly the inputs for every payload up to 65527 bytes |
| RawPacket.HeaderRead | src/raw_socket.rs:168-181 | every field of the IPv4 header of a sent packet: no options, type of service 0, identification 0, not to be fragmented and no fragment, time to live 64, UDP, both addresses |
| RawPacket.WirePlaces | src/raw_socket.rs:168-195 | the addresses, ports, UDP length and payload stand as numbers at their places in the packet and in the segment |
| RawPacket.ChecksumPresent | src/raw_socket.rs:281-286 | the checksum field of a sent datagram is never zero |
| SourceAddress.EmbedInvertible | src/raw_socket.rs:142-154 | the RFC 6052 embedding is injective and is undone by reading the last four bytes under the prefix |
| SourceAddress.EmbedNumber | src/raw_socket.rs:142-154 | as a number, an embedded address is 64:ff9b::/96 with the IPv4 address in its last 32 bits |
| SourceAddress.MappedExact | src/balancer/backend.rs:233-240 | mapped addresses are exactly ten zero octets, two octets 255 and the IPv4 address |
| SourceAddress.SourcePreserved | src/balancer/backend.rs:230-257 | the backend reads the client's own address (embedded, or the fallback), port and payload from the packet it receives |
| SourceAddress.SourceFaked | src/raw_socket.rs:84-154 | the backend reads the configured source address (embedded for an IPv6 backend), the client's port and the payload exactly when the configuration check allows that address and the length fits |
| SourceAddress.FakingExact | src/config.rs:329-337 | corollary: a fake source is refused for its family exactly when the configuration check refuses it |
| SourceAddress.PreservingExact | src/balancer/backend.rs:230-257 | corollary: preserving never meets a family mismatch and is refused exactly for a true IPv6 client, IPv4 backend and no fallback |
| Sessions.SessionManager.Get | src/balancer/session.rs:53-57 | the fast path touches only its session and returns its socket |
| Sessions.SessionManager.Insert | src/balancer/session.rs:77-89 | insert-if-absent: an existing session wins and is touched, otherwise the new one enters |
| Sessions.SessionManager.GetOrCreateSession | src/balancer/session.rs:43-90 | an undisturbed lookup returns the existing socket or the bound one, leaves it freshly used, and changes no other session |
| Sessions.SessionManager.UpdateActivity | src/balancer/session.rs:93-102 | touches the named session if it exists and nothing else |
| Sessions.SessionManager.CleanupExpired | src/balancer/session.rs:108-121 | removes exactly the sessions idle for more than the timeout and returns their number |
| SessionProtocol.Reachable | src/balancer/session.rs:43-121 | every interleaving keeps ownership of sockets, traffic and recorded times in order |
| SessionProtocol.SameSocket | src/balancer/session.rs:43-90 | all lookups of one client and backend return the same socket until the session is removed |
| SessionProtocol.SocketsServeOneKey | src/balancer/session.rs:65-89 | a socket serves one client and backend for ever, through evictions, and the socket of a lost race is never handed out |
| SessionUse.LookupBegins | src/balancer/session.rs:43-57 | a task begins by looking; a hit ends its lookup with the session's socket at the time of the hit, otherwise it has missed |
| SessionUse.MissGoesOn | src/balancer/session.rs:59-73 | a miss binds a fresh socket at the time of the binding, or fails |
| SessionUse.InsertEnds | src/balancer/session.rs:75-89 | the first insertion keeps the socket bound; a later one drops it and uses the session there is, at the time of the insertion |
| SessionUse.WaitEnds | src/balancer/core.rs:139-149 | a wait ends with the head of the queue of the task's socket, returned unless empty, or with nothing on a time-out or failed receive |
| SessionUse.WaitGoesOn | src/balancer/core.rs:139-149 | nothing else ends a wait, and a time-out only once the response timeout has passed since the send |
| SessionUse.SendEnds | src/balancer/core.rs:131-161 | a send goes out on the task's socket and starts the wait; sending nothing ends the task without a response, a failed send with an error |
| SessionDelivery.ResponsesStayHome | src/balancer/core.rs:131-161 | a returned response arrived, from the chosen backend, on the task's own socket, on which only this client's payloads for this backend were ever sent |
| SessionDelivery.DeliveriesBalance | src/balancer/core.rs:139-149 | in every run, on every socket: what arrived is what tasks of that socket took off, in order, followed by what is queued; each datagram taken off ended one task, which returned it unless it was empty, and every response returned was taken off |
| SessionDelivery.ResponsesAreDistinct | src/balancer/core.rs:139-149 | what two tasks return on one socket arrived there at two different places, so no datagram is returned twice |
| SessionProtocol.OnlyIdleEvicted | src/balancer/session.rs:108-121 | a session leaves the table only when a sweep visits it and finds it idle for more than the timeout |
| SessionProtocol.RecentSurvives | src/balancer/session.rs:108-121 | a session used within the timeout of the sweep's start survives the sweep, whatever interleaves |
| SessionUse.LookedUpStays | src/balancer/session.rs:43-121 | once a lookup that was still under way at one time has its socket, the session is in the table under that socket for the whole timeout from that time, through every interleaving and sweep |
| SessionUse.UsedStays | src/balancer/session.rs:93-121 | from any state, a use keeps a session and its socket in the table until the timeout has passed since |
| SessionUse.UseRecorded | src/balancer/session.rs:53-102 | a hit, a touch or a lost insertion race records the time at which it happens; nothing else writes to a session |
| SessionUse.EntryRecorded | src/balancer/session.rs:69-88 | a session enters the table only by an insertion, with the socket and the time of its binding |
| SessionUse.LookupsRecordTheirTime | src/balancer/session.rs:43-90 | what a lookup records is no earlier than any time at which it was still looking |
| SessionProtocol.VisitsSweep | src/balancer/session.rs:112-118 | visiting every session one by one has the effect of the table's own sweep |
| SessionProtocol.IdleBounded | src/balancer/session.rs:108-134 | at most d after the last completed sweep started, no session has been unused for more than the timeout plus d; with sweeps on time d is half the timeout |
| SessionProtocol.WaitProtectedExactly | src/balancer/core.rs:40-149 | a session is sure to be in place during a wait as long as the delay from lookup to send and the time waited make up no more than the timeout; so a whole wait is protected if and only if the send follows its lookup at once |
| SessionProtocol.EvictedWhileWaiting | src/balancer/session.rs:108-121 | for every longer delay and wait, a run in which the session goes while its task waits |
| Rendezvous.Next | src/balancer/rh.rs:36-60 | the scan computes the best score and its first holder |
| Rendezvous.ChoiceExact | src/balancer/rh.rs:36-60 | by the flags as the scan read them: the choice is the unique first live backend of maximal finite score, and exists exactly when a live backend has a non-zero hash and positive weight |
| Rendezvous.HighestValueWins | src/balancer/rh.rs:25-57 | in numbers: backend b is chosen if and only if it is up, its hash is not zero, its weight is positive, and no other such backend has a higher value of the score curve, nor an earlier one the same |
| Rendezvous.ZeroHashNeverWins | src/balancer/rh.rs:25-33 | a real key and backend address whose FNV-1a hash is zero: the lone live backend is not chosen, for every weight and curve |
| Rendezvous.ScanExact | src/balancer/rh.rs:43-57 | while flags change during the scan: it answers b if and only if b was up when its own flag was read, has a finite score, and nobody beats it who was up when his was read |
| Rendezvous.ScanFinds | src/balancer/rh.rs:43-57 | a scan finds somebody if and only if somebody with a finite score was up when his own flag was read; one who stays up throughout is enough |
| Rendezvous.ScanCanMissAll | src/balancer/rh.rs:44-46 | two backends that swap places during a scan: nobody is chosen although at each moment somebody would be |
| Rendezvous.WinnersAgree | src/balancer/rh.rs:36-60 | if each of two live sets contains the other's winner, the winners are the same |
| Rendezvous.OnlyFailedMove | README.md:213 | when any set of backends fails, a key moves if and only if its backend failed |
| Rendezvous.KeysMoveOnlyForCause | README.md:213 | over any run of failures and recoveries a key has its backend back exactly when that is up and no newcomer scores higher, or equal and earlier |
| Ipfix.DomainExact | src/balancer/core.rs:211-228 | of a message laid out as in section 3.1 of RFC 7011 the observation domain is read if and only if the version is 10 |
| Ipfix.TemplateExact | src/balancer/core.rs:230-248 | the identifier of the first set is read if and only if the version is 10 and it is a data set (section 3.3.2 of RFC 7011) |
| Ipfix.AnyMessage | src/balancer/core.rs:211-228 | every payload of at least 16 bytes is such a message |
| Ipfix.TooShort | src/balancer/core.rs:211-237 | payloads that end before a field do not have it |
| FlowKey.BuildHashKey | src/balancer/core.rs:64-106 | the loop appends the encodings of the fields in order |
| FlowKey.EncodeIsWire | src/balancer/core.rs:74-102 | what a field adds to the key is what the packet carries on the wire: address octets, ports, and the octets of the IPFIX fields |
| FlowKey.KeyOfConcat | src/balancer/core.rs:74-102 | the fields contribute one after the other |
| FlowKey.AgreeSameKey | src/balancer/core.rs:64-106 | packets that agree on every selected field get the same key |
| FlowKey.KeyFaithful | src/balancer/core.rs:64-106 | packets agree on every selected field if and only if their keys are equal and the selected addresses are of the same families; so packets of one listener agree if and only if their keys are equal |
| FlowKey.LengthsTellShape | src/balancer/core.rs:84-100 | within the same families the lengths of two keys already tell whether the same IPFIX fields are present |
| FlowKey.RendezvousAffinity | README.md:213 | a later packet of a flow goes where the first one went exactly when that backend is up and no newcomer beats it, over any failures and recoveries |
| FlowKey.UnservedFlow | src/balancer/core.rs:114-125 | with source addresses as keys, no packet of one real client is served while 10.0.0.5:53 is the only backend |
| FlowKey.MaglevAffinity | src/balancer/core.rs:114-125 | under interleaving: when a packet of a flow finds b up in its slot and no rebuild is under way, then, as long as no first look finds an owner down, a later packet looked up undisturbed is answered with b exactly when b is up |
| FlowKey.MaglevAffinitySingly | src/balancer/core.rs:114-125 | lookups being single steps: once a packet was answered with b, and as long as no lookup has found the owner of its slot down, later packets of the flow are answered with b exactly when b is up |

## Left out

- Wrr.WeightedRoundRobin.Next: requires that the loop ends, that is, that some cell from the counter on is owned by the flags of its own iteration (`Wrr.SettledEndsExactly` says when), since otherwise the code loops for ever; the wrap-around of the 64-bit counter is not modelled.
- Checksum.Compute: requires that the words add up to less than 2^32, beyond which the accumulator overflows (a panic in a debug build, a wrong sum otherwise); the code only ever passes 20 bytes.
- Checksum.UdpV4: requires a segment of at most 65535 bytes, the longest that a UDP length field can describe; the same holds of Checksum.UdpV6.
- Checksum.UdpV6: see Checksum.UdpV4.
- RawPacket.BuildV4: requires a UDP length of 16 bits (payload up to 65527 bytes), the longest payload a datagram can bring; above it the pseudo-header length would not be a word.
- RawPacket.BuildV6: the same bound.
- MaglevDisruption.MinimalDisruptionExact: says for how many survivors the guarantee holds over all addresses; which addresses happen to avoid disruption among more survivors is not characterised.
- SessionProtocol.IdleBounded: how late a sweep may come is the parameter d; the timer, and the case of a one-nanosecond timeout, whose half is no valid timer interval, are not part of this model.
- Floating-point rounding of weights, levels and scores, and the values of the hash function.
- Socket creation and sends, TTLs and socket options: only their results appear.
- Health checking over HTTP, metrics, the status server, mirroring, listeners, configuration parsing and start-up: no placement decision is made there.
- The background response forwarder: the code never starts it.
- Probabilistic sending (`should_send`): random.
