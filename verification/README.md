# ax-router2, verified core

ax-router2 is a reverse router. A client dials out to the server's control port,
authenticates with a token and becomes a *session* registered under a service
name; public HTTP requests are matched to a session by their Host header and
forwarded over a stream of that session. This project models the parts of the
router that carry state or formats, and proves what holds of them on every input,
in every reachable state and over every interleaving.

| file | what it models |
|---|---|
| `Options`, `Bytes`, `Words`, `Ascii`, `Sums` | shared values, byte strings, word sizes, ASCII strings, sums over activations |
| `Transition` | state machines, their runs, and invariants over runs |
| `RegistrySlots`, `Registry` | the registry's critical sections, and the registry and session objects (`server/registry.go`, `server/session.go`) |
| `RegistryProtocol`, `RegistryInvariant`, `RegistryTheorems`, `RegistryProgress` | the registry as a concurrent protocol, its inductive invariant, the guarantees drawn from it, and what each activation can always bring to an end |
| `ControlPlane` | admission of control connections on top of the registry protocol and the token store (`server/server.go`) |
| `Hosts` | Host header to service name, and the certificate policy (`server/server.go`, `server/tls.go`) |
| `Handshake` | the Hello and Ack frames (`internal/protocol/handshake.go`) |
| `Chunked`, `ResponseWriter`, `Forwarding` | the response writer, the chunked coding, the body copy loop (`client/handler.go`, `server/proxy.go`) |
| `RateRing`, `LatencyRing`, `Stats` | rolling statistics (`server/stats.go`) |
| `HttpAccounting`, `UpgradePump` | the counters around forwards, the upgrade pumps (`server/proxy.go`) |
| `CertIssuer` | certificate issuance (`server/cert_warmup.go`) |
| `Tokens`, `TokenWatch` | the token store and its debounced reload (`server/reload.go`) |

## How the concurrency is modelled

Each concurrent part is a state machine of module `Transition`: `Enabled(state,
step)` and `Next(state, step)`, with one step per critical section and one per
action outside the lock, and a program counter per activation. A run is any
sequence of enabled steps, so a statement about runs is about every interleaving.
In-place code is also given as classes whose methods are proved to have exactly
the effect of the functions the machines use.

I/O, the clock, randomness and foreign code enter as parameters of the steps: the
times read, the outcome of a file read, how a byte stream is fragmented, what a
handler calls. JSON is an arbitrary encoder with its decoder. net/http's
serialisation of a status line and header block is one item of the output.

## Findings

Places where a natural claim is false, each with the exact condition under which
it holds:

- A parked lookup's timer does not fire exactly at last-seen plus grace: it is
  armed after the lock is released, and fires late by that gap, which can be any
  (`RegistryTheorems.ParkedDeadline`, `RegistryTheorems.TimerCanBeLate`).
- An upgrade need not reach `WSEnd`: the ticker receives from the same `done`
  channel as the handler. If it takes one of the two messages, the upgrade stays
  counted for ever; otherwise it can always still end
  (`UpgradePump.EndsIffNothingStolen`, `UpgradePump.LeakReachable`).
- A bump a whole ring late is counted under a newer second, and an event counted
  in the very second 0 is counted again later, since 0 also marks an unused ring
  (`RateRing.BumpRefinesIff`, `RateRing.LateEventMiscounted`,
  `RateRing.EpochEventRepeated`).
- The repository's README says that file tokens are hot-reloadable. `LoadConfig`
  merges the file into the map that the store keeps as its inline map, so a token
  present in the file at boot can be neither revoked nor re-bound by a reload
  (`Tokens.ReloadMattersIff`).
- `All` and `Lookup` resolve a token held by both maps in opposite orders
  (`Tokens.AllAgreesIff`); they come to disagree on a token after some history
  iff the token was there at boot (`Tokens.DisagreementReachableIff`).
- A session whose name contains a colon gets no request, because the port is
  stripped at the first colon of the Host header; and such a name is admitted,
  since a token may be bound to any string (`ControlPlane.SessionReachableIff`,
  `ControlPlane.ColonNameUnreachable`). Under a base domain with a colon no
  session gets any (`Hosts.RoutableNames`), not even through a host accepted for
  its service (`ControlPlane.PolicyAgreesWithRouting`).
- One trailing dot does not change the service a host names, but it changes the
  destination of the two dashboard hosts (`Hosts.TrailingDotAndRouting`,
  `Hosts.DashboardTrailingDot`).
- Under a base domain that ends in a dot, a host joined to it the usual way names
  no service (`Hosts.ExtractInvertsJoin`). Only a host that ends in two dots does
  (`Hosts.ImproperBaseNeedsTwoDots`, `Hosts.TwoDotHost`).

Other disagreements between code and documentation, where the model follows the
code: the repository's README says that the server ignores the requested service
name of a service-bound token, while the code refuses a different one
(`ControlPlane.AdmissionExact`); it says of a failed reload that new clients can
no longer authenticate, while they authenticate against the last good file
(`Tokens.FailedReloadIsHarmless`).

## Model

| member | source | states |
|---|---|---|
| `RegistryInvariant.StepKeeps` | server/registry.go:43-150 | every step of every activation of Register, Unregister, Lookup and CloseAll keeps the invariant of slots, channels, displaced sessions, timers and history |
| `RegistryInvariant.ReachableInv` | server/registry.go:43-150 | the invariant holds in every reachable state of every interleaving |
| `RegistryTheorems.NoLostWakeup` | server/registry.go:85-123 | a parked lookup's channel is closed, or waits in the map for its own service, or is held by exactly one Register in flight; while the slot is occupied the wake-up has happened or is being delivered |
| `RegistryTheorems.HeldWakeupIsDelivered` | server/registry.go:57-62 | a Register holding the channel can always go on by itself, in at most two steps, to where the parked lookup can wake |
| `RegistryTheorems.NoDoubleClose` | server/registry.go:49-62 | no channel is closed twice, no close is issued on a closed channel, and a live slot never has a wake-up channel |
| `RegistryTheorems.TakeoverSafety` | server/registry.go:40-78 | an installed session that is not the occupant is closed or about to be closed by a Register or CloseAll in flight; an occupant's handler has its Unregister still to come |
| `RegistryTheorems.OccupantLeavesOnlyBy` | server/registry.go:65-78 | an occupant leaves its slot only by its own Unregister, a newer session of the same service, or CloseAll; a stale Unregister evicts nobody |
| `RegistryTheorems.NothingStranded` | server/server.go:369-382 | once every handler has returned, every slot is free and every session is closed |
| `RegistryTheorems.FoundWasOccupant` | server/registry.go:85-117 | Lookup is linearizable: the session returned occupied the requested slot at an instant during the call, and has that service name |
| `RegistryTheorems.RefusalJustified` | server/registry.go:91-119 | Lookup answers "no client" only because, during the call, the slot was empty and unseen within the grace window, or the window ran out, or the slot was empty again after a wake-up |
| `RegistryTheorems.ParkedDeadline` | server/registry.go:91-107 | the timer fires at the last-seen time read at entry, plus grace, plus the delay before arming; exactly at last-seen plus grace iff there was no delay; never more than grace after arming |
| `RegistryTheorems.TimerCanBeLate` | server/registry.go:91-107 | for every positive grace and every delay, a reachable state with a timer that fires that delay after last-seen plus grace |
| `RegistryTheorems.LastSeenIsLastSighting` | server/registry.go:22-24 | the last-seen time of a service is the time of its last install or of the last departure of its occupant |
| `RegistryTheorems.HasServiceIsHistory` | server/registry.go:125-136 | HasService holds iff a session of that service was ever installed |
| `RegistryTheorems.HasServiceStable` | server/registry.go:125-136 | once HasService holds it holds on every continuation |
| `RegistryTheorems.WarmedIsRegistered` | server/server.go:369-376 | certificates are pre-warmed only for services already registered |
| `RegistryProgress.LookupCanReturn` | server/registry.go:85-123 | from every reachable state every lookup in progress can return by its own steps and the passing of time alone, exactly when it is due: at once if it is about to look, with the occupant if there is one; with "no client" at its deadline if it waits |
| `RegistryProgress.ParkedReturns` | server/registry.go:104-119 | a parked lookup, in any state, can return "no client" at its deadline, or at once if that has passed, by one tick and its own timer, with nothing else changed |
| `RegistryProgress.ParkedCanLeave` | server/registry.go:108-122 | a parked lookup can be cancelled at any time, and can look again once its channel is closed |
| `RegistryProgress.EntryDecides` | server/registry.go:86-102 | the first critical section returns the occupant, or "no client" iff the service was never seen or not within the grace, or else waits on the service's one channel with the rest of the grace; nothing else changes |
| `RegistryProgress.WokenByRegister` | server/registry.go:57-62 | a lookup wakes only because, after its entry section, a Register of its own service closed the channel |
| `RegistryProgress.CanStart` | server/registry.go:43-85 | a session or a lookup of any service can start in every state |
| `RegistryProgress.HandlerCanReturn` | server/server.go:369-382 | the handler of every session can return by its own steps and the death of its multiplexer, without time passing, and the session is then closed |
| `RegistryProgress.CloseAllExact` | server/registry.go:139-150 | CloseAll empties every slot and can then close exactly the sessions it found in one |
| `RegistryProgress.ServingIsWarmed` | server/server.go:369-376 | every session that gets to serve has had a certificate pre-warmed for its service |
| `Registry.Session.Close` | server/session.go:55-60 | however often called, the closed channel is closed exactly once |
| `Registry.Registry.Register` | server/registry.go:43-63 | the new session takes the slot, the one displaced is closed, the waiters' channel is closed and removed, and nothing else changes |
| `Registry.Registry.Unregister` | server/registry.go:67-78 | only the current occupant leaves; a stale unregister changes nothing |
| `Registry.Registry.LookupLocked` | server/registry.go:86-102 | the first critical section: hit, miss, or a channel to wait on with the remaining grace, created only when the service has none |
| `Registry.Registry.HasService` | server/registry.go:128-136 | the answer is membership in the last-seen map alone |
| `Registry.Registry.CloseAll` | server/registry.go:139-150 | every slot is emptied and every session that was in one is closed |
| `ControlPlane.RegistryProjection` | server/server.go:318-383 | the registry part of every run of the control plane is the run of its registry steps, so all the registry's guarantees hold there |
| `ControlPlane.AdmissionExact` | server/server.go:318-369 | every session stems from exactly one connection, told OK with the very name it is registered under: what its token was bound to at the handshake or, for a wildcard, the normalised requested name, which has the service shape |
| `ControlPlane.DecideExact` | server/server.go:326-355 | an unknown token is refused with status 1; a client with a known one is admitted under exactly the names it may register (its token's name if it asks for none or for that one in any case; for a wildcard the normalised request, if it has the service shape), and refused with 3 iff there is none |
| `ControlPlane.AlwaysPossible` | server/server.go:318-325 | in every state connections are accepted, reloads made and registry steps taken; a bad Hello drops its connection |
| `ControlPlane.HandshakeExact` | server/server.go:319-360 | in every state a handshake is possible and has just that outcome for the connection, and changes nothing else |
| `ControlPlane.AckedExact` | server/server.go:357-369 | a client told OK can become a session under the name it was told; a failing Ack or multiplexer drops it |
| `ControlPlane.FailedNeverAttaches` | server/server.go:320-368 | after an unreadable Hello, a failed Ack or a failed multiplexer a connection never has a session |
| `ControlPlane.TokensAreHistory` | server/server.go:326-330 | the store that handshakes ask is at every moment what the history of reloads makes of it |
| `ControlPlane.BoundByLastGoodFile` | server/server.go:326-345 | what an admitted client is bound to comes from the boot map or, failing that, from the last token file read successfully before its handshake |
| `ControlPlane.WildcardName` | server/server.go:333-343 | a wildcard token is admitted under a name iff the name has the service shape and the requested service is some core that folds to it, with white space around |
| `ControlPlane.RefusedStaysOut` | server/server.go:321-355 | a connection refused or dropped stays so and never has a session |
| `ControlPlane.ResolvedAtHandshake` | server/server.go:326-345 | what an admitted connection is bound to is what the token store resolved at its own handshake step, whatever is reloaded later |
| `ControlPlane.RequestReachesItsLabel` | server/server.go:258-292 | a forwarded request reaches a session registered under exactly the label its host names |
| `ControlPlane.SessionReachableIff` | server/server.go:258-269 | with token names in lower case, as loaded, some Host header is routed to the name of a session iff that name is one non-empty label without a dot or a colon and the base has no colon, whatever clients ask for and whatever is reloaded |
| `ControlPlane.ColonNameUnreachable` | server/server.go:344-369 | a run that registers a session named "a:b", and no Host header is routed to that name under any base |
| `ControlPlane.PolicyStable` | server/tls.go:71-90 | a host the certificate policy accepts stays accepted on every continuation |
| `ControlPlane.PolicyAgreesWithRouting` | server/tls.go:76-89 | a host accepted for its service is routed to that service, of which a session has been registered, iff the base has no colon |
| `ControlPlane.PrewarmedIsAcceptable` | server/server.go:369-376 | a host handed to Issue for a service of the wildcard shape is acceptable, because Register came first |
| `Hosts.ExtractInvertsJoin` | server/server.go:406-426 | under any chain of labels the label next to the base comes back in lower case, iff the base is non-empty and has no trailing dot |
| `Hosts.ExtractServiceIff` | server/server.go:411-426 | under every base a host names a service iff, case folded and without one trailing dot, it is a chain of labels, the service and the base |
| `Hosts.ImproperBaseNeedsTwoDots` | server/server.go:411-421 | under a base that is empty or ends in a dot, a host names a service iff it spells out the dot of the base and one more |
| `Hosts.TwoDotHost` | server/server.go:411-421 | "foo.r.com.." under the base "r.com." is routed to "foo" |
| `Hosts.ExtractIsLastLabel` | server/server.go:411-426 | every answer is the lower-case, dot-free label next to the base of the host asked about |
| `Hosts.RouteExact` | server/server.go:258-269 | a host without a port goes to the dashboard iff it is the base or www under it, case aside; to a service iff it is neither and names that service; and is unknown iff it is neither and names none |
| `Hosts.PortIgnored` | server/server.go:258-269 | a port never changes where a Host header is routed |
| `Hosts.ExtractIgnoresDecoration` | server/server.go:399-412 | letter case and one trailing dot do not change the service extracted, and stripping leaves the host without its port |
| `Hosts.RoutableNames` | server/server.go:258-269 | under every base, requests can be routed to a name by some Host header iff it is one non-empty, lower-case label without a dot or a colon and the base has no colon |
| `Hosts.ServiceNameExact` | server/server.go:314-316 | a service name is one to 31 lower-case letters, digits and hyphens, not starting with a hyphen |
| `Hosts.ServiceNameIsLabel` | server/server.go:314-316 | the service regular expression admits only lower-case labels without a dot or a colon |
| `Hosts.TrailingDotAndRouting` | server/server.go:258-269 | a trailing dot changes the destination iff one of the two forms is a dashboard host |
| `Hosts.DashboardTrailingDot` | server/server.go:258-269 | with a trailing dot the apex becomes an unknown host and www a request for a service "www" |
| `Hosts.AcceptsExact` | server/tls.go:62-90 | a host is accepted iff, case folded and without one dot, it is listed, the base, www under it, or "<service>.<base>" for a registered service of the right shape |
| `Hosts.BuildAllowList` | server/tls.go:62-69 | the loop builds the set of the listed domains, the apex and www |
| `Hosts.AcceptedHostIsRoutedToIt` | server/tls.go:76-89 | a host accepted outside the allow list is "<service>.<base>" for a registered service of the right shape, and is routed to that service iff the base has no colon |
| `Hosts.AcceptsMonotone` | server/tls.go:86-89 | registering more services never withdraws an acceptance |
| `Hosts.PrewarmedHostAccepted` | server/tls.go:71-90 | "<service>.<base>" of a registered service is accepted iff it is listed or the name has the service shape and the base is proper |
| `Ascii.LowerCharExact` | server/server.go:412-413 | folding gives each upper-case letter the one at the same place in the lower-case alphabet, leaves all else alone, and leaves no upper-case letter |
| `Ascii.TrimSpaceExact` | server/server.go:337 | trimming gives exactly the part that has white space around it and none at its ends |
| `Ascii.IsSpaceExact` | server/server.go:337 | white space is the six ASCII characters |
| `Handshake.FrameBytes` | internal/protocol/handshake.go:49-66 | a frame is "AXR1", version 1, the tag, the payload's length in two bytes, the more significant first, and the payload |
| `Handshake.ParseExact` | internal/protocol/handshake.go:68-88 | which streams are refused, and with which error, checked in this order: incomplete header, other magic, other version, length over 8192, incomplete payload |
| `Handshake.LengthRoundTrip` | internal/protocol/handshake.go:54-60 | the 16-bit length is faithful iff it fits, hence for every payload within the limit |
| `Handshake.FrameRoundTrip` | internal/protocol/handshake.go:49-89 | whatever follows a frame, reading returns what was written and leaves exactly what follows |
| `Handshake.ParseIsFrame` | internal/protocol/handshake.go:68-88 | whatever reading accepts is a frame within the limit followed by what it leaves |
| `Handshake.StrictPrefixFails` | internal/protocol/handshake.go:71-87 | a stream cut anywhere inside a frame is refused as truncated |
| `Handshake.MessageRoundTrip` | internal/protocol/handshake.go:91-136 | for every lossless encoding a message is read back with its status, and refused when cut short |
| `Handshake.Pipe.ReadFull` | internal/protocol/handshake.go:71-87 | filling a buffer has the same outcome under every fragmentation of reads |
| `Handshake.WriteFrame` | internal/protocol/handshake.go:54-65 | exactly one frame is written, or nothing when the payload is over the limit |
| `Handshake.ReadFrame` | internal/protocol/handshake.go:68-87 | the imperative reader computes the parser and consumes exactly the frame, under every fragmentation |
| `Handshake.WriteHello` | internal/protocol/handshake.go:49-66 | writes the Hello frame, or nothing |
| `Handshake.ReadHello` | internal/protocol/handshake.go:68-89 | returns the decoded Hello and leaves the bytes behind it, or the error of the first check that fails |
| `Handshake.WriteAck` | internal/protocol/handshake.go:91-109 | writes the Ack frame with its status, or nothing |
| `Handshake.ReadAck` | internal/protocol/handshake.go:111-136 | returns status and Ack and leaves the bytes behind them, or the error of the first check that fails |
| `Chunked.ChunkedRoundTrip` | client/handler.go:122-126 | any writes encoded as chunks decode, under section 7.1 of RFC 9112, to their concatenation, with what follows untouched |
| `Chunked.HexIsHexadecimal` | client/handler.go:122-126 | chunk sizes are in lower-case hexadecimal, most significant digit first |
| `Chunked.ChunkBytes` | client/handler.go:122-179 | the bytes of a chunk, of an empty write and of the end of a body |
| `Chunked.DecodeTerminator` | client/handler.go:176-179 | the zero chunk and the empty line end the body and leave what follows |
| `ResponseWriter.ResponseProtocol` | client/handler.go:81-181 | for every sequence of handler calls: hijacked and nothing emitted, or exactly one head in front, nothing left buffered, and the body bytes are none for 101, 204 and 304, the chunked writes with one terminator, or the plain writes |
| `ResponseWriter.BodyExact` | client/handler.go:81-181 | for every sequence of calls without a hijack: a 101, 204 or 304 has no body bytes; any other response whose handler set neither Content-Length nor Transfer-Encoding before its first move is chunked and decodes to what the handler wrote; if it set either, its writes are sent as they are |
| `ResponseWriter.HeadExact` | client/handler.go:81-110 | the head has the status first named, 200 if none, the header fields as set before the first move, "Connection: close", and "Transfer-Encoding: chunked" if the body is chunked |
| `ResponseWriter.FirstMoveDecides` | client/handler.go:81-110 | the first call that is not a header edit decides hijack, status, framing and the announced header block; a hijack succeeds iff it comes first; chunking is chosen iff the status carries a body and no framing was set before |
| `ResponseWriter.BodyRoundTrip` | client/handler.go:112-181 | a chunked response decodes to exactly what the handler wrote and leaves any following bytes |
| `ResponseWriter.RunConsistent` | client/handler.go:81-181 | after every prefix of every call sequence the output is one head followed by the framed writes so far, or nothing |
| `ResponseWriter.StreamRW.WriteHeader` | client/handler.go:81-110 | a first call commits status, framing and header block; later ones and calls after a hijack do nothing |
| `ResponseWriter.StreamRW.Write` | client/handler.go:112-138 | commits 200 if needed, sends the payload as a chunk or plainly and flushes it, takes nothing for body-less statuses, fails after a hijack |
| `ResponseWriter.StreamRW.Flush` | client/handler.go:141-149 | commits 200 if needed and leaves nothing buffered |
| `ResponseWriter.StreamRW.Hijack` | client/handler.go:153-166 | succeeds iff neither hijacked nor committed before |
| `ResponseWriter.StreamRW.Finish` | client/handler.go:169-181 | commits 200 if needed, closes a chunked body once, flushes |
| `Forwarding.CopyBody` | server/proxy.go:51-66 | the loop makes one write per non-empty read up to and including the first end, or just those before the write that fails |
| `Forwarding.CopyDelivers` | server/proxy.go:53-66 | the writes concatenate to exactly the bytes read, for every fragmentation, also when bytes arrive together with the end |
| `Forwarding.ProducedExact` | server/proxy.go:53-66 | what counts as read is the data up to and including the first read that reports an end |
| `Forwarding.EndToEnd` | server/proxy.go:36-66 | what the copy loop delivers of a chunked response is exactly what the handler behind the tunnel wrote |
| `RateRing.AdvanceRefinesIff` | server/stats.go:155-179 | moving the ring forward keeps every covered second's slot equal to the logged sum modulo the word iff no traffic of second 0 is left behind |
| `RateRing.BumpRefinesIff` | server/stats.go:144-152 | counting an event keeps the ring a refinement of the log iff no traffic of second 0 is left behind and the event is less than 60 seconds behind, or adds nothing |
| `RateRing.RunRefines` | server/stats.go:144-197 | a sequence of bumps and snapshots, otherwise in any order, meets that condition at each operation iff the ring refines the log after each of them |
| `RateRing.PositiveClocksFresh` | server/stats.go:155-159 | clocks after second 0 never leave anything behind |
| `RateRing.WindowExact` | server/stats.go:183-197 | entry i of a snapshot is the logged sum of second now-59+i whenever the ring covers it, in particular for every current clock; else of the covered second sharing its slot |
| `RateRing.LateEventMiscounted` | server/stats.go:144-152 | a concrete event 60 seconds late breaks the refinement |
| `RateRing.EpochEventRepeated` | server/stats.go:155-159 | an event counted in second 0 breaks it once the ring has moved on by 60 seconds |
| `LatencyRing.RingHolds` | server/stats.go:131-137 | after any samples, sample k sits in slot k mod 256 as long as it is among the last 256 |
| `LatencyRing.LastSamples` | server/stats.go:131-137 | the ring holds exactly the last min(total, 256) samples, in order from the head, and as a multiset in what a snapshot copies |
| `LatencyRing.PickIsOrderStatistic` | server/stats.go:247-251 | indexing a sorted arrangement yields the k-th smallest of the unsorted samples |
| `LatencyRing.OrderStatisticUnique` | server/stats.go:248-252 | there is only one k-th smallest |
| `LatencyRing.Percentiles` | server/stats.go:243-253 | the slice is sorted in place; each result is the order statistic at rank k with 100k <= (n-1)p < 100(k+1), and they do not decrease; zeros for no samples |
| `LatencyRing.PercentileUnique` | server/stats.go:248-252 | there is only one such value |
| `Stats.Stats.AdvanceBuckets` | server/stats.go:155-179 | both in-place rings become the advanced rings |
| `Stats.Stats.BumpBucket` | server/stats.go:144-152 | both rings take the event, with 32-bit and 64-bit wrap-around, and go on refining their logs as long as everything was on time |
| `Stats.Stats.AddHTTPBytes` | server/stats.go:98-106 | the byte counters and the byte ring take the same bytes, modulo 2^64 |
| `LatencyRing.Clamp` | server/stats.go:123-129 | a latency is stored as the nearest value a 32-bit slot can hold |
| `Stats.Stats.RecordLatency` | server/stats.go:123-137 | the sample, clamped to 32 bits, is the newest of the last 256 that the ring holds |
| `Stats.Stats.HTTPCompleted` | server/stats.go:119-140 | one request, its bytes and its latency are each recorded exactly once, under the seconds read |
| `Stats.Stats.TakeSnapshot` | server/stats.go:182-241 | as long as everything was on time, the entry for each second is its logged sum (for a clock that has gone back, that of the covered second in its slot); the percentiles are the order statistics of the last min(total, 256) clamped samples, zeros if there are none; counters are copied; the rings only move forward |
| `Stats.GoSlot` | server/stats.go:190-194 | correcting Go's signed remainder gives the slot of every second, also before the epoch |
| `HttpAccounting.CountersExact` | server/proxy.go:26-27 | in every interleaving httpActive is the number of forwards between start and end and httpRequests the number that completed, modulo 2^64 |
| `HttpAccounting.BytesConserved` | server/stats.go:98-121 | modulo 2^64 the byte counters are the bytes in the ring's log plus what calls in progress have yet to log |
| `HttpAccounting.RestBalances` | server/proxy.go:26-69 | at rest, error paths included, nothing is active; modulo 2^64 the bytes counted each way are those of the completed forwards, and together the bytes logged; samples and logged requests are one per completed forward, and httpRequests is their number modulo 2^64 |
| `HttpAccounting.BytesAsReported` | server/proxy.go:68-69 | the byte counts of a forward are those its own completion reported |
| `HttpAccounting.CallCanRest` | server/proxy.go:26-69 | from every state every forward can come to rest by its own steps, completed or failed, whatever the others do |
| `HttpAccounting.CanArrive` | server/proxy.go:18-27 | forwards can start in every state; one whose stream cannot be opened never becomes active |
| `HttpAccounting.AllCanRest` | server/proxy.go:26-69 | from every reachable state some continuation brings all forwards to rest, and the counters settle |
| `UpgradePump.PumpSafety` | server/proxy.go:106-159 | in every interleaving there is no send on the closed channel, at most one close, an end only after both directions ended, wsActive is the number of upgrades between start and end, and wsUpgrades that of all upgrades modulo 2^64 |
| `UpgradePump.LeakIsForever` | server/proxy.go:118-128 | once the ticker has taken a message no continuation ends the upgrade |
| `UpgradePump.CanEnd` | server/proxy.go:130-159 | while it has not, some continuation using only this upgrade's goroutines ends it |
| `UpgradePump.CanOpen` | server/proxy.go:106-118 | upgrades can start in every state, and either direction can end at any time |
| `UpgradePump.CanQuiesce` | server/proxy.go:118-159 | while it has not, all four goroutines of the upgrade can return by their own steps |
| `UpgradePump.EndsIffNothingStolen` | server/proxy.go:118-159 | an upgrade in progress can still end iff the ticker has taken nothing |
| `UpgradePump.LeakReachable` | server/proxy.go:124-125 | a concrete run in which the ticker takes a message |
| `CertIssuer.SingleFlight` | server/cert_warmup.go:69-89 | in every interleaving a host has an issuance in flight iff its record is pending, never two, and the flight's record is the one stored |
| `CertIssuer.Lifecycle` | server/cert_warmup.go:72-107 | a record is created pending, finished in place from pending only, and replaced from failed only by a fresh record without the old error or end time |
| `CertIssuer.IssueExact` | server/cert_warmup.go:72-89 | a host without a record, or with a failed one whatever its error, gets a fresh pending record and an issuance; for a pending or ready host nothing happens |
| `CertIssuer.PendingCanFinish` | server/cert_warmup.go:91-107 | a pending issuance can always end, and its host's record is then ready, or failed with the error, and has its end time |
| `CertIssuer.ReadyIsFinal` | server/cert_warmup.go:76-79 | a ready record never changes again |
| `CertIssuer.Issuer.Issue` | server/cert_warmup.go:72-89 | starts an issuance with a fresh record unless the normalised host is pending or ready |
| `CertIssuer.Issuer.Finish` | server/cert_warmup.go:91-107 | writes the outcome into the record the goroutine was handed, and into no other |
| `CertIssuer.Issuer.FlightRecordStored` | server/cert_warmup.go:85-88 | the object a goroutine was handed is still the one in the map |
| `CertIssuer.Issuer.Intercepts` | server/cert_warmup.go:176-194 | a request is answered with the issuing page iff the host's record is pending or failed |
| `Tokens.ResolutionHistory` | server/reload.go:48-101 | over any history of good and failed reloads a token resolves through the boot map, then the last good file; health fails iff the latest attempt failed |
| `Tokens.FileExact` | server/config.go:182-196 | a token file binds exactly its tokens, each to its value without the white space around it, in lower case |
| `Tokens.BootExact` | server/config.go:124-146 | at boot the file's value wins over the environment's, which stands otherwise |
| `Tokens.FailedReloadIsHarmless` | server/reload.go:88-94 | a failed reload changes no resolution, only health |
| `Tokens.ReloadKeepsTidy` | server/config.go:182-196 | whatever the file says, no reload makes a token resolve to a name that is not in lower case |
| `Tokens.ReloadMattersIff` | server/config.go:140-144 | some history of reloads changes what a token means iff it was in neither the environment nor the boot-time file |
| `Tokens.AllAgreesIff` | server/reload.go:70-81 | the dashboard's map and Lookup agree on every token iff the two maps agree where they overlap |
| `Tokens.DisagreementReachableIff` | server/reload.go:48-81 | some history of reloads makes the two disagree on a token iff it was in the environment or the boot-time file |
| `Tokens.TokenStore.Reload` | server/reload.go:83-101 | a good read replaces the file map and clears the error, a failed one only sets the error, no path means no change |
| `Tokens.TokenStore.Lookup` | server/reload.go:48-58 | computes the resolution |
| `Tokens.TokenStore.All` | server/reload.go:70-81 | the copying loops compute the union in which the file overrides |
| `TokenWatch.PendingIsOutstanding` | server/reload.go:127-136 | in every reachable state, stopped or not, pending iff a timer firing is outstanding |
| `TokenWatch.NoEventLost` | server/reload.go:127-166 | every accepted event has been followed by a debounce reload or has a firing outstanding, armed for at most 150 ms after the event |
| `TokenWatch.ReloadComesIffRunning` | server/reload.go:137-166 | an accepted event not yet followed by a debounce reload can still be followed by one iff the loop has not stopped |
| `TokenWatch.ReloadHasCause` | server/reload.go:127-166 | a debounce reload comes only for an accepted event that none before it has followed, and no sooner than 150 ms after it |
| `TokenWatch.LoopReacts` | server/reload.go:137-166 | while the loop runs it takes every event: a SIGHUP reloads at once, a qualifying file event is accepted and arms the timer for 150 ms unless one is pending, a watcher error or another event changes nothing |
| `TokenWatch.ReloadsSpaced` | server/reload.go:130-135 | debounce reloads are at least 150 ms apart over every run |
| `TokenWatch.OutstandingDelivers` | server/reload.go:158-165 | while the loop runs, an outstanding firing leads to a reload by waiting alone, at once if the timer has fired or is due, else when it is due |

## Left out

- `Stats.connected`, `MarkConnected`, `MarkDisconnected`: they run outside the registry lock, so the flag is not "slot occupied"; no claim is made.
- WebSocket byte totals: load and reset of the counters are separate, so totals are not conserved; the pump model has no byte counts.
- Write failures inside the response writer, and bufio passing bytes on before a flush: the model's writes to the stream succeed.
- HttpAccounting.CountersExact: httpActive, and wsActive in `UpgradePump`, are integers; 2^63 calls at once are not considered.
- Stats.Stats.BumpBucket: requires a clock not before 1970, where the source indexes out of range.
- Stats.Stats.TakeSnapshot: requires the same, although a snapshot alone gets by with an earlier clock.
- LatencyRing.Percentiles: the index is floor((n-1)P/100) in integers, where the source multiplies in floating point; sort.Slice stands as a method with its contract.
- Hosts.RouteExact: strings are ASCII; folding case and trimming white space of other characters is not modelled.
- ResponseWriter.HeadExact: header keys are in canonical form, as net/http makes them.
- Forwarding.EndToEnd: net/http's body reader is taken to produce, in any fragmentation, what the decoder of section 7.1 of RFC 9112 yields.
- ResponseWriter.ResponseProtocol: 1xx codes other than 101 are treated as final, as in the code; HEAD requests are not singled out.
- UpgradePump.CanEnd: that a continuation is taken depends on the scheduler and on the peers; only its existence is stated.
- Liveness of parked lookups and of reloads beyond a pending step or a fixed deadline.
- Goroutine start-up of `run` after Issue unlocks: the flight counts from the critical section.
- `isUpgrade` (tests two request headers), `httpsRedirector` and `portFromAddr` (redirect a plain request to https, or show the issuing page), the two `SnapshotAll` (a copy of every certificate record, and a snapshot of every service in name order), and the header copying of forwardHTTP: they keep no state, and no property here depends on them.
- yamux, TLS, autocert, certmagic, fsnotify, `client/client.go`, `client/proxy.go`, `server/admin.go`, `server/acme_dns.go`, environment parsing, `cmd/`, `tools/`, `examples/`, `web/`: plumbing, configuration or user interface.
